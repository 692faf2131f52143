# GitPigeon verification model

GitPigeon replicates Git repositories between devices that edit at the same time. This project is a Dafny model of
its state machines over stores, byte streams and sequences, with proofs about whole runs of them. Network,
cryptography, clocks and the file system enter as parameters: any schedule, any message order, any digest function.

Operations that update state in the program are classes here; every method's contract gives the new state as a
function of the old one, and the theorems are lemmas about those functions.

| file | what it models |
|---|---|
| `Basics`, `Strings`, `Paths` | optional values, code-unit order, splitting and joining, generated paths |
| `Git`, `History`, `Checkout` | importing a bundle on a commit graph: refs, tags, HEAD, index and tree |
| `Workspace`, `Sync`, `Cells`, `Outcome` | the live overlay, private files, the steps of importing a snapshot, and a whole import seen at one path |
| `Replication`, `Following` | a follower equals its source, after every import and after every head heard |
| `Moves`, `Relisted` | when a listed file is taken; one file moved between the private and the live list |
| `Generated`, `Reports` | which paths are never shared, and what becomes of them; what an import reports |
| `LocalEdits`, `Quarantine`, `TrashIndex` | no local edit is lost; what becomes of the bytes an import removes, and which of them the trash still lists |
| `Idempotence`, `Reimport`, `Retry` | applying a snapshot twice; the same content under another id; the retry of a refused head |
| `Retention`, `Cache`, `Collector` | the chunk store, its garbage collector, and publications that reuse chunks |
| `Keeping`, `Bundles` | what a prune leaves, over runs; which bundle a publication names |
| `HistoryFilter`, `TerminalSession`, `TerminalGate`, `TerminalLimit` | filtering a pty stream cut anywhere, the gate and frames behind it, and when a session opens and when it overflows |
| `PeerUpdate`, `PeerDigests`, `PeerSlots` | fetching an executable over a lossy mesh with asynchronous writes, from honest peers and from any; how many fetches run at once |
| `Realtime`, `Echo`, `Memory`, `Feedback` | patching a live document, recognising echoes, how long, and failing to |
| `Fragments`, `Reassembly` | cutting messages into parts and putting them together again, from honest peers and from any |
| `Fleet`, `PairedFleet`, `Handovers` | which index secret a fleet keeps, without and with browser-paired machines; when a handover is made |
| `Exclude`, `Tooling` | the managed section of the exclude file; the tree sweep against the path scan |
| `MapConcurrent`, `Manifest`, `Delivery`, `Receiving`, `Identity` | the worker pool, publishing and checking manifests, a publication from end to end, what can be received at all, and what a snapshot id identifies |

`dafny verify dfyconfig.toml` checks everything.

## Hypotheses worth knowing

- A follower (`Replication`) has no edits of its own, imports from one source, keeps the source's branch checked out,
  and ignores none of the shared paths; the source does not commit its private files. History on the source moves forward.
- A digest is idealised as the value it is computed from (`Basics.Digest`, `Manifest.Fingerprint`). `Identity` justifies
  this for snapshot ids without assuming an injective hash: two snapshots with one id exhibit a collision.
- Checkout and fast-forward overwrite ignored files, as Git does unless told otherwise. This is the one gap in
  `LocalEdits`, stated by `UncommittedLossExactly` in terms of the repository and the stated heads before the import.
- The extra clean-HEAD clause when an overlay entry is applied (src/live-workspace.js:300-306) adds nothing when no content
  filters rewrite files between index and tree, which is what the model assumes.
- Snapshot ids are numbers in `Cache` and `Collector`; equal-length hex digits order as numbers do.
- `TerminalGate` counts UTF-8 bytes exactly, surrogate pairs included; frame payloads stay code units instead of base64.
- In `PeerUpdate` any chunk a peer could serve may arrive at any time, any number of times; a file is read block by
  block while writes land, and a close does not wait for them. In `PeerDigests` any chunk at all may arrive, and a
  close waits for the writes under way, as a file handle's does.
- Runs of heads (`LocalEdits`, `Quarantine`, `TrashIndex`, `Moves`, `Relisted`, `Following`) skip a head whose snapshot was the
  last imported from its device (src/protocol.js:563).
- In `Echo` the content of a file is read in one step and judged in another; a write is renamed into place in one step and
  recorded in another. A document is hydrated and seeded.

## Where the program does less than it promises

- Ended history frames longer than 8193 units make the terminal's output depend on how the pty cuts its stream
  (`HistoryFilter.ChunkingIndependence`, src/terminal-server.js:768-772); an input, `TerminalGate.LongLineShows`.
- A private list in code-unit order is refused by receivers whose collation disagrees (`Manifest.AcceptedExactlyWhen`,
  `MixedCaseIsRefused`; src/workspace.js:82 against src/protocol.js:1122).
- The comment at src/lan-fleet.js:287-289 says a late or replayed offer cannot drag a machine backwards. It can, exactly when no
  browser has paired with that machine (`Fleet.StaleHandoverAcceptedExactlyWhenUnpaired`, `LateOfferReplacesGreater`).
- Two builds offered under one version can leave current.json naming a file with another digest
  (`PeerUpdate.CurrentIsVerified`, `PeerDigests.CurrentMatchesExactlyWhen`).
- A head of one's own accepted from the mesh before the first publication can lead to a snapshot that is not whole on disk
  (`Collector.AdoptedHeadPublishesUnbacked`); `CurrentSnapshotSurvivesExactlyWhen` says when it does.
- A head taken back from the mesh for other refs makes the next publication under those refs name the wrong bundle
  (`Bundles.OwnBundleMatchesExactlyWhen`, `ReuseIsRightExactlyWhen`; src/protocol.js:281 compares the head's refs, not the
  bundle's); an input, `AdoptedHeadPublishesOtherBundle`.
- A fetch whose abandonment is under way can free the slot of the next one, and then two run at once
  (`PeerSlots.OneFetchExactlyWhen`, `TwoFetchesExactlyWhen`; src/peer-update.js:178-185 awaits before it frees the slot):
  two abandonments of one fetch do it (`TwoAbandonmentsBreakIt`), and so does one whose fetch finishes in
  between (`LateFinishBreaksIt`).
- A checkout overwrites an ignored file that the commit has with other bytes (`LocalEdits.UncommittedLossExactly`,
  `IgnoredFileIsOverwritten`).
- Three overlapping writes, or a read that straddles a write, turn the watcher's own version into an edit. The theorem is
  `Feedback.OwnVersionFeedsBackExactlyWhen`; `OverlappingFeedsBackExactlyWhen` and `StaleReadRevertsExactlyWhen` give
  the two families, `OverlappingWritesFeedBack` and `StaleReadRevertsEdit` an input of each.
- The comment at src/live-workspace.js:155-160 says nothing is ever hard-deleted; a peer's deletion of a private file is
  (src/workspace.js:234-235): exactly when, `Quarantine.PrivateFileIsDestroyedExactlyWhen`; an input,
  `Relisted.WithdrawnFileIsDestroyed`. And of the files in the trash the index lists the last 500
  (`TrashIndex.StillListedExactlyWhen`).
- A head refused over a dirty tree is retried, and the retry is no repetition (`Retry.RetryExactly`): it gives files of the
  overlay back to HEAD, without a copy in the trash when HEAD has them (`RetryUndoes`), and every retry puts the
  overlay's new files into the trash and writes them again (`RetryFillsTrash`, `RetriesSettle`), pushing older entries out.
- A fleet with browser-paired machines may hand secrets round for ever (src/machine-index.js:333-334):
  `PairedFleet.SettlesExactlyWhen` says which fleets settle; an input, `Fleet.MixedFleetCycles` and
  `PairedFleet.MixedFleetIsRestless`.
- A file edited while it moves from the private to the live list conflicts with the copy its followers have unedited
  (`Moves.LiveTakenExactlyWhen`, `Relisted.EditedMoveConflicts`). A file moved back to the private list after an edit is
  taken from the tree of its followers, who refuse whatever content is listed then (`Moves.PrivateTakenExactlyWhen`,
  `AbsentPrivateStaysAbsent`, `Relisted.MovedBackIsLost`): src/workspace.js:219 compares with what the list last stated.
- The first import of a snapshot may leave a baseline that only its publication under another id forgets
  (`Reimport.ForgottenExactlyWhen`, `OnlyRepublicationForgets`).
- A backslash in a directory name makes the sweep and the path scan disagree (`Tooling.FoundIsOwnAnswerExactlyWhen`;
  without one they agree as sets of strings, `SweepIsAllAnswers`).
- A message of more than 12 MiB, 512 parts, is sent but never delivered (`Fragments.HonestIsValid`,
  `Reassembly.DeliverableExactlyWhen`).

## Model

| member | source | states |
|---|---|---|
| `Git.GitRepository.ImportBundle` | src/git.js:189-262 | The repository after an import is the one function `BundleImported` of its old state: fetched heads, branches, tags, first checkout, in that order, with the updated names and conflicts reported |
| `Git.GitRepository.FetchHeads` | src/git.js:194-199 | Every stated head is recorded under the device that stated it |
| `Git.GitRepository.AdvanceBranches` | src/git.js:210-242 | The loop over branches: created, fast-forwarded, kept, refused while dirty, or reported as diverged |
| `Git.GitRepository.CreateTags` | src/git.js:244-249 | A tag is created only when there is none of that name |
| `Git.AncestorAntisymmetric` | src/git.js:227-228 | Two commits that are each other's ancestors are the same commit, so no commit graph has a cycle |
| `History.ImportGrows` | src/git.js:203-249 | One import moves each branch only to a descendant and moves no existing tag |
| `History.HistoryOnlyGrows` | src/git.js:189-262 | Over any run of bundles from any devices branches only move forward, tags stay, and every commit reachable from a branch stays reachable |
| `History.BranchAfterImport` | src/git.js:210-242 | Each branch ends at the later of its own and the stated commit, unless it is checked out and dirty; a branch is reported diverged exactly when neither commit precedes the other |
| `History.StatedCommitsAreKept` | src/git.js:194-199 | Moved or refused, every stated commit stays reachable under the device that stated it |
| `History.ImportJoins` | src/git.js:210-242 | Importing a full listing into a clean repository puts every branch at the join of the two branch maps |
| `History.CleanRepositoriesAgree` | src/git.js:189-262 | Two clean repositories whose common branches are comparable have equal branch maps after each imports the other once |
| `Checkout.TreeAfterBundle` | src/git.js:215-235 | A dirty tree is left alone; a clean one becomes the new HEAD plus the files Git does not track |
| `Checkout.BranchKept` | src/git.js:251-259 | HEAD stays on its branch when the bundle states that branch or states none |
| `Checkout.BranchCaughtUp` | src/git.js:210-242 | A repository behind on its branch ends at the stated commit |
| `Checkout.HeadTreeAfterBundle` | src/git.js:210-259 | Which commit a clean repository will have checked out is known before the import: its own branch's stated commit when that is missing here or ahead, or the preferred one on the first checkout; else nothing moves |
| `Checkout.FirstCheckoutGoesTo` | src/git.js:251-259 | A clean repository without branches, whose own branch the bundle does not state, ends on main if the bundle states it, else on master, else on the least name stated, at the commit stated for it |
| `Strings.BeforeExactlyWhen` | src/fleet-convergence.js:59-61 | The order of secrets and branch names is the one by code unit: at the first place they differ, a missing unit first |
| `Workspace.ListingIsComplete` | src/git.js:128-139 | git's two listings together see every shared path that differs from HEAD |
| `Workspace.LiveWorkspace.Snapshot` | src/live-workspace.js:66-121 | The overlay lists exactly the shared paths whose content differs from HEAD, each once, with its content and base |
| `Workspace.LiveWorkspace.ListFile` | src/live-workspace.js:76-116 | One path that git lists: left out when private, generated or as in HEAD, else stated with its content and base |
| `Workspace.LiveWorkspace.Quarantine` | src/live-workspace.js:161-178 | A quarantined file leaves the tree and its bytes enter the trash index |
| `Workspace.LiveWorkspace.Prepare` | src/live-workspace.js:254-282 | Retraction is the fold of one-path retractions over the targets, with conflicts and baselines as they result |
| `Workspace.LiveWorkspace.Apply` | src/live-workspace.js:284-325 | Applying an overlay is the fold of one-file applications: refused, written, or quarantined, with the baseline recorded in every case |
| `Workspace.LiveWorkspace.Retract` | src/live-workspace.js:266-280 | The loop over the targets |
| `Workspace.LiveWorkspace.RetractFile` | src/live-workspace.js:267-279 | One target: refused while edited or staged, else quarantined or given back to the index, and forgotten |
| `Workspace.LiveWorkspace.ApplyFile` | src/live-workspace.js:289-323 | One overlay entry: skipped, saved as a conflict copy, written or quarantined, and its baseline recorded |
| `Workspace.WorkspaceFiles.Apply` | src/workspace.js:206-244 | Private files are first excluded from Git, then applied under the shared baselines |
| `Workspace.WorkspaceFiles.ApplyActive` | src/workspace.js:206-244 | The loop over the private files that stay active here |
| `Workspace.WorkspaceFiles.ApplyFile` | src/workspace.js:215-241 | One private file: written, removed, or saved as a conflict copy |
| `Sync.RepositorySynchronizer.SetAsideOwned` | src/protocol.js:610-623 | Paths a live session owns leave the incoming list, are recorded as delivered, and shield retraction |
| `Sync.RepositorySynchronizer.RunSteps` | src/protocol.js:624-635 | Retraction, bundle, private files and overlay run in this order, each on what the one before left |
| `Sync.RepositorySynchronizer.ImportSnapshot` | src/protocol.js:589-660 | A whole import, and what it reports, is one function of the device's state, snapshot and owned paths; the snapshot counts as imported unless a dirty tree refused a branch |
| `Sync.RepositorySynchronizer.AcceptHead` | src/protocol.js:563-660 | A head whose snapshot was imported last is skipped; any other is imported |
| `Sync.RefsDigestIsFaithful` | src/protocol.js:624-627 | The refs count as changed exactly when the heads or tags listed are not those imported before |
| `Reports.UpdatedExactlyWhen` | src/git.js:202-249 | A bundle reports a ref exactly when its branch is not what it was or its tag is new |
| `Reports.ChangedExactlyWhen` | src/protocol.js:636-647 | An import reports a path among the live files exactly when retraction or the overlay changed its content, and among the private ones exactly when applying those did |
| `Reports.ConflictExactlyWhen` | src/protocol.js:636-646 | A path is reported as a conflict exactly when it should have been retracted and was not, or when a file listed for it is not what it holds in the end |
| `Reports.SilentImportChangesNothing` | src/protocol.js:639-647 | An import that reports no change made none: not to a ref, HEAD, the index or any file |
| `Reports.ConflictFreeMeansTaken` | src/protocol.js:639-646 | An import that reports no conflict took everything: each branch has come to the commit stated or beyond, and each file listed for this device is there |
| `Outcome.ImportAtPath` | src/protocol.js:602-659 | Where any one path stands after a whole import, retraction, checkout, private list and overlay together, is decided by its own content, index, HEAD, baselines and entries and by whether the tree was clean once retracted |
| `Cells.PreparedView` | src/live-workspace.js:254-282 | Retraction acts on each path on its own, whatever the order of the targets |
| `Cells.AppliedView` | src/live-workspace.js:284-325 | So does the overlay |
| `Cells.PrivateAppliedView` | src/workspace.js:206-244 | So do the private files |
| `Cells.ActiveFiles` | src/workspace.js:161-170 | The private files that stay active are those neither untracked here nor generated |
| `Generated.GeneratedExactlyWhen` | src/live-workspace.js:333-338 | A path is skipped exactly when it lies below a .git, .hg or .svn or a tooling directory, is a file a desktop leaves behind, or ends as a log, temporary, crash or cache file does |
| `Generated.ToolingNames` | src/live-workspace.js:7-13 | Which names those directories have, spelled out |
| `Generated.CaseDoesNotMatter` | src/live-workspace.js:333-338 | Two paths that differ only in case are skipped alike |
| `Generated.AnsweredIsGenerated` | src/cloud-storage.js:66-75 | A file strictly below the tooling directory the watcher names for it is skipped |
| `Generated.DirectoriesAgree` | src/cloud-storage.js:66-75 | Of a path in normal form some directory above it is skipped exactly when it is one of version control or one the watcher names |
| `Generated.FoundIsGenerated` | src/cloud-storage.js:263-305 | Whatever lies in a directory the sweep finds is skipped |
| `Generated.OverlayListsNothingFound` | src/live-workspace.js:66-121 | No overlay lists a path in a directory the sweep finds |
| `Generated.ImportSkips` | src/live-workspace.js:289-295 | A whole import changes a skipped path by retraction and checkout only, whatever is listed for it |
| `Generated.ImportLeavesFound` | src/live-workspace.js:289-295 | A file in a directory the sweep finds, that no commit knows and no peer delivered, is as it was after any import |
| `Replication.CleanCloneIsPassive` | src/live-workspace.js:264-280 | A clean clone that has imported nothing is a passive follower |
| `Replication.PrepareStep` | src/live-workspace.js:254-282 | Retraction keeps a follower passive on the same HEAD and leaves only incoming paths overlaid |
| `Replication.BundleStep` | src/git.js:227-238 | The bundle puts a follower on the source's commit |
| `Replication.ImportCell` | src/protocol.js:599-659 | After an import each path is HEAD overlaid with its baseline, and holds the source's content where it is shared |
| `Replication.ImportFollows` | src/protocol.js:599-659 | One import leaves a follower passive and with the source's shared tree |
| `Replication.ReplicationRefinesSource` | src/protocol.js:599-659 | For any edits and forward history on the source and any snapshots missed, a follower without edits of its own has the source's tree on shared paths after every import |
| `Following.HeardHeadsReplicate` | src/protocol.js:563-659 | The same for heads as they are heard, those imported last being skipped: with one snapshot to an id, a follower ends with the tree of the last head heard, repeated ones included |
| `Moves.LiveTakenAtAnyPath` | src/live-workspace.js:298-323 | A file listed live, at any path, is taken exactly when what retraction and checkout leave of it is the new content, the unstaged base, or what was last taken from the overlay; else that stays, the peer's is saved and counts as delivered |
| `Moves.PrivateTakenAtAnyPath` | src/workspace.js:218-241 | Likewise a file listed as private, at any path: taken exactly when what is left is the new content, what was last taken from a private list, or, with none taken before, nothing |
| `Moves.LiveTakenExactlyWhen` | src/live-workspace.js:298-323 | A file no commit knows is taken live exactly when there is none here, the same one, or the one last taken from this device's overlay |
| `Moves.EditedMoveIsRefused` | src/live-workspace.js:298-316 | Over any run of snapshots from any devices that list the path live, such a file stays as it is until one of them states its very content |
| `Moves.PrivateTakenExactlyWhen` | src/workspace.js:218-241 | For a path no commit knows what is left is nothing when the file was last taken from the overlay, and the file as it is otherwise |
| `Moves.AbsentPrivateStaysAbsent` | src/workspace.js:218-230 | A private file taken once and absent here is never given back, whatever content any device lists |
| `Relisted.RunAt` | src/protocol.js:602-635 | Where any run of listings of one file as private or live leaves it, from what it was, was last taken from either list, and the last snapshot |
| `Relisted.EditedMoveConflicts` | src/live-workspace.js:298-316 | From a device with nothing: a file listed as private and then live with an edit is refused |
| `Relisted.MovedBackIsLost` | src/live-workspace.js:272-280 | From a device with nothing: a file moved to the overlay, edited there and moved back was followed, is retracted, and is not taken again |
| `LocalEdits.ImportKeepsProvenance` | src/protocol.js:601-635 | Every baseline an import leaves behind came from a peer's delivery |
| `LocalEdits.ImportLosesNoEdit` | src/protocol.js:601-635 | An import replaces a path only if its old content was delivered by a peer, stated as a base, or committed, or if Git checks out over an ignored file |
| `LocalEdits.NoLocalEditIsLost` | src/protocol.js:601-635 | The same over any interleaving of local edits and imports from any devices |
| `LocalEdits.FreshDeviceLosesNoEdit` | src/protocol.js:601-635 | A device that starts with nothing imported is covered for its whole life |
| `LocalEdits.UncommittedLossExactly` | src/git.js:215-259 | Uncommitted bytes go in the bundle step exactly when the repository is not bare and clean, the path is ignored and not in HEAD, and the commit to be checked out, read off the repository and the stated heads, holds it with other bytes |
| `LocalEdits.IgnoredFileIsOverwritten` | src/git.js:220-234 | A concrete ignored note is replaced by a peer's commit of the same path |
| `LocalEdits.RetractionsAreQuarantined` | src/live-workspace.js:272-278 | A file that retraction removes is in the quarantine, in the loop by itself |
| `LocalEdits.LiveDeletionsAreQuarantined` | src/live-workspace.js:317-319 | A file that an overlay deletes is in the quarantine with its old bytes, in the loop by itself |
| `Quarantine.ImportQuarantines` | src/protocol.js:624-635 | Every file that retraction or the overlay of an import removes is among the files the import adds to the trash directory, with the bytes it had |
| `Quarantine.EveryRemovalIsAccounted` | src/protocol.js:624-635 | A file gone after an import was quarantined, was committed and left with its commit, or was a private file whose peer deleted it |
| `Quarantine.QuarantineOnlyGrows` | src/live-workspace.js:155-178 | Over any edits and heads from any devices the trash directory only grows, and ends holding every file that any import of the run retracted or deleted from the overlay |
| `TrashIndex.ImportAdds` | src/live-workspace.js:161-178 | An import adds exactly as many files to the trash as retraction and the overlay remove |
| `TrashIndex.StillListedExactlyWhen` | src/live-workspace.js:174-176 | After any run a quarantined file still has its entry in the index exactly when fewer than 500 files were quarantined after it |
| `TrashIndex.ImportListsAll` | src/live-workspace.js:174-176 | An import that removes no more than 500 files lists each of them |
| `Quarantine.PrivateDeletionExactly` | src/workspace.js:219-241 | Applying private files removes a file exactly when its entry is a deletion and its content is what was last taken; the trash gets nothing |
| `Quarantine.DeletedPrivately` | src/workspace.js:219-241 | Of any path the private files of an import remove the file exactly when its entry is an active deletion and its content is what was last taken |
| `Quarantine.PrivateFileIsDestroyedExactlyWhen` | src/workspace.js:206-241 | A path no commit and no overlay knows is destroyed by a whole import, nothing of it entering the trash, exactly when the peer deletes it, it is neither untracked here nor generated, and it still is what was last taken |
| `Relisted.WithdrawnFileIsDestroyed` | src/workspace.js:233-235 | From a device with nothing: a private file is taken, its owner deletes it, and its bytes are nowhere in the trash |
| `Idempotence.ImportIsIdempotent` | src/protocol.js:602-659 | Applying a snapshot twice, its refs here already, is applying it once, conflicted files included |
| `Idempotence.OwnedPathsUntouched` | src/protocol.js:610-635 | Neither retraction nor the overlay touches a path a live session owns, although it is removed from the incoming list |
| `Idempotence.PrivateTrashFree` | src/workspace.js:233-236 | Applying private files leaves the quarantine as it was |
| `Idempotence.SecondPrepare` | src/live-workspace.js:254-282 | A second retraction finds nothing to retract |
| `Idempotence.SecondLive` | src/live-workspace.js:284-325 | A second pass over the overlay finds every entry taken or refused |
| `Reimport.BundleSettles` | src/git.js:203-249 | A bundle imported without a refused branch leaves every stated branch and tag here, so that importing it again does nothing |
| `Reimport.RepublishedLeavesFiles` | src/protocol.js:563-659 | Content published again under another id, after an import that refused no branch, leaves the device as it is, except that baselines may be forgotten and the id is recorded |
| `Reimport.ForgottenExactlyWhen` | src/live-workspace.js:266-280 | The second import of the content, under any id that is not skipped, forgets a baseline the first kept exactly when the path is no longer stated, was edited or staged here, and the commit the first checked out has there what the baseline says |
| `Reimport.OnlyRepublicationForgets` | src/live-workspace.js:266-280 | A concrete device whose baseline outlives the first import and goes when the content is published again |
| `Reimport.ThirdChangesNothing` | src/protocol.js:563-659 | Under a third id nothing but the id changes |
| `Retry.SkippedExactlyWhen` | src/protocol.js:650-657 | A head just imported is imported again exactly when a branch of it was refused over a dirty tree |
| `Retry.RefusedExactlyWhen` | src/git.js:210-234 | That happens exactly when the tree is dirty once retracted and HEAD's branch is stated and missing or behind here |
| `Retry.RetryTreeExactly` | src/protocol.js:602-659 | A second import that checks nothing out leaves every file but these, which go back to HEAD: the refs not being remembered, unstaged overlay files as stated that differ from HEAD and whose base HEAD's content is not |
| `Retry.RetryTrashExactly` | src/live-workspace.js:254-323 | And it puts exactly these into the trash: of the overlay files as stated, unstaged and different from HEAD, those HEAD has not, and those that the overlay deletes from the HEAD it was taken against |
| `Retry.RetryExactly` | src/protocol.js:563-659 | Both for the retry of a head refused over a tree still dirty, which is refused again and so tried once more |
| `Retry.RetriesSettle` | src/protocol.js:563-659 | After the first retry the tree is settled, while each further one puts the same files into the trash again |
| `Retry.RetryUndoes` | src/live-workspace.js:254-323 | A concrete retry that gives an overlay's file back to HEAD with nothing entering the trash |
| `Retry.RetryFillsTrash` | src/live-workspace.js:254-323 | A concrete retry that trashes a new file of the overlay and writes it again |
| `Cache.RepositoryCache.WriteChunk` | src/cache.js:99-108 | A chunk is stored under its digest, once |
| `Cache.RepositoryCache.WriteManifest` | src/cache.js:119-132 | A manifest is written once; only a missing pack index is filled in later |
| `Cache.RepositoryCache.Sort` | src/cache.js:191-194 | The readable manifests, newest first, ties by id |
| `Cache.RepositoryCache.Protect` | src/cache.js:160-203 | The ids marked are exactly those named, among the newest, or young |
| `Cache.RepositoryCache.Mark` | src/cache.js:208-220 | The chunks collected are exactly those a protected readable manifest names for its bundle, private and live files |
| `Cache.RepositoryCache.Prune` | src/cache.js:154-239 | A prune is skipped exactly when a named manifest is unreadable; otherwise it leaves exactly the protected manifests and the chunks they mark, and reports how many went |
| `Cache.RankIsPosition` | src/cache.js:191-196 | A snapshot's place in the sorted list is the number of newer readable snapshots |
| `Collector.PublishIsBackedIffReusedChunksAre` | src/protocol.js:274-380 | A publication that succeeds leaves the current snapshot whole on disk exactly when the bundle chunks it reused were there, or, with nothing changed, when it was whole before |
| `Collector.StepKeepsBackedExactlyWhen` | src/protocol.js:547-562 | One step keeps the current snapshot whole on disk exactly when it takes back no own head whose snapshot is not whole here |
| `Collector.PruneKeepsBacked` | src/cache.js:205-231 | A prune keeps every named snapshot whole |
| `Collector.CurrentSnapshotSurvivesExactlyWhen` | src/protocol.js:920-940 | Over any publications, heads heard and accepted, and prunes, the current snapshot's manifest and all chunks it marks stay on disk all along exactly when no own head is taken back from the mesh before its snapshot is whole here |
| `Collector.CurrentSnapshotSurvives` | src/protocol.js:920-940 | A device with a head of its own and its snapshot whole keeps it whole over any run |
| `Collector.AdoptedHeadPublishesUnbacked` | src/protocol.js:280-294 | A run from an empty device that takes back its own head and then publishes a snapshot whose reused chunk was never on its disk |
| `Collector.PruneIsExact` | src/cache.js:205-231 | After a prune that is not skipped every manifest left is readable and every chunk left is marked by one of them |
| `Collector.NewestRemain` | src/retention.js:38-58 | Under every storage role the newest snapshots the plan counts stay |
| `Keeping.RemainsExactlyWhen` | src/cache.js:154-231 | A manifest remains after a prune, as it was, exactly when the role is archive, it is named by a head or being served, it is younger than 15 minutes, there are not four newer ones (one, for a transient role while an archive is online), or a named one cannot be read |
| `Keeping.ChunkRemainsExactlyWhen` | src/cache.js:205-231 | A chunk remains exactly when nothing is pruned or the bundle, a private or a live file of a snapshot that remains is made of it |
| `Keeping.StaysExactlyWhen` | src/protocol.js:920-940 | Over any run of publications, heads and prunes under any roles a snapshot stays on disk exactly when at each prune it is one to be kept |
| `Keeping.ArchiveLosesNothing` | src/retention.js:38-42 | Over any run whose prunes are those of an archive no snapshot and no chunk is lost |
| `Keeping.SnapshotCanBeRebuilt` | src/protocol.js:920-940 | Over any run every chunk of the bundle, the private and the live files of this device's current snapshot is on disk |
| `Bundles.DoneIsPublished` | src/protocol.js:274-363 | A publication that succeeds leaves a head of the refs published, whose readable manifest names exactly the bundle of those refs and the files published, whether the bundle was written or reused |
| `Bundles.DoneCanBeServed` | src/protocol.js:270-283 | After a publication that succeeds no chunk of the current snapshot is longer than the chunk size, and its manifest has a pack index if one could be made |
| `Keeping.OnlyPrunesRemove` | src/cache.js:119-132 | Nothing but a prune removes a manifest or a chunk, and a manifest once on disk at most gets a pack index it lacked |
| `Bundles.StepMatchesExactlyWhen` | src/protocol.js:274-340 | One step keeps this device's head naming the bundle of its refs exactly when it takes back no head made for other refs |
| `Bundles.OwnBundleMatchesExactlyWhen` | src/protocol.js:274-340 | Over any run this device's head names the bundle of its own refs all along exactly when every head it takes back does |
| `Bundles.HeadHasItsBundle` | src/protocol.js:274-340 | And then the manifest on disk for its head holds that bundle |
| `Bundles.ReuseIsRightExactlyWhen` | src/protocol.js:280-294 | A reused bundle is that of the refs published exactly when the head before named the bundle of its refs |
| `Bundles.AdoptedHeadPublishesOtherBundle` | src/protocol.js:280-294 | A run from an empty device that takes back a head of other refs for a snapshot it has, and then publishes those refs with that snapshot's bundle |
| `Bundles.DraftsMakeHonestRuns` | src/protocol.js:274-340 | What the drafts say of themselves makes every manifest of the run stand for what its id says |
| `HistoryFilter.StripInPieces` | src/terminal-server.js:755-792 | Filtering two pieces with the tail carried over is filtering the whole |
| `HistoryFilter.FeedIsStrip` | src/terminal-server.js:755-792 | With frames short enough, any pieces give the visible text, lines and carry of the whole stream |
| `HistoryFilter.ChunkingIndependence` | src/terminal-server.js:764-791 | The filter is independent of every cut exactly when each ended frame fits in the carry with its last unit to come |
| `TerminalGate.ServerFilterIsIndependent` | src/terminal-server.js:755-792 | The same at the history header the server uses |
| `TerminalGate.ServerLineIsIndependent` | src/terminal-server.js:755-792 | A command line the shell reports is filtered alike however the pty cuts it exactly when it has at most 8171 units |
| `TerminalGate.LongLineShows` | src/terminal-server.js:782-790 | A concrete line of 8172 units and some cut of it for which the filter gives something else |
| `TerminalSession.Scan` | src/terminal-server.js:755-792 | The cursor loop over one text computes the whole-stream function, held tail and overlong frame included |
| `TerminalSession.TakeFrame` | src/terminal-server.js:762-780 | One turn of the loop: the frame is taken out, or the cursor stays on an open one |
| `TerminalSession.HoldsTheTail` | src/terminal-server.js:782-790 | What is held back is exactly the tail that could still become a header |
| `TerminalSession.Cut` | src/terminal-server.js:833-838 | The buffered output leaves as consecutive numbered frames |
| `TerminalSession.TerminalServerSession.CaptureHistory` | src/terminal-server.js:755-792 | The session's carry and recorded lines after one chunk |
| `TerminalSession.TerminalServerSession.GateOutput` | src/terminal-server.js:794-800 | Output waits for the ready marker or the limit |
| `TerminalSession.TerminalServerSession.ReleaseOutput` | src/terminal-server.js:802-809 | The gate opens once |
| `TerminalSession.TerminalServerSession.QueueOutput` | src/terminal-server.js:811-824 | Output is buffered up to a limit, past which the session closes |
| `TerminalSession.TerminalServerSession.FlushOutput` | src/terminal-server.js:826-839 | The buffer is emptied into frames |
| `TerminalLimit.OpenCounts` | src/terminal-server.js:811-832 | Over any run an open session counts exactly the bytes queued since the last flush, and none when its buffer is empty |
| `TerminalLimit.OverflowsExactlyWhen` | src/terminal-server.js:814-818 | A run ends in an overflow exactly when at some step an open session had more than 262144 bytes queued since the last flush |
| `TerminalLimit.ClosesExactlyWhen` | src/terminal-server.js:734-741 | A session closes exactly when the shell ended or it overflowed |
| `TerminalLimit.OpensExactlyWhen` | src/terminal-server.js:794-809 | Over any run the output is let through exactly from the timeout, the end of the shell, the marker, or 65536 bytes without it; until then all of it is held back |
| `TerminalLimit.RunIsTidy` | src/terminal-server.js:802-839 | Over any run a flush is due exactly while something is buffered, a ready session holds nothing back, and a closed one holds nothing at all |
| `TerminalLimit.ByteLengthIsUtf8` | src/terminal-server.js:799-813 | What is counted against the limits is the length of the text in UTF-8, a lone surrogate being the replacement character |
| `TerminalSession.TerminalServerSession.OnData` | src/terminal-server.js:726-729 | One pty chunk through filter and gate |
| `TerminalGate.CutIsExact` | src/terminal-server.js:833-838 | A cut loses nothing; its frames are numbered without a gap, none empty and none over 16 KiB |
| `TerminalGate.SentInOrder` | src/terminal-server.js:811-839 | Whatever happens to a session its frames are numbered 1, 2, 3 and so on |
| `TerminalGate.NotYetTooLong` | src/terminal-server.js:796-799 | Before an early marker arrives the preamble never passes the limit |
| `TerminalGate.GateIsExact` | src/terminal-server.js:755-839 | However the stream is cut and whenever it is flushed, an open session passes on exactly the visible text after the first ready marker and records exactly the hidden lines; a closed one has passed on and recorded a prefix |
| `TerminalGate.HistoryEndsWithSession` | src/terminal-server.js:873-885 | A session that closes has recorded exactly the lines up to the end of the piece that closed it, and neither records nor sends anything after |
| `TerminalGate.ServerGateIsExact` | src/terminal-server.js:755-839 | The same at the history header and the ready marker the server uses |
| `TerminalSession.TerminalServerSession.ReadyTimeout` | src/terminal-server.js:730-733 | The timeout releases what was held back |
| `TerminalSession.TerminalServerSession.OnExit` | src/terminal-server.js:734-741 | A shell that ends releases, flushes, says so and closes |
| `TerminalGate.ExitSendsAll` | src/terminal-server.js:734-741 | A shell that ends leaves nothing unsent, what was held back before it was ready included, unless that overflows the buffer |
| `TerminalGate.QueueAddsAll` | src/terminal-server.js:811-824 | Queued output is kept whole or the session closes |
| `PeerUpdate.TransferIsExact` | src/peer-update.js:322-349 | Under any loss, repetition, reordering and retry the accepted chunks are exactly the first bytes of the executable, every claimed byte is in the file or in flight, and a fetch finishes only once all is claimed |
| `PeerUpdate.TilesAreExact` | src/peer-update.js:330-338 | Accepted chunks neither overlap nor leave a gap |
| `PeerUpdate.ChunkShrinksRemaining` | src/peer-update.js:324-338 | An accepted chunk shrinks what is left by a whole chunk or all of it; any other chunk changes nothing, and no honest chunk abandons a fetch |
| `PeerUpdate.DuplicateIsIgnored` | src/peer-update.js:325-338 | A chunk delivered twice is taken once |
| `PeerUpdate.ProvenIsExact` | src/peer-update.js:194-198 | A digest that matches, read while writes were still landing, means the file is the executable from then on |
| `PeerUpdate.QuietFinishIsExact` | src/peer-update.js:188-198 | A finished fetch with no write in flight holds the executable and its digest matches |
| `PeerUpdate.InstalledAsOffered` | src/peer-update.js:188-203 | What is installed for a version is what the fetch that installed it was offered |
| `PeerUpdate.CurrentIsVerified` | src/peer-update.js:202-215 | In every run current.json records the digest of the file it points at, exactly when no two peers offer different builds under one version |
| `PeerDigests.OnlyOfferedDigests` | src/peer-update.js:193-203 | Whatever chunks peers send, what is installed for a version has the digest some offer of that version named |
| `PeerDigests.CurrentMatchesExactlyWhen` | src/peer-update.js:193-215 | With any chunks and any offers, current.json records in every run the digest of the file it points at exactly when all offers of one version that can be met carry one digest |
| `PeerUpdate.RunFits` | src/peer-update.js:126-218 | The invariant behind these results holds in every state a run reaches |
| `PeerUpdate.PeerUpdater.BeginFetch` | src/peer-update.js:126-128 | A fetch begins only when none is active |
| `PeerSlots.BeginsExactlyWhenFree` | src/peer-update.js:126-128 | A fetch begins exactly when there is none |
| `PeerSlots.StepIsSingleExactlyWhen` | src/peer-update.js:126-146 | One step keeps one fetch at most, the flag up exactly while there is one, exactly when it ends no abandonment while a fetch begun since is opening its file |
| `PeerSlots.OneFetchExactlyWhen` | src/peer-update.js:178-185 | Over every run there is one fetch at most, and the flag is up exactly while there is one, exactly when no abandonment ends while a fetch begun since is opening its file |
| `PeerSlots.TwoFetchesExactlyWhen` | src/peer-update.js:178-185 | Two fetches run at once exactly when one begins beside another whose slot was so freed |
| `PeerSlots.UndisturbedIsSingle` | src/peer-update.js:178-185 | One removal at a time, over before its fetch finishes, keeps a single fetch over every run |
| `PeerSlots.NextBegins` | src/peer-update.js:184-193 | After every finished or abandoned fetch the slot is free and the next begins |
| `PeerSlots.TwoAbandonmentsBreakIt` | src/peer-update.js:178-185 | Of two abandonments of one fetch the second frees the slot of the fetch begun after the first |
| `PeerSlots.LateFinishBreaksIt` | src/peer-update.js:178-193 | So does a single one whose fetch finishes before its file is removed |
| `PeerSlots.LeavingIsReached` | src/peer-update.js:178-183 | The state in which one abandonment is under way is reached from rest |
| `PeerSlots.LeavingTwiceIsReached` | src/peer-update.js:178-183 | So is the one in which two are |
| `PeerUpdate.PeerUpdater.FetchOpened` | src/peer-update.js:132-146 | The opened temporary becomes the one being fetched |
| `PeerUpdate.PeerUpdater.ReceiveChunk` | src/peer-update.js:322-347 | The offset is claimed before the write; the empty chunk finishes, too much abandons |
| `PeerUpdate.PeerUpdater.WriteCompleted` | src/peer-update.js:340-349 | A write that lands finishes the fetch once everything is claimed, unless another is being fetched |
| `PeerUpdate.PeerUpdater.FinishFetch` | src/peer-update.js:188-193 | Finishing frees the fetch slot before anything is awaited |
| `PeerUpdate.PeerUpdater.FinishOn` | src/peer-update.js:193-215 | Each later step: read on, compare digests, run, clear the place, move in, record |
| `PeerUpdate.PeerUpdater.AbandonFetch` | src/peer-update.js:178-182 | Abandoning starts by closing the file |
| `PeerUpdate.PeerUpdater.AbandonGoesOn` | src/peer-update.js:182-183 | The temporary unlinked is that of whatever is being fetched by then |
| `PeerUpdate.PeerUpdater.AbandonEnds` | src/peer-update.js:184-185 | Then the slot is freed |
| `Realtime.FindSpan` | src/realtime-server.js:368-373 | The two loops find the longest common prefix and then the longest common suffix without overlap |
| `Realtime.Patch` | src/realtime-server.js:367-385 | The edit made to the document is the splice of that span |
| `Realtime.PatchStaysInRange` | src/realtime-server.js:374-385 | Nothing before or after the changed span is touched and no more than the span is deleted |
| `Realtime.PatchOfBase` | src/realtime-server.js:367-385 | A document that is the base, or whose base is unknown, becomes exactly the file |
| `Realtime.PatchKeepsTail` | src/realtime-server.js:374-385 | A document reaching past the span becomes the file up to the span followed by its own tail, exactly when it agrees with the base before the span |
| `Realtime.PatchAltersExactlyWhen` | src/realtime-server.js:367-385 | A patch changes the document exactly when the part of the content between common prefix and suffix differs from the region of the text it replaces |
| `Echo.NoFeedback` | src/realtime-server.js:308-388 | Over any orderly run only remote updates change a document that is not empty |
| `Memory.RunRemembers` | src/realtime-server.js:743-746 | Over any run the memory of a document is the last 30 of all its writes |
| `Memory.RecentExactlyWhen` | src/realtime-server.js:347-355 | Over any run a content is taken for an echo exactly when the watcher wrote it no more than 30 writes and 15000 ms ago |
| `Memory.CompletedIsRemembered` | src/realtime-server.js:743-746 | A write just completed is recognised, and stays so through 29 more writes and 15000 ms |
| `Memory.OwnVersionsNeverFeedBack` | src/realtime-server.js:308-388 | Over every run with one write at a time, in which others put back only what this watcher wrote that lately, only remote updates change a document that is not empty |
| `Echo.EventSettles` | src/realtime-server.js:328-354 | A judged event leaves the file equal to the document once the write it begins is done |
| `Feedback.ChangesExactlyWhenTaken` | src/realtime-server.js:328-387 | A judged event changes the text exactly when the content is none of those recognised and differs, between the prefix and suffix it shares with the record, from what it replaces |
| `Feedback.OnlyRemoteChangesExactlyWhen` | src/realtime-server.js:308-388 | In any run at all only remote updates change a document that is not empty exactly when no judged event feeds back |
| `Feedback.OwnVersionFeedsBackExactlyWhen` | src/realtime-server.js:328-365 | In every run in which nobody else writes the file, what is judged is one of this watcher's own versions, and it changes the document exactly when it is neither the last recorded nor the current text, would not empty a text, has no remembered write within the window, and differs where the patch goes |
| `Feedback.PromptReadTakenExactlyWhen` | src/realtime-server.js:308-365 | If what is read is judged before anything else happens, an own version is taken for an outside edit only between the rename and the record of a write, an earlier write having lowered the flag |
| `Feedback.OverlappingFeedsBackExactlyWhen` | src/realtime-server.js:718-751 | From any document at rest three overlapping writes feed the second version back exactly under this condition on the texts |
| `Feedback.OverlappingWritesFeedBack` | src/realtime-server.js:718-751 | With three writes in flight the second version is read as an outside edit and a unit typed once appears twice |
| `Feedback.StaleReadRevertsExactlyWhen` | src/realtime-server.js:309-387 | From any document at rest a content read before a write and judged after it undoes the write exactly when it differs, would not empty the text, and was not itself written within the window |
| `Feedback.StaleReadRevertsEdit` | src/realtime-server.js:309-387 | A version a minute old comes back over the one just written |
| `Echo.RealtimeDocument.ReceiveUpdate` | src/realtime-server.js:699-715 | A remote update is written back at once |
| `Echo.RealtimeDocument.BeginWrite` | src/realtime-server.js:718-722 | A write captures the text and raises the flag |
| `Echo.RealtimeDocument.RenameIntoPlace` | src/realtime-server.js:731-732 | The oldest write in flight is put in place |
| `Echo.RealtimeDocument.EndWrite` | src/realtime-server.js:743-749 | A write that ends is remembered, the memory is cut to 30 and the flag falls |
| `Echo.RealtimeDocument.FilesystemChanged` | src/realtime-server.js:308-313 | The file is read unless a write says it is under way |
| `Echo.RealtimeDocument.JudgeContent` | src/realtime-server.js:328-387 | What is read is known, momentarily empty, an echo, or an edit |
| `Fragments.Send` | src/realtime-server.js:767-790 | A message leaves as as many parts as it takes, at least one |
| `Fragments.PartsMakeWhole` | src/realtime-server.js:769-782 | The parts in order are the payload |
| `Fragments.OnlyWholeMessages` | src/realtime-server.js:409-436 | However parts are mixed, repeated, dropped, expired or evicted, only whole messages come out, each as it was sent and of no more than 512 parts |
| `Fragments.AllPartsDeliver` | src/realtime-server.js:409-436 | If every part arrives and the assembly is neither expired nor evicted, the message is delivered |
| `Fragments.OtherArrival` | src/realtime-server.js:411-424 | Another message's part leaves an assembly alone, or drops it exactly when it has expired or is the oldest when room is made |
| `Fragments.HonestIsValid` | src/realtime-server.js:25-35 | A frame of an honest sender is accepted exactly when its message has at most 512 parts |
| `Reassembly.DeliveredIsMadeOf` | src/realtime-server.js:409-436 | Whatever arrives, and from whomever, a message is delivered only as parts that one peer sent under one id for one document, path, revision, base and kind, all of them, each in its place |
| `Reassembly.HeldIsBounded` | src/realtime-server.js:418-435 | Whatever arrives, at most 64 assemblies of at most 512 parts of at most 24582 bytes are held, each of what came in for its message |
| `Reassembly.PromptPartsDeliver` | src/realtime-server.js:411-436 | A message of up to 512 parts, all of which arrive, is delivered if until then nothing arrives more than 30 s after its last part and no more than 64 messages are on their way |
| `Reassembly.DeliverableExactlyWhen` | src/realtime-server.js:25-35 | The messages whose parts are accepted at all are those of up to 12582912 bytes |
| `Reassembly.OldestIsFirst` | src/realtime-server.js:418-421 | Room is made by dropping, of the assemblies least recently added to, the one begun first |
| `Reassembly.NothingSilentIsHeld` | src/realtime-server.js:411-413 | After any valid frame nothing is held that was last added to more than 30 s before |
| `Fragments.Reassembler.ReceiveFrame` | src/realtime-server.js:401-406 | Frames that are not valid change nothing |
| `Fragments.Reassembler.Assemble` | src/realtime-server.js:409-436 | The assemblies and the result after one frame |
| `Fragments.Reassembler.Expire` | src/realtime-server.js:411-413 | Assemblies idle for more than 30 seconds go |
| `Fragments.Reassembler.FindOldest` | src/realtime-server.js:418-421 | The one to evict is the first of the least recently updated |
| `Fleet.ExactlyOneOffers` | src/fleet-convergence.js:36-74 | On one index with different secrets exactly one of two machines offers |
| `Fleet.OfferAcrossIndexes` | src/fleet-convergence.js:39-46 | On different indexes a machine offers exactly when it has repositories and the other has none |
| `Fleet.MutualOffersExactlyWhenUnnamed` | src/fleet-convergence.js:70-74 | Two machines offer to each other only when neither names an index |
| `Fleet.OfferIsAccepted` | src/lan-fleet.js:280-300 | A handover decided on the receiver's current facts passes its re-check and the adoption goes through |
| `Fleet.StaleHandoverAcceptedExactlyWhenUnpaired` | src/lan-fleet.js:281-298 | A handover of an older secret is accepted exactly by a machine no browser has paired with |
| `Fleet.OtherIndexHandoverAcceptedExactlyWhenEmpty` | src/lan-fleet.js:281-298 | A handover of another index, however old, is accepted and adopted exactly by a machine without repositories |
| `Fleet.HandoverAcceptedExactlyWhen` | src/lan-fleet.js:281-298 | For any handover whatsoever, when the receiver accepts it |
| `Fleet.RunsEnd` | src/machine-index.js:325-334 | A run of handovers in an unpaired fleet is no longer than the distance it starts with |
| `Fleet.GreatestStays` | src/fleet-convergence.js:53-62 | The greatest secret is never replaced |
| `Fleet.FleetConverges` | src/fleet-convergence.js:48-62 | Every run is finite and none is left exactly when all machines hold the greatest secret |
| `Fleet.MixedFleetCycles` | src/machine-index.js:333-334 | With one browser-paired machine two handovers can bring the fleet back to where it was |
| `PairedFleet.RestlessRuns` | src/machine-index.js:325-334 | A fleet in which an unpaired machine can take two secrets in turn, now or after a paired one was handed another's, has runs of handovers of every length |
| `PairedFleet.MixedFleetIsRestless` | src/machine-index.js:333-334 | One browser-paired machine and two of a later secret are such a fleet |
| `PairedFleet.LedRunsEnd` | src/fleet-convergence.js:48-62 | With all paired machines on one secret and no such alternation, every run is no longer than what remains at its start |
| `PairedFleet.SettlesExactlyWhen` | src/fleet-convergence.js:48-62 | For every fleet of one index: runs of handovers are bounded exactly when it is not restless |
| `PairedFleet.LedFleetConverges` | src/fleet-convergence.js:48-62 | And a calm fleet led by one secret ends, when no handover is left, with every machine on that secret |
| `Fleet.LateOfferReplacesGreater` | src/lan-fleet.js:293-300 | Of two offers to one machine the lesser secret replaces the greater when it arrives second |
| `Fleet.LanFleet.Heard` | src/lan-fleet.js:181-244 | An announcement leads to at most a handover to a pinned machine, when it is fresh, signed, due and decided, once per cooldown |
| `Handovers.OfferDecidedExactlyWhen` | src/fleet-convergence.js:36-74 | For any two statements: on one index the browser-paired machine hands over, else the newer secret, else the greater; across indexes the one with repositories to the one without |
| `Handovers.HandedOverExactlyWhen` | src/lan-fleet.js:181-244 | Over everything a machine hears, an announcement is answered by a handover exactly when a machine pinned here with a sealing key signed it within five minutes, the statements decide for this one, and the last handover to that key, if any, is a minute back |
| `Fleet.LanFleet.Sealed` | src/lan-fleet.js:246-301 | A handover is adopted exactly when it is valid, wins here, and leaves no repositories behind |
| `Exclude.WorkspaceExclude.SyncExclude` | src/workspace.js:246-271 | The file is the rewritten text, malformed sections are refused, and nothing is written when nothing changes |
| `Exclude.WorkspaceExclude.PopBlank` | src/workspace.js:262 | Blank lines at the end are dropped |
| `Exclude.LineReadBack` | src/workspace.js:255 | A line printed and read back loses at most a carriage return at its end |
| `Exclude.RewriteKeepsAndLists` | src/workspace.js:255-267 | Rewriting keeps the user's lines in order, and reading the section back gives the tracked list |
| `Exclude.RewriteTwice` | src/workspace.js:255-267 | Rewriting with one list and then another is rewriting with the other |
| `Exclude.RewriteWhatIsListed` | src/workspace.js:268-270 | Rewriting a file with what it lists leaves its bytes as they are |
| `Exclude.UserLinesSurviveExactlyWhenClean` | src/workspace.js:255-267 | User lines survive every rewrite exactly when they hold no section marks and none ends in a stray carriage return |
| `Tooling.FindToolingDirectoryOf` | src/cloud-storage.js:66-75 | The loop over a path's parts computes the first tooling directory |
| `Tooling.AnswerForAllInside` | src/cloud-storage.js:66-75 | The answer for a directory is the answer for everything in it |
| `Tooling.FoundExactly` | src/cloud-storage.js:268-302 | The walk finds exactly the reachable directories outside a trash that are their own answer |
| `Tooling.AnswerIsFoundExactlyWhen` | src/cloud-storage.js:66-75 | The answer for a path is found exactly when the walk can reach it outside a trash |
| `Tooling.SweepHasEveryAnswer` | src/cloud-storage.js:263-305 | For every reachable directory outside a trash the path's answer is among those found |
| `Tooling.FoundStandsAlone` | src/cloud-storage.js:285-299 | A found directory is its own answer and lies inside no other |
| `Tooling.FoundIsOwnAnswerExactlyWhen` | src/cloud-storage.js:67 | As strings a found directory is its own answer exactly when no name in it has a backslash |
| `Tooling.AnswerStringIsFoundExactlyWhen` | src/cloud-storage.js:66-75 | For any string a watcher is told, the directory string it names is among those found exactly when the walk can reach the place it reads as, outside a trash |
| `Tooling.SweepIsAllAnswers` | src/cloud-storage.js:263-305 | In a tree without backslashes the strings found are exactly the answers for the paths of its directories outside every trash |
| `Tooling.ToolingSweep.Walk` | src/cloud-storage.js:271-302 | Within the limit every entry is counted and everything found; past it a front part is |
| `Tooling.ToolingSweep.Look` | src/cloud-storage.js:282-300 | What the walk does with one entry |
| `Tooling.FindToolingDirectories` | src/cloud-storage.js:268-305 | The sorted result holds what is found, nothing else, and within the limit all of it; it agrees with the watcher on every string |
| `MapConcurrent.ScheduleIndependence` | src/protocol.js:36-51 | For every interleaving the run is bounded, calls in flight are at most the concurrency, and the ended result is the plain map exactly when a worker was allowed or nothing was to be done |
| `MapConcurrent.StepKeeps` | src/protocol.js:42-46 | Each index below the cursor was claimed once and is done or with one worker |
| `MapConcurrent.StepCounts` | src/protocol.js:42-46 | Each step brings the end nearer |
| `MapConcurrent.RejectedByACall` | src/protocol.js:49 | A rejection carries an error of one of the calls |
| `MapConcurrent.GoesToTheEnd` | src/protocol.js:41-49 | The workers can always go on until each has ended or its call has failed; if no call fails each ends |
| `MapConcurrent.Mapping.Continue` | src/protocol.js:41-47 | A worker runs until its next await |
| `MapConcurrent.MapAll` | src/protocol.js:36-51 | Under any scheduler the results are the plain map unless a call fails |
| `Manifest.AcceptedExactlyWhen` | src/protocol.js:1052-1196 | What is published is accepted unchanged exactly when it is within the limits and both lists are in the receiver's collation order |
| `Manifest.MixedCaseIsRefused` | src/protocol.js:1122-1125 | Private files named B and a are refused by a receiver whose collation puts a first |
| `Manifest.SortLeavesAlone` | src/protocol.js:1122 | A stable sort leaves a list alone exactly when it is in order |
| `Manifest.RetrievedIsGenuine` | src/protocol.js:774-785 | Whatever the store holds, nothing but the content a digest names is retrieved |
| `Manifest.RoundTrip` | src/protocol.js:774-798 | With every chunk stored the bundle and each file come back byte for byte |
| `Delivery.DeliveredExactlyWhen` | src/protocol.js:585-600 | A receiver holding every chunk ends with exactly what was published, bundle, private files and overlay byte for byte, when it is within the limits and in the receiver's order, and with nothing otherwise |
| `Delivery.IdDeterminesContent` | src/protocol.js:705-798 | Whoever made a manifest and whatever the store holds, what is received under a publication's id has its bundle, private files and overlay |
| `Receiving.ReceivedIsAPublication` | src/protocol.js:1052-1196 | Whoever made a manifest, what is received of it is a publication that could have been published under this very id: within the limits, in order, no path twice, no executable deletion, a bundle only with refs |
| `Receiving.EveryEntryReceived` | src/protocol.js:1092-1181 | Every entry of a manifest that is received comes out as stated: a deletion that carries nothing, or content of its size and digest |
| `Receiving.PackIndexReceived` | src/protocol.js:1077-1085 | A pack index received is the one stated, not empty, of the size and digest stated |
| `Receiving.ChunksStatedAddUp` | src/protocol.js:1061-1091 | No manifest is received whose chunk sizes are not positive or do not add up, or that has a bundle without chunks, digest or refs |
| `Receiving.EachChunkIsGenuine` | src/protocol.js:774-785 | What is retrieved is one piece after the other, each of the size and digest its own chunk states |
| `Receiving.FitsExactlyWhen` | src/protocol.js:1062-1109 | The limits in numbers: 100000 files and a million chunks to a list, a million chunks to the bundle, sizes a number holds exactly |
| `Receiving.RepeatedPathIsRefused` | src/protocol.js:1094-1097 | A manifest that lists a path twice is never received |
| `Receiving.SortIsPermutation` | src/protocol.js:1122 | Sorting a list loses and repeats no entry |
| `Receiving.ImportIsWellFormed` | src/protocol.js:1092-1140 | What an import is given of a received manifest names each path once, which is all its theorems ask of files |
| `Delivery.CacheFiles` | src/protocol.js:309-330 | The loop over a list caches every file's chunks and lists its entry |
| `Delivery.Publish` | src/protocol.js:280-363 | Once a manifest is made everything it lists is in the cache |
| `Delivery.RetrieveFiles` | src/protocol.js:719-752 | The loop over a list puts each file together, or fails |
| `Delivery.Receive` | src/protocol.js:577-600 | The manifest is checked, then bundle, private files and overlay are retrieved |
| `Manifest.ChunksAddUp` | src/protocol.js:787-797 | The chunks' sizes add up to the data's |
| `Manifest.ChunkCount` | src/protocol.js:787-797 | Data is cut into as many chunks as it takes, all full but the last |
| `Manifest.ChunkStore.CacheChunks` | src/protocol.js:787-798 | Data is cut at multiples of the chunk size and every piece stored under its digest |
| `Manifest.ChunkStore.RetrieveChunks` | src/protocol.js:774-785 | Chunks are checked, joined and checked as a whole |
| `Manifest.CheckList` | src/protocol.js:1092-1118 | The loop over a list accepts exactly valid entries, no path twice, chunks within the limit |
| `Manifest.ValidateManifest` | src/protocol.js:1052-1196 | The checks in the order they are made |
| `Identity.WorkspaceTextIsFaithful` | src/workspace.js:26-31 | The text behind the private files' digest reads back in one way |
| `Identity.LiveWorkspaceTextIsFaithful` | src/live-workspace.js:19-29 | So does the text behind the overlay's digest |
| `Identity.SnapshotTextIsFaithful` | src/protocol.js:69-74 | So does the text behind a snapshot id |
| `Identity.IdIsFaithful` | src/protocol.js:69-74 | Equal ids mean the same bundle, private files, overlay and chunk size, unless the hash collides on the texts or bytes they are made of |

## Left out

- Network transport: PeerPigeon, WebRTC, relays, multicast, Nostr, S3 and IPFS clients, and the command line are I/O over libraries not modelled.
- Yjs: a live document is a plain sequence, and a remote update puts any text in its place; seeding election and `foreignWholeDocument` rest on CRDT semantics.
- Cryptography: signatures, sealing, pairing proofs and chunk encryption; signed messages are a boolean that says whether they verify.
- URL and invite parsing, configuration normalization, record sanitizing and the shape checks on malformed manifests and frames: easy field checks.
- File locks with stale stealing, fleet-wide unwatch convergence and share winners: no unconditional theorem holds.
- The executable bit, symbolic links, special files, case-insensitive file systems, and a file standing where a directory has to go.
- Trash: 30-day pruning, restoring, and mirroring a peer's tombstones; tombstone chunks are not marked by a prune and nothing is claimed about them.
- Quarantine.QuarantineOnlyGrows: the 30-day pruning and restoring, which take files out of the trash.
- Quarantine.PrivateFileIsDestroyedExactlyWhen: paths that a commit or an overlay also knows; `DeletedPrivately` covers them for the step that applies private files.
- Import backoff, the names of conflict copies, and the log.
- Failures of a disk half-way through an operation; `beginFetch` failing to open its file.
- Legacy manifest formats without a workspace digest, and a reused bundle inside `Manifest` (reuse is in `Collector`).
- A file that is missing or a clone that is gone drops its live document; one document stands for a file, though several revisions may be open.
- Feedback.OwnVersionFeedsBackExactlyWhen: one content read and not judged yet at a time; a later read replaces it.
- Delivery.Publish: a bundle reused from the last manifest, which `Collector` covers.
- Fragments.Send: the transport and the choice between one peer and a broadcast.
- Reassembly.PromptPartsDeliver: runs among no more than 64 messages; `Fragments.AllPartsDeliver` has the condition for any run, in terms of what is held.
- Handovers.HandedOverExactlyWhen: the machines pinned stay the same along the run.
- Receiving.ImportIsWellFormed: that a bundle names each branch once is Git's promise.
- Fleet.FleetConverges: handovers act on current facts, one at a time; `LateOfferReplacesGreater` shows what concurrent ones do.
- The comparison of versions that decides which offers are tried, and the restart after an installation.
- Tooling.FindToolingDirectories: names within a directory are taken to be distinct, as a file system has them.
- Replication.ReplicationRefinesSource: no path moves between the private and the live list along the run; `Moves` says exactly when such a move is taken. One source; several are covered by `History` for refs and by `LocalEdits` for safety.
- Reimport.RepublishedLeavesFiles: bare repositories; and first imports that refused a branch, which `Retry` covers.
- Retry.RetryTreeExactly: a retry that finds the tree clean by then and checks the commit out; `Outcome.ImportAtPath` says what each path becomes.
- Idempotence.ImportIsIdempotent: a path is not both private in the snapshot and live in it or in this device's baselines.
- PairedFleet.SettlesExactlyWhen: fleets of one index, each secret minted at one time.
