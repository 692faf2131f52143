/** src/retention.js: what a prune pass may drop under a storage role. */
module Retention {
  datatype Role = Archive | Standard | Transient
  datatype Plan = Skip | Thin(retainSnapshots: nat, retainRecentMs: nat)

  const STANDARD_RETAINED_SNAPSHOTS: nat := 4
  const TRANSIENT_RETAINED_SNAPSHOTS: nat := 1
  const RETAIN_RECENT_SNAPSHOTS_MS: nat := 15 * 60_000

  function RetentionPlan(role: Role, archiveOnline: bool): Plan {
    if role == Archive then Skip
    else if role == Transient && archiveOnline then Thin(TRANSIENT_RETAINED_SNAPSHOTS, RETAIN_RECENT_SNAPSHOTS_MS)
    else Thin(STANDARD_RETAINED_SNAPSHOTS, RETAIN_RECENT_SNAPSHOTS_MS)
  }
}
