/**
 * src/protocol.js:36-51: a few workers share one cursor over the values; they interleave wherever a call is awaited.
 */
module MapConcurrent {
  import opened Basics

  datatype Outcome<U, E> = Ok(value: U) | Err(error: E)

  /** A worker is about to look at the cursor, waits for its call, or has ended. */
  datatype Worker = Looking | Calling(index: nat) | Ended | Failed(at: nat)

  /** `rejected` is the first error, with which the whole call is rejected at once. */
  datatype State<U, E> = State(cursor: nat, workers: seq<Worker>, results: seq<Option<U>>, rejected: Option<E>)

  function Min(a: int, b: nat): nat {
    if a < 0 then 0 else if a < b then a else b
  }

  function Start<U, E>(n: nat, concurrency: int): State<U, E> {
    State(0, seq(Min(concurrency, n), _ => Looking), seq(n, _ => None), None)
  }

  predicate Enabled<U, E>(s: State<U, E>, w: nat) {
    w < |s.workers| && (s.workers[w].Looking? || s.workers[w].Calling?)
  }

  /** A worker claims the next index or ends; or its call settles. */
  function Step<T, U, E>(values: seq<T>, f: (T, nat) -> Outcome<U, E>, s: State<U, E>, w: nat): State<U, E>
    requires Enabled(s, w) && |s.results| == |values|
  {
    match s.workers[w]
    case Looking =>
      if s.cursor < |values| then s.(cursor := s.cursor + 1, workers := s.workers[w := Calling(s.cursor)])
      else s.(workers := s.workers[w := Ended])
    case Calling(index) =>
      if index >= |values| then s
      else match f(values[index], index)
        case Ok(value) => s.(results := s.results[index := Some(value)], workers := s.workers[w := Looking])
        case Err(e) =>
          s.(workers := s.workers[w := Failed(index)], rejected := if s.rejected.None? then Some(e) else s.rejected)
  }

  // ---------------------------------------------------------------- what every interleaving keeps

  /** The index a worker has claimed and not delivered. */
  function Held(worker: Worker): int {
    match worker
    case Calling(index) => index
    case Failed(at) => at
    case _ => -1
  }

  ghost predicate Claimed<U, E>(s: State<U, E>, index: int) {
    exists w :: 0 <= w < |s.workers| && Held(s.workers[w]) == index
  }

  /** Every index below the cursor was claimed once and is either done or with one worker; none above it was. */
  ghost predicate Kept<T, U, E>(values: seq<T>, f: (T, nat) -> Outcome<U, E>, s: State<U, E>) {
    && |s.results| == |values| && s.cursor <= |values|
    && (forall w :: 0 <= w < |s.workers| && Held(s.workers[w]) != -1 ==>
        Held(s.workers[w]) < s.cursor && s.results[Held(s.workers[w])].None?)
    && (forall v, w :: 0 <= v < w < |s.workers| && Held(s.workers[v]) != -1 ==>
        Held(s.workers[w]) != Held(s.workers[v]))
    && (forall i :: 0 <= i < |values| && s.results[i].Some? ==>
        i < s.cursor && f(values[i], i) == Ok(s.results[i].value))
    && (forall i :: 0 <= i < s.cursor && s.results[i].None? ==> Claimed(s, i))
    && (forall w :: 0 <= w < |s.workers| && s.workers[w].Failed? ==> s.rejected.Some?)
    && (forall w :: 0 <= w < |s.workers| && s.workers[w].Ended? ==> s.cursor == |values|)
    && (s.rejected.Some? ==> exists i :: 0 <= i < |values| && f(values[i], i) == Err(s.rejected.value))
  }

  lemma ClaimKeeps<T, U, E>(values: seq<T>, f: (T, nat) -> Outcome<U, E>, s: State<U, E>, w: nat, s': State<U, E>)
    requires Kept(values, f, s) && w < |s.workers| && s.workers[w].Looking? && s.cursor < |values|
    requires s' == s.(cursor := s.cursor + 1, workers := s.workers[w := Calling(s.cursor)])
    ensures Kept(values, f, s')
  {
    assert Held(s'.workers[w]) == s.cursor;
    OthersClaimed(s, s', w, -1);
  }

  lemma OthersClaimed<U, E>(s: State<U, E>, s': State<U, E>, w: nat, index: int)
    requires w < |s.workers| == |s'.workers|
    requires forall v :: 0 <= v < |s.workers| && v != w ==> s'.workers[v] == s.workers[v]
    requires Held(s.workers[w]) == index
    ensures forall i :: Claimed(s, i) && i != index ==> Claimed(s', i)
  {
    forall i | Claimed(s, i) && i != index ensures Claimed(s', i) {
      var v :| 0 <= v < |s.workers| && Held(s.workers[v]) == i;
      assert Held(s'.workers[v]) == i;
    }
  }

  lemma EndKeeps<T, U, E>(values: seq<T>, f: (T, nat) -> Outcome<U, E>, s: State<U, E>, w: nat, s': State<U, E>)
    requires Kept(values, f, s) && w < |s.workers| && s.workers[w].Looking? && s.cursor == |values|
    requires s' == s.(workers := s.workers[w := Ended])
    ensures Kept(values, f, s')
  {
    OthersClaimed(s, s', w, -1);
  }

  lemma SettleKeeps<T, U, E>(values: seq<T>, f: (T, nat) -> Outcome<U, E>, s: State<U, E>, w: nat, index: nat, value: U,
                             s': State<U, E>)
    requires Kept(values, f, s) && w < |s.workers| && s.workers[w] == Calling(index) && index < |values|
    requires f(values[index], index) == Ok(value)
    requires s' == s.(results := s.results[index := Some(value)], workers := s.workers[w := Looking])
    ensures Kept(values, f, s')
  {
    OthersClaimed(s, s', w, index);
  }

  lemma FailureKeeps<T, U, E>(values: seq<T>, f: (T, nat) -> Outcome<U, E>, s: State<U, E>, w: nat, index: nat, e: E,
                              s': State<U, E>)
    requires Kept(values, f, s) && w < |s.workers| && s.workers[w] == Calling(index) && index < |values|
    requires f(values[index], index) == Err(e)
    requires s' == s.(workers := s.workers[w := Failed(index)],
                      rejected := if s.rejected.None? then Some(e) else s.rejected)
    ensures Kept(values, f, s')
  {
    assert Held(s'.workers[w]) == index;
    OthersClaimed(s, s', w, index);
  }

  lemma StepKeeps<T, U, E>(values: seq<T>, f: (T, nat) -> Outcome<U, E>, s: State<U, E>, w: nat)
    requires Kept(values, f, s) && Enabled(s, w)
    ensures Kept(values, f, Step(values, f, s, w)) && |Step(values, f, s, w).workers| == |s.workers|
  {
    var s' := Step(values, f, s, w);
    match s.workers[w] {
      case Looking =>
        if s.cursor < |values| { ClaimKeeps(values, f, s, w, s'); } else { EndKeeps(values, f, s, w, s'); }
      case Calling(index) =>
        assert Held(s.workers[w]) == index;
        match f(values[index], index) {
          case Ok(value) => SettleKeeps(values, f, s, w, index, value, s');
          case Err(e) => FailureKeeps(values, f, s, w, index, e, s');
        }
    }
  }

  // ---------------------------------------------------------------- every run ends

  function Weight(worker: Worker): nat {
    match worker case Looking => 1 case Calling(_) => 2 case _ => 0
  }

  function Weights(workers: seq<Worker>): nat {
    if workers == [] then 0 else Weights(workers[..|workers| - 1]) + Weight(workers[|workers| - 1])
  }

  lemma {:induction false} WeightsUpdate(workers: seq<Worker>, w: nat, next: Worker)
    requires w < |workers|
    ensures Weights(workers[w := next]) == Weights(workers) - Weight(workers[w]) + Weight(next)
  {
    var n, after := |workers| - 1, workers[w := next];
    if w < n {
      WeightsUpdate(workers[..n], w, next);
      assert after[..n] == workers[..n][w := next];
    } else {
      assert after[..n] == workers[..n];
    }
  }

  function Left<T, U, E>(values: seq<T>, s: State<U, E>): nat
    requires s.cursor <= |values|
  {
    2 * (|values| - s.cursor) + Weights(s.workers)
  }

  /** Each step brings the end one nearer, two when a call fails. */
  lemma StepCounts<T, U, E>(values: seq<T>, f: (T, nat) -> Outcome<U, E>, s: State<U, E>, w: nat)
    requires Kept(values, f, s) && Enabled(s, w)
    ensures var s' := Step(values, f, s, w);
            s'.cursor <= |values| && Left(values, s') == Left(values, s) - if s'.workers[w].Failed? then 2 else 1
  {
    var s' := Step(values, f, s, w);
    if s.workers[w].Calling? { assert Held(s.workers[w]) == s.workers[w].index; }
    WeightsUpdate(s.workers, w, s'.workers[w]);
  }

  // ---------------------------------------------------------------- and ends in the plain map

  ghost predicate AllEnded<U, E>(s: State<U, E>) {
    forall w :: 0 <= w < |s.workers| ==> s.workers[w].Ended?
  }

  ghost predicate Mapped<T, U, E>(values: seq<T>, f: (T, nat) -> Outcome<U, E>, results: seq<Option<U>>) {
    |results| == |values| && forall i :: 0 <= i < |values| ==>
      results[i].Some? && f(values[i], i) == Ok(results[i].value)
  }

  /** Once every worker has ended, and there was one, the results are the plain map, whatever the interleaving. */
  lemma EndedIsMapped<T, U, E>(values: seq<T>, f: (T, nat) -> Outcome<U, E>, s: State<U, E>)
    requires Kept(values, f, s) && AllEnded(s) && |s.workers| > 0
    ensures Mapped(values, f, s.results)
  {
    assert s.workers[0].Ended?;
    forall i | 0 <= i < |values| ensures s.results[i].Some? { assert !Claimed(s, i); }
  }

  lemma StartKept<T, U, E>(values: seq<T>, f: (T, nat) -> Outcome<U, E>, concurrency: int)
    ensures Kept(values, f, Start(|values|, concurrency))
  {}

  // ---------------------------------------------------------------- whole runs

  predicate IsRun<T, U, E>(values: seq<T>, f: (T, nat) -> Outcome<U, E>, s: State<U, E>, schedule: seq<nat>)
    requires |s.results| == |values|
    decreases |schedule|
  {
    schedule == [] || (Enabled(s, schedule[0]) && IsRun(values, f, Step(values, f, s, schedule[0]), schedule[1..]))
  }

  function Run<T, U, E>(values: seq<T>, f: (T, nat) -> Outcome<U, E>, s: State<U, E>, schedule: seq<nat>): State<U, E>
    requires |s.results| == |values| && IsRun(values, f, s, schedule)
    decreases |schedule|
  {
    if schedule == [] then s else Run(values, f, Step(values, f, s, schedule[0]), schedule[1..])
  }

  lemma {:induction false} RunKeeps<T, U, E>(values: seq<T>, f: (T, nat) -> Outcome<U, E>, s: State<U, E>,
                                             schedule: seq<nat>)
    requires Kept(values, f, s) && IsRun(values, f, s, schedule)
    ensures var end := Run(values, f, s, schedule);
            Kept(values, f, end) && |end.workers| == |s.workers| && |schedule| + Left(values, end) <= Left(values, s)
    decreases |schedule|
  {
    if schedule != [] {
      StepKeeps(values, f, s, schedule[0]);
      StepCounts(values, f, s, schedule[0]);
      RunKeeps(values, f, Step(values, f, s, schedule[0]), schedule[1..]);
    }
  }

  lemma {:induction false} LookingWeights(k: nat)
    ensures Weights(seq(k, _ => Looking)) == k
  {
    var workers := seq(k, _ => Looking);
    if k > 0 {
      LookingWeights(k - 1);
      assert workers[..k - 1] == seq(k - 1, _ => Looking);
    }
  }

  /**
   * For every interleaving: at most `concurrency` calls are under way, the run has at most two steps a value and
   * one a worker, and when all workers have ended the result is the plain map, exactly when at least one
   * worker was allowed or there was nothing to do.
   */
  lemma ScheduleIndependence<T, U, E>(values: seq<T>, f: (T, nat) -> Outcome<U, E>, concurrency: int,
                                      schedule: seq<nat>)
    requires IsRun(values, f, Start(|values|, concurrency), schedule)
    ensures var end := Run(values, f, Start(|values|, concurrency), schedule);
            && |end.workers| == Min(concurrency, |values|)
            && |schedule| <= 2 * |values| + Min(concurrency, |values|)
            && (AllEnded(end) ==> (Mapped(values, f, end.results) <==> concurrency >= 1 || values == []))
  {
    var start := Start(|values|, concurrency);
    var end := Run(values, f, start, schedule);
    StartKept(values, f, concurrency);
    RunKeeps(values, f, start, schedule);
    LookingWeights(Min(concurrency, |values|));
    if AllEnded(end) && |end.workers| > 0 { EndedIsMapped(values, f, end); }
    if Min(concurrency, |values|) == 0 {
      assert schedule == [] && end == start;
      assert values != [] ==> end.results[0].None?;
    }
  }

  /** A call that does not fail is never rejected; a rejection carries an error of one of the calls. */
  lemma RejectedByACall<T, U, E>(values: seq<T>, f: (T, nat) -> Outcome<U, E>, concurrency: int, schedule: seq<nat>)
    requires IsRun(values, f, Start(|values|, concurrency), schedule)
    ensures var end := Run(values, f, Start(|values|, concurrency), schedule);
            end.rejected.Some? ==> exists i :: 0 <= i < |values| && f(values[i], i) == Err(end.rejected.value)
  {
    StartKept(values, f, concurrency);
    RunKeeps(values, f, Start(|values|, concurrency), schedule);
  }

  /** Each worker has ended or its call has failed; if no call fails, each has ended. */
  ghost predicate AtEnd<T, U, E>(values: seq<T>, f: (T, nat) -> Outcome<U, E>, s: State<U, E>) {
    && (forall w :: 0 <= w < |s.workers| ==> s.workers[w].Ended? || s.workers[w].Failed?)
    && ((forall i :: 0 <= i < |values| ==> f(values[i], i).Ok?) ==> AllEnded(s))
  }

  /** From whatever point the workers can always go on to the end. */
  lemma {:induction false} GoesToTheEnd<T, U, E>(values: seq<T>, f: (T, nat) -> Outcome<U, E>, s: State<U, E>)
    returns (schedule: seq<nat>)
    requires Kept(values, f, s)
    ensures IsRun(values, f, s, schedule)
    ensures AtEnd(values, f, Run(values, f, s, schedule))
    decreases Left(values, s)
  {
    if w: nat :| w < |s.workers| && (s.workers[w].Looking? || s.workers[w].Calling?) {
      StepKeeps(values, f, s, w);
      StepCounts(values, f, s, w);
      var next := Step(values, f, s, w);
      var rest := GoesToTheEnd(values, f, next);
      schedule := [w] + rest;
      RunFirst(values, f, s, w, rest);
    } else {
      schedule := [];
      StoppedIsEnded(values, f, s);
    }
  }

  lemma RunFirst<T, U, E>(values: seq<T>, f: (T, nat) -> Outcome<U, E>, s: State<U, E>, w: nat, rest: seq<nat>)
    requires |s.results| == |values| && Enabled(s, w) && |Step(values, f, s, w).results| == |values|
    requires IsRun(values, f, Step(values, f, s, w), rest)
    ensures IsRun(values, f, s, [w] + rest)
    ensures Run(values, f, s, [w] + rest) == Run(values, f, Step(values, f, s, w), rest)
  {
    assert ([w] + rest)[1..] == rest;
  }

  lemma StoppedIsEnded<T, U, E>(values: seq<T>, f: (T, nat) -> Outcome<U, E>, s: State<U, E>)
    requires Kept(values, f, s)
    requires !exists w: nat :: w < |s.workers| && (s.workers[w].Looking? || s.workers[w].Calling?)
    ensures AtEnd(values, f, s)
  {
    forall w: nat | w < |s.workers| ensures s.workers[w].Ended? || s.workers[w].Failed? {}
  }

  // ---------------------------------------------------------------- the scheduler

  class Mapping<T, U, E> {
    const values: seq<T>
    var cursor: nat
    var workers: seq<Worker>
    var results: seq<Option<U>>
    var rejected: Option<E>

    function Now(): State<U, E>
      reads this
    {
      State(cursor, workers, results, rejected)
    }

    constructor (values: seq<T>, concurrency: int)
      ensures this.values == values && Now() == Start(|values|, concurrency)
    {
      this.values := values;
      cursor, workers := 0, seq(Min(concurrency, |values|), _ => Looking);
      results, rejected := seq(|values|, _ => None), None;
    }

    /** A worker runs until its next await. */
    method Continue(f: (T, nat) -> Outcome<U, E>, w: nat)
      requires Kept(values, f, Now()) && Enabled(Now(), w)
      modifies this
      ensures Now() == Step(values, f, old(Now()), w)
    {
      if workers[w].Calling? {
        var index := workers[w].index;
        assert Held(Now().workers[w]) == index;
        match f(values[index], index) {
          case Ok(value) => results, workers := results[index := Some(value)], workers[w := Looking];
          case Err(e) =>
            workers := workers[w := Failed(index)];
            if rejected.None? { rejected := Some(e); }
        }
      } else if cursor < |values| {
        workers := workers[w := Calling(cursor)];
        cursor := cursor + 1;
      } else {
        workers := workers[w := Ended];
      }
    }
  }

  /** Any worker that can may go on, until none can: the results are the plain map or the call is rejected. */
  method MapAll<T, U, E>(values: seq<T>, concurrency: int, f: (T, nat) -> Outcome<U, E>)
    returns (results: seq<Option<U>>, rejected: Option<E>)
    ensures rejected.None? && concurrency >= 1 ==> Mapped(values, f, results)
    ensures rejected.Some? ==> exists i :: 0 <= i < |values| && f(values[i], i) == Err(rejected.value)
  {
    var mapping := new Mapping<T, U, E>(values, concurrency);
    StartKept(values, f, concurrency);
    while exists w :: 0 <= w < |mapping.workers| && Enabled(mapping.Now(), w)
      invariant Kept(values, f, mapping.Now()) && mapping.values == values
      invariant |mapping.workers| == Min(concurrency, |values|)
      decreases Left(values, mapping.Now())
    {
      var w :| 0 <= w < |mapping.workers| && Enabled(mapping.Now(), w);
      StepKeeps(values, f, mapping.Now(), w);
      StepCounts(values, f, mapping.Now(), w);
      mapping.Continue(f, w);
    }
    results, rejected := mapping.results, mapping.rejected;
    if rejected.None? && |mapping.workers| > 0 {
      forall w | 0 <= w < |mapping.workers| ensures mapping.workers[w].Ended? { assert !Enabled(mapping.Now(), w); }
      EndedIsMapped(values, f, mapping.Now());
    }
  }
}
