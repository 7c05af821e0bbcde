/**
 * The per-binding circuit breaker of src/sync/breaker.ts.
 *
 * The breaker is lazy: an open entry becomes half-open only when somebody asks. What it
 * answers is proved to depend on the recorded outcomes alone, through a definition of
 * "opening" that mentions neither states nor counters.
 */
module Breaker {
  import opened Options

  const FAILURE_THRESHOLD: nat := 5
  const OPEN_DURATION_MS: int := 15 * 60 * 1000

  datatype Mode = Closed | Open | HalfOpen

  datatype Entry = Entry(mode: Mode, failures: nat, openedAt: Option<int>)

  /** A call, with the readings of the clock it makes; `stamp` is the second reading of a failure. */
  datatype Op =
    | Query(binding: string, now: int)
    | Success(binding: string, now: int)
    | Failure(binding: string, now: int, stamp: int)

  function End(op: Op): int {
    if op.Failure? then op.stamp else op.now
  }

  /** The clock never runs backwards. */
  ghost predicate Monotone(ops: seq<Op>) {
    && (forall i :: 0 <= i < |ops| ==> ops[i].now <= End(ops[i]))
    && (forall i, j :: 0 <= i < j < |ops| ==> End(ops[i]) <= ops[j].now)
  }

  ghost predicate NotBefore(ops: seq<Op>, now: int) {
    forall i :: 0 <= i < |ops| ==> End(ops[i]) <= now
  }

  // ---------------------------------------------------------------------------
  // The lazy machine
  // ---------------------------------------------------------------------------

  function Get(entries: map<string, Entry>, binding: string): Entry {
    if binding in entries then entries[binding] else Entry(Closed, 0, None)
  }

  function Refresh(e: Entry, now: int): Entry {
    if e.mode == Open && e.openedAt.Some? && now - e.openedAt.value >= OPEN_DURATION_MS
    then e.(mode := HalfOpen) else e
  }

  function After(e: Entry, op: Op): Entry {
    var r := Refresh(e, op.now);
    match op
    case Query(_, _) => r
    case Success(_, _) => Entry(Closed, 0, None)
    case Failure(_, _, stamp) =>
      if r.mode == HalfOpen then Entry(Open, FAILURE_THRESHOLD, Some(stamp))
      else if r.mode == Open then r
      else if r.failures + 1 >= FAILURE_THRESHOLD then Entry(Open, r.failures + 1, Some(stamp))
      else r.(failures := r.failures + 1)
  }

  function Run(ops: seq<Op>): map<string, Entry> {
    if ops == [] then map[]
    else
      var last := ops[|ops| - 1];
      var before := Run(ops[..|ops| - 1]);
      before[last.binding := After(Get(before, last.binding), last)]
  }

  // ---------------------------------------------------------------------------
  // What the breaker means, in terms of outcomes only
  // ---------------------------------------------------------------------------

  /** The outcomes recorded for one binding. */
  function Outcomes(ops: seq<Op>, binding: string): seq<Op> {
    if ops == [] then []
    else
      var last := ops[|ops| - 1];
      var before := Outcomes(ops[..|ops| - 1], binding);
      if last.binding == binding && !last.Query? then before + [last] else before
  }

  /** The number of failures recorded at the end of h[..n] with no success among them. */
  function Streak(h: seq<Op>, n: nat): nat
    requires n <= |h|
  {
    if n == 0 || h[n - 1].Success? then 0
    else Streak(h, n - 1) + if h[n - 1].Failure? then 1 else 0
  }

  ghost predicate NoSuccess(h: seq<Op>, lo: int, hi: int)
    requires 0 <= lo && hi <= |h|
  {
    forall k :: lo <= k < hi ==> !h[k].Success?
  }

  /**
   * A failure opens the breaker when it is at least the fifth in a row and no earlier
   * opening of that row is less than fifteen minutes old.
   */
  ghost predicate Opening(h: seq<Op>, i: nat)
    requires i < |h|
    decreases i
  {
    && h[i].Failure?
    && Streak(h, i + 1) >= 5
    && forall j :: 0 <= j < i && NoSuccess(h, j, i) && Opening(h, j) ==>
         h[i].now - h[j].stamp >= 15 * 60 * 1000
  }

  /** An opening less than fifteen minutes old, with no success since. */
  ghost predicate InForce(h: seq<Op>, now: int) {
    exists i :: 0 <= i < |h| && Opening(h, i) && NoSuccess(h, i, |h|) && now - h[i].stamp < 15 * 60 * 1000
  }

  // ---------------------------------------------------------------------------
  // The two-field machine in between
  // ---------------------------------------------------------------------------

  datatype Pure = Pure(failures: nat, openedAt: Option<int>)

  function PureStep(p: Pure, op: Op): Pure {
    match op
    case Query(_, _) => p
    case Success(_, _) => Pure(0, None)
    case Failure(_, now, stamp) =>
      if p.openedAt.Some? then
        if now - p.openedAt.value >= OPEN_DURATION_MS then Pure(FAILURE_THRESHOLD, Some(stamp)) else p
      else if p.failures + 1 >= FAILURE_THRESHOLD then Pure(p.failures + 1, Some(stamp))
      else Pure(p.failures + 1, None)
  }

  function Fold(h: seq<Op>): Pure {
    if h == [] then Pure(0, None) else PureStep(Fold(h[..|h| - 1]), h[|h| - 1])
  }

  predicate PureOpen(p: Pure, now: int) {
    p.openedAt.Some? && now - p.openedAt.value < OPEN_DURATION_MS
  }

  predicate Agrees(e: Entry, p: Pure) {
    && e.failures == p.failures && e.openedAt == p.openedAt
    && (e.mode == Closed <==> e.openedAt == None)
  }

  /** Half-open is only ever remembered once the fifteen minutes are over. */
  ghost predicate Represents(e: Entry, p: Pure, ops: seq<Op>) {
    && Agrees(e, p)
    && (e.mode == HalfOpen ==>
          exists i :: 0 <= i < |ops| && ops[i].now - e.openedAt.value >= OPEN_DURATION_MS)
  }

  lemma StepRefines(e: Entry, p: Pure, op: Op)
    requires Agrees(e, p)
    requires e.mode == HalfOpen ==> op.now - e.openedAt.value >= OPEN_DURATION_MS
    ensures Agrees(After(e, op), if op.Query? then p else PureStep(p, op))
    ensures After(e, op).mode == HalfOpen ==> op.now - After(e, op).openedAt.value >= OPEN_DURATION_MS
  {
  }

  /** A remembered half-open is known to later calls. */
  lemma HalfOpenStays(ops: seq<Op>, e: Entry, p: Pure)
    requires |ops| > 0 && Monotone(ops) && Represents(e, p, ops[..|ops| - 1])
    ensures Represents(e, p, ops)
    ensures e.mode == HalfOpen ==> ops[|ops| - 1].now - e.openedAt.value >= OPEN_DURATION_MS
  {
    var before, last := ops[..|ops| - 1], ops[|ops| - 1];
    if e.mode == HalfOpen {
      var i :| 0 <= i < |before| && before[i].now - e.openedAt.value >= OPEN_DURATION_MS;
      assert ops[i].now - e.openedAt.value >= OPEN_DURATION_MS;
      assert ops[i].now <= End(ops[i]) <= last.now;
    }
  }

  /** The lazy machine refines the two-field machine fed with the outcomes alone. */
  lemma {:induction false} LazyRefinesPure(ops: seq<Op>, binding: string)
    requires Monotone(ops)
    ensures Represents(Get(Run(ops), binding), Fold(Outcomes(ops, binding)), ops)
  {
    if ops != [] {
      hide After, PureStep;
      var before, last := ops[..|ops| - 1], ops[|ops| - 1];
      LazyRefinesPure(before, binding);
      var e, h := Get(Run(before), binding), Outcomes(before, binding);
      HalfOpenStays(ops, e, Fold(h));
      if last.binding == binding {
        StepRefines(e, Fold(h), last);
        FoldNext(h, last);
      }
    }
  }

  lemma FoldNext(h: seq<Op>, op: Op)
    ensures Fold(h + [op]) == PureStep(Fold(h), op)
  {
    assert (h + [op])[..|h|] == h;
  }

  ghost predicate FoldMeans(h: seq<Op>, n: nat)
    requires n <= |h|
  {
    var p := Fold(h[..n]);
    match p.openedAt
    case None => p.failures == Streak(h, n) < FAILURE_THRESHOLD
    case Some(t) =>
      && Streak(h, n) >= FAILURE_THRESHOLD
      && exists i :: 0 <= i < n && LastOpening(h, i, n) && h[i].stamp == t
  }

  ghost predicate LastOpening(h: seq<Op>, i: nat, n: nat)
    requires i < n <= |h|
  {
    Opening(h, i) && NoSuccess(h, i, n) && forall j :: i < j < n ==> !Opening(h, j)
  }

  lemma {:induction false} StreakBroken(h: seq<Op>, i: nat, n: nat)
    requires i < n <= |h|
    requires Opening(h, i) && NoSuccess(h, i, n)
    ensures Streak(h, n) >= FAILURE_THRESHOLD
    decreases n
  {
    if i + 1 < n { StreakBroken(h, i, n - 1); }
  }

  lemma EarlierIsOlder(h: seq<Op>, j: nat, i: nat)
    requires j <= i < |h| && Monotone(h) && h[j].Failure? && h[i].Failure?
    ensures h[j].stamp <= h[i].stamp
  {
    if j < i { assert End(h[j]) <= h[i].now <= End(h[i]); }
  }

  /** A failure after the window of the last opening is an opening, a failure within it is not. */
  lemma Reopens(h: seq<Op>, i: nat, n: nat)
    requires i < n < |h| && Monotone(h)
    requires LastOpening(h, i, n) && h[n].Failure?
    ensures Opening(h, n) <==> h[n].now - h[i].stamp >= OPEN_DURATION_MS
  {
    StreakBroken(h, i, n);
    assert NoSuccess(h, i, n);
    hide Monotone, Streak, NoSuccess;
    forall j | 0 <= j < n && Opening(h, j)
      ensures j <= i && h[j].stamp <= h[i].stamp
    {
      EarlierIsOlder(h, j, i);
    }
  }

  lemma FifthOpens(h: seq<Op>, n: nat)
    requires n < |h| && h[n].Failure? && Streak(h, n) == FAILURE_THRESHOLD - 1
    ensures LastOpening(h, n, n + 1)
  {
    forall j | 0 <= j < n && NoSuccess(h, j, n) ensures !Opening(h, j) {
      if Opening(h, j) { StreakBroken(h, j, n); }
    }
  }

  /** The last opening after one more outcome that is not a success. */
  lemma LastOpeningNext(h: seq<Op>, i: nat, n: nat)
    requires i < n < |h| && !h[n].Success? && Monotone(h)
    requires LastOpening(h, i, n)
    ensures
      if h[n].Failure? && h[n].now - h[i].stamp >= OPEN_DURATION_MS
      then LastOpening(h, n, n + 1) else LastOpening(h, i, n + 1)
  {
    if h[n].Failure? { Reopens(h, i, n); }
  }

  lemma {:induction false} FoldFindsLastOpening(h: seq<Op>, n: nat)
    requires n <= |h| && Monotone(h)
    ensures FoldMeans(h, n)
  {
    if n > 0 {
      hide Monotone, Opening, LastOpening;
      FoldFindsLastOpening(h, n - 1);
      assert h[..n][..n - 1] == h[..n - 1];
      var p, op := Fold(h[..n - 1]), h[n - 1];
      assert Fold(h[..n]) == PureStep(p, op);
      if p.openedAt.Some? && !op.Success? {
        var i :| 0 <= i < n - 1 && LastOpening(h, i, n - 1) && h[i].stamp == p.openedAt.value;
        LastOpeningNext(h, i, n - 1);
      } else if op.Failure? && Streak(h, n - 1) == FAILURE_THRESHOLD - 1 {
        FifthOpens(h, n - 1);
      }
    }
  }

  lemma {:induction false} OutcomesMonotone(ops: seq<Op>, binding: string)
    requires Monotone(ops)
    ensures Monotone(Outcomes(ops, binding))
    ensures forall now :: NotBefore(ops, now) ==> NotBefore(Outcomes(ops, binding), now)
  {
    if ops != [] {
      var n := |ops| - 1;
      OutcomesMonotone(ops[..n], binding);
      assert NotBefore(ops[..n], ops[n].now);
      forall now | NotBefore(ops, now) ensures NotBefore(Outcomes(ops, binding), now) {
        assert NotBefore(ops[..n], now);
      }
    }
  }

  /** The last opening of a row is the youngest one. */
  lemma LastIsYoungest(h: seq<Op>, i: nat, last: nat)
    requires Monotone(h) && i < |h| && last < |h|
    requires Opening(h, i) && LastOpening(h, last, |h|)
    ensures h[i].stamp <= h[last].stamp
  {
    hide Monotone, Streak, NoSuccess;
    EarlierIsOlder(h, i, last);
  }

  lemma PureOpenExactly(h: seq<Op>, now: int)
    requires Monotone(h)
    ensures PureOpen(Fold(h), now) <==> InForce(h, now)
  {
    hide Monotone, Fold, Streak, NoSuccess;
    FoldFindsLastOpening(h, |h|);
    assert h[..|h|] == h;
    if InForce(h, now) {
      var i :| 0 <= i < |h| && Opening(h, i) && NoSuccess(h, i, |h|) && now - h[i].stamp < OPEN_DURATION_MS;
      StreakBroken(h, i, |h|);
      var last :| 0 <= last < |h| && LastOpening(h, last, |h|) && h[last].stamp == Fold(h).openedAt.value;
      LastIsYoungest(h, i, last);
    }
  }

  /** `isOpen` holds exactly when an opening is in force. */
  lemma OpenExactly(ops: seq<Op>, binding: string, now: int)
    requires Monotone(ops) && NotBefore(ops, now)
    ensures Refresh(Get(Run(ops), binding), now).mode == Open <==> InForce(Outcomes(ops, binding), now)
  {
    LazyRefinesPure(ops, binding);
    OutcomesMonotone(ops, binding);
    PureOpenExactly(Outcomes(ops, binding), now);
    var e := Get(Run(ops), binding);
    if e.mode == HalfOpen {
      var i :| 0 <= i < |ops| && ops[i].now - e.openedAt.value >= OPEN_DURATION_MS;
      assert ops[i].now <= End(ops[i]) <= now;
    }
  }

  /** Two histories with the same outcomes for a binding get the same answers, whatever else was called. */
  lemma QueriesUnobservable(a: seq<Op>, b: seq<Op>, binding: string, now: int)
    requires Monotone(a) && NotBefore(a, now) && Monotone(b) && NotBefore(b, now)
    requires Outcomes(a, binding) == Outcomes(b, binding)
    ensures Refresh(Get(Run(a), binding), now).mode == Refresh(Get(Run(b), binding), now).mode
  {
    OpenExactly(a, binding, now);
    OpenExactly(b, binding, now);
    LazyRefinesPure(a, binding);
    LazyRefinesPure(b, binding);
  }

  /** A failure recorded while the breaker is open leaves no trace. */
  lemma {:induction false} OpenFailureLeavesNoTrace(h: seq<Op>, failure: Op, later: seq<Op>)
    requires failure.Failure? && Monotone(h) && InForce(h, failure.now)
    ensures Fold(h + [failure] + later) == Fold(h + later)
    decreases |later|
  {
    if later == [] {
      assert (h + [failure])[..|h|] == h;
      assert h + [failure] + later == h + [failure] && h + later == h;
      PureOpenExactly(h, failure.now);
    } else {
      var n := |later| - 1;
      OpenFailureLeavesNoTrace(h, failure, later[..n]);
      assert (h + [failure] + later)[..|h| + 1 + n] == h + [failure] + later[..n];
      assert (h + later)[..|h| + n] == h + later[..n];
    }
  }

  lemma HistoryNext(ops: seq<Op>, op: Op)
    requires Monotone(ops) && NotBefore(ops, op.now) && op.now <= End(op)
    ensures Monotone(ops + [op])
    ensures Run(ops + [op]) == Run(ops)[op.binding := After(Get(Run(ops), op.binding), op)]
  {
    hide After;
    assert (ops + [op])[..|ops|] == ops;
  }

  // ---------------------------------------------------------------------------
  // The breaker as the object it is
  // ---------------------------------------------------------------------------

  class InMemoryBindingBreaker {
    var entries: map<string, Entry>
    ghost var history: seq<Op>

    ghost predicate Valid()
      reads this
    {
      Monotone(history) && entries == Run(history)
    }

    constructor ()
      ensures Valid() && history == []
    {
      entries, history := map[], [];
    }

    method GetEntry(binding: string) returns (entry: Entry)
      modifies this`entries
      ensures entry == Get(old(entries), binding)
      ensures entries == old(entries)[binding := entry]
    {
      if binding !in entries { entries := entries[binding := Entry(Closed, 0, None)]; }
      entry := entries[binding];
    }

    method RefreshEntry(binding: string, now: int) returns (entry: Entry)
      modifies this`entries
      ensures entry == Refresh(Get(old(entries), binding), now)
      ensures entries == old(entries)[binding := entry]
    {
      entry := GetEntry(binding);
      if entry.mode == Open && entry.openedAt != None {
        if now - entry.openedAt.value >= OPEN_DURATION_MS {
          entry := entry.(mode := HalfOpen);
          entries := entries[binding := entry];
        }
      }
    }

    ghost method Log(op: Op)
      requires Monotone(history) && NotBefore(history, op.now) && op.now <= End(op)
      requires entries == Run(history)[op.binding := After(Get(Run(history), op.binding), op)]
      modifies this`history
      ensures Valid() && history == old(history) + [op]
    {
      hide Run, After, Get, Monotone, NotBefore;
      HistoryNext(history, op);
      history := history + [op];
    }

    method GetState(binding: string, now: int) returns (mode: Mode)
      requires Valid() && NotBefore(history, now)
      modifies this
      ensures Valid() && history == old(history) + [Query(binding, now)]
      ensures mode == Open <==> InForce(Outcomes(old(history), binding), now)
      ensures mode == Closed <==> Fold(Outcomes(old(history), binding)).openedAt == None
    {
      OpenExactly(history, binding, now);
      LazyRefinesPure(history, binding);
      var entry := RefreshEntry(binding, now);
      mode := entry.mode;
      Log(Query(binding, now));
    }

    method IsOpen(binding: string, now: int) returns (open: bool)
      requires Valid() && NotBefore(history, now)
      modifies this
      ensures Valid() && history == old(history) + [Query(binding, now)]
      ensures open <==> InForce(Outcomes(old(history), binding), now)
    {
      var mode := GetState(binding, now);
      open := mode == Open;
    }

    method RecordSuccess(binding: string, now: int)
      requires Valid() && NotBefore(history, now)
      modifies this
      ensures Valid() && history == old(history) + [Success(binding, now)]
    {
      var entry := RefreshEntry(binding, now);
      entry := entry.(failures := 0);
      entry := entry.(mode := Closed);
      entry := entry.(openedAt := None);
      entries := entries[binding := entry];
      Log(Success(binding, now));
    }

    method RecordFailure(binding: string, now: int, stamp: int)
      requires Valid() && NotBefore(history, now) && now <= stamp
      modifies this
      ensures Valid() && history == old(history) + [Failure(binding, now, stamp)]
    {
      var entry := RefreshEntry(binding, now);
      if entry.mode == HalfOpen {
        entry := Entry(Open, FAILURE_THRESHOLD, Some(stamp));
      } else if entry.mode == Closed {
        entry := entry.(failures := entry.failures + 1);
        if entry.failures >= FAILURE_THRESHOLD {
          entry := Entry(Open, entry.failures, Some(stamp));
        }
      }
      entries := entries[binding := entry];
      Log(Failure(binding, now, stamp));
    }
  }
}
