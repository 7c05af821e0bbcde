/**
 * The token-bucket limiter of src/http/rate-limit.ts: reals for tokens, whole milliseconds
 * for the clock. Buckets untouched for more than five minutes are pruned at arbitrary times.
 */
module RateLimit {

  const PRUNE_AFTER_MS: int := 5 * 60 * 1000

  datatype Config = Config(capacity: real, refillPerSecond: real)

  datatype Bucket = Bucket(tokens: real, lastRefill: int)

  datatype Slot = Empty | Held(bucket: Bucket)

  datatype Op = Request(key: string, now: int) | Prune(now: int)

  ghost predicate Monotone(ops: seq<Op>) {
    forall i, j :: 0 <= i < j < |ops| ==> ops[i].now <= ops[j].now
  }

  // ---------------------------------------------------------------------------
  // One bucket
  // ---------------------------------------------------------------------------

  function Accrued(c: Config, ms: int): real {
    ms as real / 1000.0 * c.refillPerSecond
  }

  function Min(a: real, b: real): real {
    if a <= b then a else b
  }

  /** The bucket as a request at `now` finds it. */
  function Refilled(c: Config, slot: Slot, now: int): Bucket {
    match slot
    case Empty => Bucket(c.capacity, now)
    case Held(b) => Bucket(Min(c.capacity, b.tokens + Accrued(c, now - b.lastRefill)), now)
  }

  predicate Admits(c: Config, slot: Slot, now: int) {
    Refilled(c, slot, now).tokens >= 1.0
  }

  function Taken(c: Config, slot: Slot, now: int): Bucket {
    var b := Refilled(c, slot, now);
    if b.tokens < 1.0 then b else b.(tokens := b.tokens - 1.0)
  }

  // ---------------------------------------------------------------------------
  // The limiter, and the limiter without pruning
  // ---------------------------------------------------------------------------

  function At(buckets: map<string, Bucket>, key: string): Slot {
    if key in buckets then Held(buckets[key]) else Empty
  }

  function Pruned(buckets: map<string, Bucket>, now: int): map<string, Bucket> {
    map k | k in buckets && buckets[k].lastRefill >= now - PRUNE_AFTER_MS :: buckets[k]
  }

  function Next(c: Config, buckets: map<string, Bucket>, op: Op): map<string, Bucket> {
    match op
    case Request(key, now) => buckets[key := Taken(c, At(buckets, key), now)]
    case Prune(now) => Pruned(buckets, now)
  }

  function Run(c: Config, ops: seq<Op>): map<string, Bucket> {
    if ops == [] then map[] else Next(c, Run(c, ops[..|ops| - 1]), ops[|ops| - 1])
  }

  /** One key alone, never pruned. */
  function Alone(c: Config, ops: seq<Op>, key: string): Slot {
    if ops == [] then Empty
    else
      var before, last := Alone(c, ops[..|ops| - 1], key), ops[|ops| - 1];
      if last.Request? && last.key == key then Held(Taken(c, before, last.now)) else before
  }

  predicate Admitted(c: Config, ops: seq<Op>, i: nat)
    requires i < |ops|
  {
    ops[i].Request? && Admits(c, At(Run(c, ops[..i]), ops[i].key), ops[i].now)
  }

  predicate AdmittedAlone(c: Config, ops: seq<Op>, i: nat)
    requires i < |ops|
  {
    ops[i].Request? && Admits(c, Alone(c, ops[..i], ops[i].key), ops[i].now)
  }

  /** How many requests of one key among ops[i..j] are admitted. */
  function Admissions(c: Config, ops: seq<Op>, key: string, i: nat, j: nat): nat
    requires i <= j <= |ops|
  {
    if i == j then 0
    else
      Admissions(c, ops, key, i, j - 1)
      + if ops[j - 1].Request? && ops[j - 1].key == key && Admitted(c, ops, j - 1) then 1 else 0
  }

  ghost predicate WellFormed(c: Config) {
    c.capacity >= 0.0 && c.refillPerSecond > 0.0
  }

  /** A bucket that may be pruned has had the time to fill up from nothing. */
  ghost predicate PruneSafe(c: Config) {
    Accrued(c, 300001) >= c.capacity
  }

  // ---------------------------------------------------------------------------
  // Accrual is additive and monotone
  // ---------------------------------------------------------------------------

  lemma AccruedAdds(c: Config, a: int, b: int)
    ensures Accrued(c, a + b) == Accrued(c, a) + Accrued(c, b)
  {
    var r := c.refillPerSecond;
    var x, y := a as real / 1000.0, b as real / 1000.0;
    assert (a + b) as real / 1000.0 == x + y;
    assert (x + y) * r == x * r + y * r;
  }

  lemma AccruedIs(c: Config, ms: int)
    ensures Accrued(c, ms) == ms as real / 1000.0 * c.refillPerSecond
  {
  }

  lemma NothingAccrues(c: Config)
    ensures Accrued(c, 0) == 0.0
  {
  }

  lemma AccruedNonNegative(c: Config, ms: int)
    requires WellFormed(c) && ms >= 0
    ensures Accrued(c, ms) >= 0.0
  {
    assert ms as real / 1000.0 >= 0.0;
  }

  lemma AccruedOrdered(c: Config, a: int, b: int)
    requires WellFormed(c) && a <= b
    ensures Accrued(c, a) <= Accrued(c, b)
  {
    AccruedAdds(c, a, b - a);
    AccruedNonNegative(c, b - a);
  }

  // ---------------------------------------------------------------------------
  // Tokens stay between 0 and the capacity
  // ---------------------------------------------------------------------------

  ghost predicate InRange(c: Config, slot: Slot) {
    slot.Held? ==> 0.0 <= slot.bucket.tokens <= c.capacity
  }

  ghost predicate NotAfter(slot: Slot, now: int) {
    slot.Held? ==> slot.bucket.lastRefill <= now
  }

  lemma TakenInRange(c: Config, slot: Slot, now: int)
    requires WellFormed(c) && InRange(c, slot) && NotAfter(slot, now)
    ensures 0.0 <= Refilled(c, slot, now).tokens <= c.capacity
    ensures InRange(c, Held(Taken(c, slot, now)))
  {
    if slot.Held? { AccruedNonNegative(c, now - slot.bucket.lastRefill); }
  }

  lemma {:induction false} TokensInRange(c: Config, ops: seq<Op>, key: string, now: int)
    requires WellFormed(c) && Monotone(ops) && forall i :: 0 <= i < |ops| ==> ops[i].now <= now
    ensures InRange(c, At(Run(c, ops), key)) && NotAfter(At(Run(c, ops), key), now)
  {
    if ops != [] {
      var last := ops[|ops| - 1];
      TokensInRange(c, ops[..|ops| - 1], key, last.now);
      if last.Request? && last.key == key {
        TakenInRange(c, At(Run(c, ops[..|ops| - 1]), key), last.now);
      }
    }
  }

  lemma {:induction false} AloneInRange(c: Config, ops: seq<Op>, key: string, now: int)
    requires WellFormed(c) && Monotone(ops) && forall i :: 0 <= i < |ops| ==> ops[i].now <= now
    ensures InRange(c, Alone(c, ops, key)) && NotAfter(Alone(c, ops, key), now)
  {
    if ops != [] {
      var last := ops[|ops| - 1];
      AloneInRange(c, ops[..|ops| - 1], key, last.now);
      if last.Request? && last.key == key {
        TakenInRange(c, Alone(c, ops[..|ops| - 1], key), last.now);
      }
    }
  }

  // ---------------------------------------------------------------------------
  // Pruning is unobservable
  // ---------------------------------------------------------------------------

  /** The slots agree, or the pruned one is empty and the other has filled up by `now`. */
  ghost predicate Simulates(c: Config, pruned: Slot, kept: Slot, now: int) {
    || pruned == kept
    || (pruned == Empty && kept.bucket.tokens + Accrued(c, now - kept.bucket.lastRefill) >= c.capacity)
  }

  lemma SimulatesLater(c: Config, pruned: Slot, kept: Slot, now: int, later: int)
    requires WellFormed(c) && now <= later && Simulates(c, pruned, kept, now)
    ensures Simulates(c, pruned, kept, later)
    ensures Refilled(c, pruned, later) == Refilled(c, kept, later)
  {
    if pruned != kept { AccruedOrdered(c, now - kept.bucket.lastRefill, later - kept.bucket.lastRefill); }
  }

  lemma PruneKeepsSimulation(c: Config, buckets: map<string, Bucket>, key: string, kept: Slot, now: int)
    requires WellFormed(c) && PruneSafe(c) && InRange(c, kept)
    requires Simulates(c, At(buckets, key), kept, now)
    ensures Simulates(c, At(Pruned(buckets, now), key), kept, now)
  {
    if key in buckets && buckets[key].lastRefill < now - PRUNE_AFTER_MS {
      AccruedOrdered(c, PRUNE_AFTER_MS + 1, now - buckets[key].lastRefill);
    }
  }

  lemma {:induction false} RunSimulates(c: Config, ops: seq<Op>, key: string, now: int)
    requires WellFormed(c) && PruneSafe(c)
    requires Monotone(ops) && forall i :: 0 <= i < |ops| ==> ops[i].now <= now
    ensures Simulates(c, At(Run(c, ops), key), Alone(c, ops, key), now)
  {
    if ops != [] {
      hide PruneSafe, Simulates, WellFormed;
      var before, last := ops[..|ops| - 1], ops[|ops| - 1];
      RunSimulates(c, before, key, last.now);
      AloneInRange(c, before, key, last.now);
      var pruned, kept := At(Run(c, before), key), Alone(c, before, key);
      SimulatesLater(c, pruned, kept, last.now, last.now);
      if last.Prune? { PruneKeepsSimulation(c, Run(c, before), key, kept, last.now); }
      SimulatesSame(c, Alone(c, ops, key), last.now);
      SimulatesLater(c, At(Run(c, ops), key), Alone(c, ops, key), last.now, now);
    }
  }

  lemma SimulatesSame(c: Config, slot: Slot, now: int)
    ensures Simulates(c, slot, slot, now)
  {
  }

  /** No answer depends on pruning, nor on the requests of other keys. */
  lemma PruningUnobservable(c: Config, ops: seq<Op>, i: nat)
    requires WellFormed(c) && PruneSafe(c) && Monotone(ops) && i < |ops|
    ensures Admitted(c, ops, i) <==> AdmittedAlone(c, ops, i)
  {
    if ops[i].Request? {
      RunSimulates(c, ops[..i], ops[i].key, ops[i].now);
      SimulatesLater(c, At(Run(c, ops[..i]), ops[i].key), Alone(c, ops[..i], ops[i].key), ops[i].now, ops[i].now);
    }
  }

  // ---------------------------------------------------------------------------
  // The window bound
  // ---------------------------------------------------------------------------

  /** What a slot could spend at `now`. */
  function Level(c: Config, slot: Slot, now: int): real {
    Refilled(c, slot, now).tokens
  }

  lemma LevelRises(c: Config, slot: Slot, now: int, later: int)
    requires WellFormed(c) && now <= later && NotAfter(slot, now)
    ensures Level(c, slot, later) <= Level(c, slot, now) + Accrued(c, later - now)
  {
    AccruedNonNegative(c, later - now);
    if slot.Held? { AccruedAdds(c, now - slot.bucket.lastRefill, later - now); }
  }

  lemma LevelSpent(c: Config, slot: Slot, now: int)
    requires WellFormed(c)
    ensures Level(c, Held(Taken(c, slot, now)), now) == Level(c, slot, now) - if Admits(c, slot, now) then 1.0 else 0.0
  {
    assert Accrued(c, 0) == 0.0;
  }

  ghost predicate Unobserved(c: Config, ops: seq<Op>) {
    forall m :: 0 <= m < |ops| ==> (Admitted(c, ops, m) <==> AdmittedAlone(c, ops, m))
  }

  /** Every admission is paid for by the level at the start of the window or by accrual since. */
  lemma {:induction false} Paid(c: Config, ops: seq<Op>, key: string, i: nat, j: nat)
    requires WellFormed(c) && Unobserved(c, ops) && Monotone(ops) && i < j <= |ops|
    ensures Admissions(c, ops, key, i, j) as real + Level(c, Alone(c, ops[..j], key), ops[j - 1].now)
      <= c.capacity + Accrued(c, ops[j - 1].now - ops[i].now)
  {
    hide Accrued, Taken, Refilled, Admits, Run;
    var before, last := Alone(c, ops[..j - 1], key), ops[j - 1];
    assert ops[..j][..j - 1] == ops[..j - 1];
    AloneInRange(c, ops[..j - 1], key, last.now);
    TakenInRange(c, before, last.now);
    assert Admitted(c, ops, j - 1) <==> AdmittedAlone(c, ops, j - 1);
    LevelSpent(c, before, last.now);
    NothingAccrues(c);
    if i < j - 1 {
      Paid(c, ops, key, i, j - 1);
      AloneInRange(c, ops[..j - 1], key, ops[j - 2].now);
      LevelRises(c, before, ops[j - 2].now, last.now);
      AccruedAdds(c, ops[j - 2].now - ops[i].now, last.now - ops[j - 2].now);
    }
  }

  lemma BoundedWhenUnobserved(c: Config, ops: seq<Op>, key: string, i: nat, j: nat)
    requires WellFormed(c) && Unobserved(c, ops) && Monotone(ops) && i < j <= |ops|
    ensures Admissions(c, ops, key, i, j) as real <= c.capacity + Accrued(c, ops[j - 1].now - ops[i].now)
  {
    Paid(c, ops, key, i, j);
    AloneInRange(c, ops[..j], key, ops[j - 1].now);
    TakenInRange(c, Alone(c, ops[..j], key), ops[j - 1].now);
  }

  /** Between any two operations, T milliseconds apart, one key is admitted at most capacity + T/1000 * refill times. */
  lemma WindowBound(c: Config, ops: seq<Op>, key: string, i: nat, j: nat)
    requires WellFormed(c) && PruneSafe(c) && Monotone(ops) && i < j <= |ops|
    ensures Admissions(c, ops, key, i, j) as real
         <= c.capacity + (ops[j - 1].now - ops[i].now) as real / 1000.0 * c.refillPerSecond
  {
    hide Accrued, Admissions, Admitted, AdmittedAlone, WellFormed, PruneSafe;
    forall m | 0 <= m < |ops| ensures Admitted(c, ops, m) <==> AdmittedAlone(c, ops, m) {
      PruningUnobservable(c, ops, m);
    }
    BoundedWhenUnobserved(c, ops, key, i, j);
    AccruedIs(c, ops[j - 1].now - ops[i].now);
  }

  // ---------------------------------------------------------------------------
  // Exactly when pruning is harmless
  // ---------------------------------------------------------------------------

  ghost predicate AlwaysUnobserved(c: Config) {
    forall ops: seq<Op> :: Monotone(ops) ==> Unobserved(c, ops)
  }

  ghost predicate AlwaysBounded(c: Config) {
    forall ops: seq<Op>, key: string, i: nat, j: nat :: Monotone(ops) && i < j <= |ops| ==>
      Admissions(c, ops, key, i, j) as real <= c.capacity + Accrued(c, ops[j - 1].now - ops[i].now)
  }

  /** A burst of n requests at once, a prune just when the bucket may go, and the burst again. */
  function Flood(n: nat, key: string): seq<Op> {
    var t := PRUNE_AFTER_MS + 1;
    seq(2 * n + 1, i => if i < n then Request(key, 0) else if i == n then Prune(t) else Request(key, t))
  }

  lemma OneOfBurst(c: Config, slot: Slot, t: int, left: nat)
    requires left > 0 && left as real <= c.capacity
    requires slot == Held(Bucket(left as real, t)) || (slot == Empty && c.capacity == left as real)
    ensures Admits(c, slot, t) && Taken(c, slot, t) == Bucket((left - 1) as real, t)
  {
    assert Accrued(c, 0) == 0.0;
  }

  lemma NoAdmissions(c: Config, ops: seq<Op>, key: string, i: nat)
    requires i <= |ops|
    ensures Admissions(c, ops, key, i, i) == 0
  {
  }

  lemma OneMore(c: Config, ops: seq<Op>, key: string, i: nat, m: nat)
    requires i <= m < |ops| && ops[m].Request? && ops[m].key == key
    ensures var slot := At(Run(c, ops[..m]), key);
      && At(Run(c, ops[..m + 1]), key) == Held(Taken(c, slot, ops[m].now))
      && Admissions(c, ops, key, i, m + 1) == Admissions(c, ops, key, i, m) + if Admits(c, slot, ops[m].now) then 1 else 0
  {
    assert ops[..m + 1][..m] == ops[..m];
  }

  lemma {:induction false} BurstDrains(c: Config, ops: seq<Op>, key: string, t: int, i: nat, n: nat, k: nat)
    requires c.capacity == n as real
    requires k <= n && i + k <= |ops| && At(Run(c, ops[..i]), key) == Empty
    requires forall m :: i <= m < i + k ==> ops[m] == Request(key, t)
    ensures Admissions(c, ops, key, i, i + k) == k
    ensures k > 0 ==> At(Run(c, ops[..i + k]), key) == Held(Bucket((n - k) as real, t))
  {
    hide Admits, Taken, Run, Admissions;
    NoAdmissions(c, ops, key, i);
    if k > 0 {
      BurstDrains(c, ops, key, t, i, n, k - 1);
      OneMore(c, ops, key, i, i + k - 1);
      OneOfBurst(c, At(Run(c, ops[..i + k - 1]), key), t, n - k + 1);
    }
  }

  lemma {:induction false} AdmissionsSplit(c: Config, ops: seq<Op>, key: string, i: nat, m: nat, j: nat)
    requires i <= m <= j <= |ops|
    ensures Admissions(c, ops, key, i, j) == Admissions(c, ops, key, i, m) + Admissions(c, ops, key, m, j)
    decreases j
  {
    if m < j { AdmissionsSplit(c, ops, key, i, m, j - 1); }
  }

  /** The prune in the middle of the flood empties the slot. */
  lemma FloodPrunes(c: Config, ops: seq<Op>, key: string, n: nat)
    requires n < |ops| && ops[n] == Prune(PRUNE_AFTER_MS + 1)
    requires At(Run(c, ops[..n]), key).Held? && At(Run(c, ops[..n]), key).bucket.lastRefill == 0
    ensures At(Run(c, ops[..n + 1]), key) == Empty
    ensures Admissions(c, ops, key, n, n + 1) == 0
  {
    assert ops[..n + 1][..n] == ops[..n];
    assert Admissions(c, ops, key, n, n) == 0;
  }

  lemma FloodAdmitsTwice(c: Config, n: nat, key: string)
    requires c.capacity == n as real && n > 0
    ensures Admissions(c, Flood(n, key), key, 0, 2 * n + 1) == 2 * n
  {
    var ops := Flood(n, key);
    hide Run, Admissions, Flood;
    FloodShape(n, key);
    EmptyRun(c, ops, key);
    BurstDrains(c, ops, key, 0, 0, n, n);
    FloodPrunes(c, ops, key, n);
    BurstDrains(c, ops, key, PRUNE_AFTER_MS + 1, n + 1, n, n);
    AdmissionsSplit(c, ops, key, 0, n, 2 * n + 1);
    AdmissionsSplit(c, ops, key, n, n + 1, 2 * n + 1);
  }

  lemma FloodShape(n: nat, key: string)
    ensures var ops, t := Flood(n, key), PRUNE_AFTER_MS + 1;
      && |ops| == 2 * n + 1 && Monotone(ops) && ops[n] == Prune(t)
      && (forall m :: 0 <= m < n ==> ops[m] == Request(key, 0))
      && (forall m :: n < m <= 2 * n ==> ops[m] == Request(key, t))
  {
  }

  lemma EmptyRun(c: Config, ops: seq<Op>, key: string)
    ensures At(Run(c, ops[..0]), key) == Empty
  {
  }

  lemma SafeIsUnobserved(c: Config)
    requires WellFormed(c) && PruneSafe(c)
    ensures AlwaysUnobserved(c)
  {
    forall ops: seq<Op> | Monotone(ops) ensures Unobserved(c, ops) {
      forall i | 0 <= i < |ops| ensures Admitted(c, ops, i) <==> AdmittedAlone(c, ops, i) {
        PruningUnobservable(c, ops, i);
      }
    }
  }

  lemma UnobservedIsBounded(c: Config)
    requires WellFormed(c) && AlwaysUnobserved(c)
    ensures AlwaysBounded(c)
  {
    hide Admissions, Accrued, Unobserved, Monotone;
    forall ops: seq<Op>, key: string, i: nat, j: nat | Monotone(ops) && i < j <= |ops|
      ensures Admissions(c, ops, key, i, j) as real <= c.capacity + Accrued(c, ops[j - 1].now - ops[i].now)
    {
      BoundedWhenUnobserved(c, ops, key, i, j);
    }
  }

  lemma BoundedIsSafe(c: Config, n: nat)
    requires c.capacity == n as real && n > 0 && AlwaysBounded(c)
    ensures PruneSafe(c)
  {
    hide Flood, Run, Admissions, Accrued;
    var ops := Flood(n, "");
    FloodAdmitsTwice(c, n, "");
    FloodShape(n, "");
    assert ops[2 * n].now - ops[0].now == PRUNE_AFTER_MS + 1;
    assert Admissions(c, ops, "", 0, 2 * n + 1) as real <= c.capacity + Accrued(c, ops[2 * n].now - ops[0].now);
  }

  /**
   * For a whole number of tokens, pruning is unobservable exactly when a bucket fills up in
   * the time before it may be pruned; exactly then does the window bound hold in all runs.
   */
  lemma PruneSafeExactly(c: Config, n: nat)
    requires WellFormed(c) && c.capacity == n as real && n > 0
    ensures AlwaysUnobserved(c) <==> PruneSafe(c)
    ensures AlwaysBounded(c) <==> PruneSafe(c)
  {
    hide AlwaysUnobserved, AlwaysBounded, PruneSafe;
    if PruneSafe(c) { SafeIsUnobserved(c); }
    if AlwaysUnobserved(c) { UnobservedIsBounded(c); }
    if AlwaysBounded(c) { BoundedIsSafe(c, n); }
  }

  /** Below one token nothing is ever admitted, so pruning is never observed at any rate. */
  lemma BelowOneNothingPasses(c: Config)
    requires WellFormed(c) && c.capacity < 1.0
    ensures AlwaysUnobserved(c)
    ensures forall ops: seq<Op>, i: nat :: Monotone(ops) && i < |ops| ==> !Admitted(c, ops, i)
  {
    hide Run, Alone, Refilled, Monotone, At;
    forall ops: seq<Op>, i: nat | Monotone(ops) && i < |ops|
      ensures !Admitted(c, ops, i) && !AdmittedAlone(c, ops, i)
    {
      if ops[i].Request? {
        BelowOne(c, At(Run(c, ops[..i]), ops[i].key), ops[i].now);
        BelowOne(c, Alone(c, ops[..i], ops[i].key), ops[i].now);
      }
    }
  }

  lemma BelowOne(c: Config, slot: Slot, now: int)
    requires c.capacity < 1.0
    ensures !Admits(c, slot, now)
  {
  }

  /** The default rate fills the bucket in one minute. */
  lemma DefaultIsSafe(c: Config)
    requires c.capacity > 0.0 && c.refillPerSecond == c.capacity / 60.0
    ensures WellFormed(c) && PruneSafe(c)
  {
    assert Accrued(c, PRUNE_AFTER_MS + 1) == 300001.0 / 60000.0 * c.capacity;
  }

  // ---------------------------------------------------------------------------
  // The advice given to a rejected client
  // ---------------------------------------------------------------------------

  function Ceiling(x: real): int {
    -(-x).Floor
  }

  function RetryAfter(c: Config, tokens: real): int
    requires c.refillPerSecond > 0.0
  {
    Ceiling((1.0 - tokens) / c.refillPerSecond)
  }

  /** With no other request in between, waiting w whole seconds is enough exactly when w is at least the advice. */
  lemma RetryAfterIsLeast(c: Config, slot: Slot, now: int, w: nat)
    requires WellFormed(c) && c.capacity >= 1.0 && !Admits(c, slot, now)
    ensures var left := Taken(c, slot, now);
      Admits(c, Held(left), now + 1000 * w) <==> w >= RetryAfter(c, left.tokens)
  {
    hide Ceiling, Accrued;
    var left := Taken(c, slot, now);
    var r := c.refillPerSecond;
    var x := (1.0 - left.tokens) / r;
    assert x * r == 1.0 - left.tokens;
    WholeSeconds(c, w);
    ScaleOrder(w as real, x, r);
    CeilingIsLeast(x, w);
  }

  lemma WholeSeconds(c: Config, w: int)
    ensures Accrued(c, 1000 * w) == w as real * c.refillPerSecond
  {
    assert (1000 * w) as real / 1000.0 == w as real;
  }

  lemma CeilingIsLeast(x: real, w: int)
    ensures w as real >= x <==> w >= Ceiling(x)
  {
  }

  lemma ScaleOrder(a: real, b: real, r: real)
    requires r > 0.0
    ensures a * r >= b * r <==> a >= b
  {
    assert (a - b) * r == a * r - b * r;
    if a > b { PositiveProduct(a - b, r); }
    if a < b { PositiveProduct(b - a, r); assert (b - a) * r == b * r - a * r; }
  }

  lemma PositiveProduct(x: real, y: real)
    requires x > 0.0 && y > 0.0
    ensures x * y > 0.0
  {
  }

  // ---------------------------------------------------------------------------
  // The limiter as the object it is
  // ---------------------------------------------------------------------------

  datatype Response = Passed | Rejected(retryAfter: int)

  class RateLimiter {
    const config: Config
    var buckets: map<string, Bucket>
    ghost var history: seq<Op>

    ghost predicate Valid()
      reads this
    {
      WellFormed(config) && Monotone(history) && buckets == Run(config, history)
    }

    ghost predicate Clock(now: int)
      reads this
    {
      forall i :: 0 <= i < |history| ==> history[i].now <= now
    }

    constructor (config: Config)
      requires WellFormed(config)
      ensures Valid() && history == [] && this.config == config
    {
      this.config := config;
      buckets, history := map[], [];
    }

    ghost method Log(op: Op)
      requires Clock(op.now) && Monotone(history) && WellFormed(config)
      requires buckets == Next(config, Run(config, history), op)
      modifies this`history
      ensures Valid() && history == old(history) + [op]
    {
      var past := history;
      history := history + [op];
      assert history[..|past|] == past;
    }

    method RefillBucket(key: string, now: int) returns (bucket: Bucket)
      ensures bucket == Refilled(config, At(buckets, key), now)
    {
      if key !in buckets {
        bucket := Bucket(config.capacity, now);
      } else {
        bucket := buckets[key];
        var elapsed := (now - bucket.lastRefill) as real / 1000.0;
        bucket := Bucket(Min(config.capacity, bucket.tokens + elapsed * config.refillPerSecond), now);
      }
    }

    /** The middleware: answers as a bucket that no prune and no other client ever touched. */
    method Handle(key: string, now: int) returns (response: Response)
      requires Valid() && Clock(now)
      modifies this
      ensures Valid() && history == old(history) + [Request(key, now)]
      ensures response == Passed <==> Admitted(config, history, |history| - 1)
      ensures PruneSafe(config) ==> (response == Passed <==> Admits(config, Alone(config, old(history), key), now))
      ensures response.Rejected? ==>
        response.retryAfter == RetryAfter(config, Taken(config, At(old(buckets), key), now).tokens)
    {
      hide Refilled, RetryAfter, PruneSafe, Accrued;
      ghost var past := history;
      var bucket := RefillBucket(key, now);
      if bucket.tokens < 1.0 {
        response := Rejected(RetryAfter(config, bucket.tokens));
      } else {
        bucket := bucket.(tokens := bucket.tokens - 1.0);
        response := Passed;
      }
      buckets := buckets[key := bucket];
      Log(Request(key, now));
      assert history[..|past|] == past;
      if PruneSafe(config) { PruningUnobservable(config, history, |past|); }
    }

    /** The interval callback. */
    method PruneBuckets(now: int)
      requires Valid() && Clock(now)
      modifies this
      ensures Valid() && history == old(history) + [Prune(now)]
    {
      var cutoff := now - PRUNE_AFTER_MS;
      ghost var before := buckets;
      var todo := buckets.Keys;
      while todo != {}
        invariant todo <= before.Keys && history == old(history)
        invariant buckets == map k | k in before && (k in todo || before[k].lastRefill >= cutoff) :: before[k]
        decreases |todo|
      {
        var k :| k in todo;
        todo := todo - {k};
        if buckets[k].lastRefill < cutoff { buckets := buckets - {k}; }
      }
      Log(Prune(now));
    }
  }
}
