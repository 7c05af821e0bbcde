/**
 * The keyed FIFO of src/sync/queue.ts.
 *
 * Code between two awaits is one atomic step, so a run of the queue is a sequence of
 * three kinds of steps: an enqueue, the resumption of a job whose processor finished,
 * and a call of waitForIdle. `running` holds the jobs whose processor is pending.
 */
module Queue {

  type Key = string

  datatype Job<T> = Job(key: Key, item: T)

  datatype Entry<T> = Entry(items: seq<T>, processing: bool)

  /** The queue's fields, followed by the log of what happened to the jobs. */
  datatype State<T> = State(
    capacity: nat,
    queues: map<Key, Entry<T>>,
    activeKeys: set<Key>,
    order: seq<Key>,
    waiters: map<Key, set<nat>>,
    running: seq<Job<T>>,
    enqueued: seq<Job<T>>,
    started: seq<Job<T>>,
    completed: seq<Job<T>>,
    dropped: seq<Job<T>>,
    registered: set<nat>,
    resolved: set<nat>)

  function Init<T>(capacity: nat): State<T> {
    State(capacity, map[], {}, [], map[], [], [], [], [], [], {}, {})
  }

  // ---------------------------------------------------------------------------
  // The steps
  // ---------------------------------------------------------------------------

  function Without(order: seq<Key>, key: Key): (r: seq<Key>)
    ensures forall k :: k in r <==> k in order && k != key
    ensures |r| <= |order|
  {
    if order == [] then []
    else if order[0] == key then Without(order[1..], key)
    else [order[0]] + Without(order[1..], key)
  }

  function Touch(order: seq<Key>, key: Key): seq<Key> {
    Without(order, key) + [key]
  }

  function Pending<T>(s: State<T>, key: Key): seq<T> {
    if key in s.queues then s.queues[key].items else []
  }

  predicate Processing<T>(s: State<T>, key: Key) {
    key in s.queues && s.queues[key].processing
  }

  predicate IsIdle<T>(s: State<T>, key: Key) {
    !Processing(s, key) && |Pending(s, key)| == 0
  }

  function Jobs<T>(key: Key, items: seq<T>): (r: seq<Job<T>>)
    ensures |r| == |items|
    ensures forall i :: 0 <= i < |r| ==> r[i] == Job(key, items[i])
  {
    seq(|items|, i requires 0 <= i < |items| => Job(key, items[i]))
  }

  /** `LruTracker.touch` then `evictOldest`, and the removal of the evicted key's queue. */
  function Evict<T>(s: State<T>, key: Key): State<T> {
    var order := Touch(s.order, key);
    if |order| <= s.capacity then s.(order := order)
    else
      var oldest := order[0];
      s.(order := order[1..],
         activeKeys := s.activeKeys - {oldest},
         queues := s.queues - {oldest},
         dropped := s.dropped + Jobs(oldest, Pending(s, oldest)))
  }

  /** The synchronous part of `runKey`: takes the first item and starts its processor. */
  function Start<T>(s: State<T>, key: Key): State<T> {
    if key !in s.queues then s
    else if |s.queues[key].items| == 0 then s.(queues := s.queues[key := Entry([], false)])
    else
      var items := s.queues[key].items;
      var job := Job(key, items[0]);
      s.(queues := s.queues[key := Entry(items[1..], true)],
         running := s.running + [job],
         started := s.started + [job])
  }

  function Push<T>(s: State<T>, key: Key, item: T): State<T> {
    var entry := if key in s.queues then s.queues[key] else Entry([], false);
    s.(queues := s.queues[key := entry.(items := entry.items + [item])],
       activeKeys := if key in s.queues then s.activeKeys else s.activeKeys + {key},
       enqueued := s.enqueued + [Job(key, item)])
  }

  function Enqueue<T>(s: State<T>, key: Key, item: T): State<T> {
    var pushed := Push(Evict(s, key), key, item);
    if Processing(pushed, key) then pushed else Start(pushed, key)
  }

  function RemoveAt<X>(xs: seq<X>, i: nat): seq<X>
    requires i < |xs|
  {
    xs[..i] + xs[i + 1..]
  }

  function NotifyIdle<T>(s: State<T>, key: Key): State<T> {
    if key in s.waiters then
      s.(waiters := s.waiters - {key}, resolved := s.resolved + s.waiters[key])
    else s
  }

  /** The part of `runKey` after its await, for the i-th pending processor. */
  function Complete<T>(s: State<T>, i: nat): State<T>
    requires i < |s.running|
  {
    var job := s.running[i];
    var s1 := s.(running := RemoveAt(s.running, i), completed := s.completed + [job]);
    if job.key !in s.queues then s1
    else if |s.queues[job.key].items| > 0 then Start(s1, job.key)
    else NotifyIdle(s1.(queues := s.queues[job.key := Entry([], false)]), job.key)
  }

  function WaitForIdle<T>(s: State<T>, key: Key, id: nat): State<T> {
    var s1 := s.(registered := s.registered + {id});
    if IsIdle(s, key) then s1.(resolved := s.resolved + {id})
    else s1.(waiters := s.waiters[key := (if key in s.waiters then s.waiters[key] else {}) + {id}])
  }

  datatype Op<T> = DoEnqueue(key: Key, item: T) | DoComplete(index: nat) | DoWait(key: Key, id: nat)

  function Step<T>(s: State<T>, op: Op<T>): State<T> {
    match op
    case DoEnqueue(key, item) => Enqueue(s, key, item)
    case DoComplete(i) => if i < |s.running| then Complete(s, i) else s
    case DoWait(key, id) => WaitForIdle(s, key, id)
  }

  function Run<T>(s: State<T>, ops: seq<Op<T>>): State<T>
    decreases |ops|
  {
    if ops == [] then s else Run(Step(s, ops[0]), ops[1..])
  }

  // ---------------------------------------------------------------------------
  // Conservation: no job is lost or duplicated, whatever is evicted
  // ---------------------------------------------------------------------------

  /** The jobs of one key in a log, in order. */
  function On<T>(key: Key, log: seq<Job<T>>): seq<Job<T>> {
    if log == [] then []
    else if log[0].key == key then [log[0]] + On(key, log[1..])
    else On(key, log[1..])
  }

  lemma {:induction false} OnAppend<T>(key: Key, a: seq<Job<T>>, b: seq<Job<T>>)
    ensures On(key, a + b) == On(key, a) + On(key, b)
  {
    if a == [] {
      assert a + b == b;
    } else {
      assert (a + b)[1..] == a[1..] + b;
      OnAppend(key, a[1..], b);
    }
  }

  lemma {:induction false} OnJobs<T>(key: Key, other: Key, items: seq<T>)
    ensures On(key, Jobs(other, items)) == if key == other then Jobs(other, items) else []
  {
    if items != [] {
      assert Jobs(other, items)[1..] == Jobs(other, items[1..]);
      OnJobs(key, other, items[1..]);
    }
  }

  lemma JobsAppend<T>(key: Key, items: seq<T>, item: T)
    ensures Jobs(key, items + [item]) == Jobs(key, items) + [Job(key, item)]
  {
  }

  lemma OnOne<T>(key: Key, job: Job<T>)
    ensures On(key, [job]) == if job.key == key then [job] else []
  {
  }

  /** Items waiting under a key, as jobs. */
  function Waiting<T>(s: State<T>, key: Key): seq<Job<T>> {
    Jobs(key, Pending(s, key))
  }

  ghost predicate ConservedOn<T>(s: State<T>, key: Key) {
    multiset(On(key, s.enqueued))
      == multiset(On(key, s.started)) + multiset(Waiting(s, key)) + multiset(On(key, s.dropped))
  }

  /** Enqueued jobs are completed, in flight, waiting or dropped by an eviction, each exactly once. */
  ghost predicate Conserved<T>(s: State<T>) {
    Balanced(s) && forall key :: ConservedOn(s, key)
  }

  lemma {:induction false} OnCount<T>(log: seq<Job<T>>, job: Job<T>)
    ensures multiset(On(job.key, log))[job] == multiset(log)[job]
  {
    if log != [] {
      assert log == [log[0]] + log[1..];
      OnCount(log[1..], job);
    }
  }

  /** The conservation law for one job: where its enqueued copies are. */
  lemma ConservedCount<T>(s: State<T>, job: Job<T>)
    requires Conserved(s)
    ensures multiset(s.enqueued)[job]
         == multiset(s.started)[job] + multiset(Waiting(s, job.key))[job] + multiset(s.dropped)[job]
    ensures multiset(s.started)[job] == multiset(s.running)[job] + multiset(s.completed)[job]
  {
    assert ConservedOn(s, job.key);
    OnCount(s.enqueued, job);
    OnCount(s.started, job);
    OnCount(s.dropped, job);
  }

  lemma EnqueueLogs<T>(s: State<T>, key: Key, item: T)
    requires Conserved(s)
    ensures var s' := Enqueue(s, key, item);
      && s'.enqueued == s.enqueued + [Job(key, item)] && s'.completed == s.completed
      && Conserved(s') && s.started <= s'.started && s'.capacity == s.capacity
  {
    StepConserves(s, DoEnqueue(key, item));
    hide Touch, Jobs;
  }

  lemma CompleteLogs<T>(s: State<T>, i: nat)
    requires Conserved(s) && i < |s.running|
    ensures var s' := Complete(s, i);
      && s'.enqueued == s.enqueued && s'.completed == s.completed + [s.running[i]]
      && Conserved(s') && s.started <= s'.started && s'.capacity == s.capacity
  {
    StepConserves(s, DoComplete(i));
  }

  lemma EvictConserves<T>(s: State<T>, key: Key, k: Key)
    requires ConservedOn(s, k)
    ensures ConservedOn(Evict(s, key), k)
  {
    hide Touch, Jobs, On;
    var order := Touch(s.order, key);
    if |order| > s.capacity {
      var oldest := order[0];
      OnAppend(k, s.dropped, Jobs(oldest, Pending(s, oldest)));
      OnJobs(k, oldest, Pending(s, oldest));
      assert Jobs<T>(k, []) == [];
      if k != oldest { assert On(k, s.dropped) + [] == On(k, s.dropped); }
    }
  }

  lemma PushConserves<T>(s: State<T>, key: Key, item: T, k: Key)
    requires ConservedOn(s, k)
    ensures ConservedOn(Push(s, key, item), k)
  {
    hide Jobs;
    OnAppend(k, s.enqueued, [Job(key, item)]);
    OnOne(k, Job(key, item));
    JobsAppend(key, Pending(s, key), item);
  }

  lemma JobsHead<T>(key: Key, items: seq<T>)
    requires |items| > 0
    ensures Jobs(key, items) == [Job(key, items[0])] + Jobs(key, items[1..])
  {
  }

  lemma StartConserves<T>(s: State<T>, key: Key, k: Key)
    requires ConservedOn(s, k)
    ensures ConservedOn(Start(s, key), k)
  {
    hide Jobs;
    var items := Pending(s, key);
    if |items| > 0 {
      OnAppend(k, s.started, [Job(key, items[0])]);
      OnOne(k, Job(key, items[0]));
      JobsHead(key, items);
    }
  }

  lemma RemoveAtConserves<X>(xs: seq<X>, i: nat)
    requires i < |xs|
    ensures multiset(xs) == multiset(RemoveAt(xs, i)) + multiset{xs[i]}
  {
    assert xs == xs[..i] + [xs[i]] + xs[i + 1..];
  }

  lemma CompleteConserves<T>(s: State<T>, i: nat, k: Key)
    requires ConservedOn(s, k) && i < |s.running|
    ensures ConservedOn(Complete(s, i), k)
  {
    hide Jobs, On;
    var job := s.running[i];
    var s1 := s.(running := RemoveAt(s.running, i), completed := s.completed + [job]);
    assert ConservedOn(s1, k);
    StartConserves(s1, job.key, k);
  }

  lemma EnqueueConserves<T>(s: State<T>, key: Key, item: T, k: Key)
    requires ConservedOn(s, k)
    ensures ConservedOn(Enqueue(s, key, item), k)
  {
    hide ConservedOn, Evict, Push, Start;
    EvictConserves(s, key, k);
    PushConserves(Evict(s, key), key, item, k);
    StartConserves(Push(Evict(s, key), key, item), key, k);
  }

  lemma WaitConserves<T>(s: State<T>, key: Key, id: nat, k: Key)
    requires ConservedOn(s, k)
    ensures ConservedOn(WaitForIdle(s, key, id), k)
  {
    hide On, Jobs;
  }

  lemma StepConservesOn<T>(s: State<T>, op: Op<T>, k: Key)
    requires ConservedOn(s, k)
    ensures ConservedOn(Step(s, op), k)
  {
    hide ConservedOn, Enqueue, Complete, WaitForIdle;
    match op
    case DoEnqueue(key, item) => EnqueueConserves(s, key, item, k);
    case DoComplete(i) => if i < |s.running| { CompleteConserves(s, i, k); }
    case DoWait(key, id) => WaitConserves(s, key, id, k);
  }

  ghost predicate Balanced<T>(s: State<T>) {
    multiset(s.started) == multiset(s.running) + multiset(s.completed)
  }

  lemma EvictKeepsLogs<T>(s: State<T>, key: Key)
    ensures var s' := Evict(s, key);
      s'.running == s.running && s'.started == s.started && s'.completed == s.completed
  {
  }

  lemma StartKeepsBalance<T>(s: State<T>, key: Key)
    requires Balanced(s)
    ensures Balanced(Start(s, key))
  {
  }

  lemma StepBalanced<T>(s: State<T>, op: Op<T>)
    requires Balanced(s)
    ensures Balanced(Step(s, op))
  {
    hide Evict, Jobs, RemoveAt;
    match op
    case DoEnqueue(key, item) =>
      EvictKeepsLogs(s, key);
      StartKeepsBalance(Push(Evict(s, key), key, item), key);
    case DoComplete(i) =>
      if i < |s.running| {
        RemoveAtConserves(s.running, i);
        var s1 := s.(running := RemoveAt(s.running, i), completed := s.completed + [s.running[i]]);
        StartKeepsBalance(s1, s.running[i].key);
      }
    case DoWait(_, _) =>
  }

  lemma StepConserves<T>(s: State<T>, op: Op<T>)
    requires Conserved(s)
    ensures Conserved(Step(s, op))
  {
    hide ConservedOn, Step;
    StepBalanced(s, op);
    forall k ensures ConservedOn(Step(s, op), k) { StepConservesOn(s, op, k); }
  }

  lemma {:induction false} RunConserves<T>(s: State<T>, ops: seq<Op<T>>)
    requires Conserved(s)
    ensures Conserved(Run(s, ops))
    decreases |ops|
  {
    if ops != [] {
      StepConserves(s, ops[0]);
      RunConserves(Step(s, ops[0]), ops[1..]);
    }
  }

  // ---------------------------------------------------------------------------
  // Order: each key's jobs leave its queue in the order they entered it
  // ---------------------------------------------------------------------------

  /** `p` interleaves `a` and `b`, keeping the order of both. */
  ghost predicate IsMerge<X(!new)>(p: seq<X>, a: seq<X>, b: seq<X>) {
    if p == [] then a == [] && b == []
    else
      var before, last := p[..|p| - 1], p[|p| - 1];
      || (a != [] && a[|a| - 1] == last && IsMerge(before, a[..|a| - 1], b))
      || (b != [] && b[|b| - 1] == last && IsMerge(before, a, b[..|b| - 1]))
  }

  lemma MergeLeft<X(!new)>(p: seq<X>, a: seq<X>, b: seq<X>, x: X)
    requires IsMerge(p, a, b)
    ensures IsMerge(p + [x], a + [x], b)
  {
    assert (p + [x])[..|p|] == p && (a + [x])[..|a|] == a;
  }

  lemma {:induction false} MergeRight<X(!new)>(p: seq<X>, a: seq<X>, b: seq<X>, xs: seq<X>)
    requires IsMerge(p, a, b)
    ensures IsMerge(p + xs, a, b + xs)
    decreases |xs|
  {
    if xs == [] {
      assert p + xs == p && b + xs == b;
    } else {
      var most := xs[..|xs| - 1];
      MergeRight(p, a, b, most);
      assert (p + xs)[..|p + xs| - 1] == p + most && (b + xs)[..|b + xs| - 1] == b + most;
    }
  }

  lemma {:induction false} MergeNone<X(!new)>(p: seq<X>, a: seq<X>)
    requires IsMerge(p, a, [])
    ensures p == a
  {
    if p != [] {
      MergeNone(p[..|p| - 1], a[..|a| - 1]);
      assert p == p[..|p| - 1] + [p[|p| - 1]] && a == a[..|a| - 1] + [a[|a| - 1]];
    }
  }

  /** Those of the key's jobs that left its queue are `left`; they started or were dropped in that order. */
  ghost predicate FifoWith<T(!new)>(s: State<T>, key: Key, left: seq<Job<T>>) {
    On(key, s.enqueued) == left + Waiting(s, key) && IsMerge(left, On(key, s.started), On(key, s.dropped))
  }

  ghost predicate FifoOn<T(!new)>(s: State<T>, key: Key) {
    exists left :: FifoWith(s, key, left)
  }

  ghost predicate Fifo<T(!new)>(s: State<T>) {
    forall key :: FifoOn(s, key)
  }

  lemma EvictFifo<T(!new)>(s: State<T>, key: Key, k: Key, left: seq<Job<T>>) returns (left': seq<Job<T>>)
    requires FifoWith(s, k, left)
    ensures FifoWith(Evict(s, key), k, left')
  {
    hide Touch, Jobs, IsMerge;
    left' := left;
    var order := Touch(s.order, key);
    if |order| > s.capacity {
      var oldest := order[0];
      OnAppend(k, s.dropped, Jobs(oldest, Pending(s, oldest)));
      OnJobs(k, oldest, Pending(s, oldest));
      if k == oldest {
        MergeRight(left, On(k, s.started), On(k, s.dropped), Waiting(s, k));
        left' := left + Waiting(s, k);
        assert left' + [] == left';
      } else {
        assert On(k, s.dropped) + [] == On(k, s.dropped);
      }
    }
    assert Jobs<T>(k, []) == [];
  }

  lemma PushFifo<T(!new)>(s: State<T>, key: Key, item: T, k: Key, left: seq<Job<T>>)
    requires FifoWith(s, k, left)
    ensures FifoWith(Push(s, key, item), k, left)
  {
    hide Jobs, IsMerge;
    OnAppend(k, s.enqueued, [Job(key, item)]);
    OnOne(k, Job(key, item));
    JobsAppend(key, Pending(s, key), item);
    assert Jobs<T>(k, []) == [];
    if k == key {
      Assoc(left, Waiting(s, k), [Job(key, item)]);
    } else {
      assert On(k, s.enqueued) + [] == On(k, s.enqueued);
    }
  }

  lemma StartFifo<T(!new)>(s: State<T>, key: Key, k: Key, left: seq<Job<T>>) returns (left': seq<Job<T>>)
    requires FifoWith(s, k, left)
    ensures FifoWith(Start(s, key), k, left')
  {
    hide Jobs, IsMerge;
    left' := left;
    var items := Pending(s, key);
    if |items| > 0 {
      var next := Job(key, items[0]);
      OnAppend(k, s.started, [next]);
      OnOne(k, next);
      JobsHead(key, items);
      if k == key {
        MergeLeft(left, On(k, s.started), On(k, s.dropped), next);
        left' := left + [next];
        Assoc(left, [next], Jobs(key, items[1..]));
      } else {
        assert On(k, s.started) + [] == On(k, s.started);
      }
    }
  }

  lemma EnqueueFifo<T(!new)>(s: State<T>, key: Key, item: T, k: Key, left: seq<Job<T>>) returns (left': seq<Job<T>>)
    requires FifoWith(s, k, left)
    ensures FifoWith(Enqueue(s, key, item), k, left')
  {
    hide FifoWith, Evict, Push, Start;
    left' := EvictFifo(s, key, k, left);
    PushFifo(Evict(s, key), key, item, k, left');
    var pushed := Push(Evict(s, key), key, item);
    if !Processing(pushed, key) { left' := StartFifo(pushed, key, k, left'); }
  }

  lemma CompleteFifo<T(!new)>(s: State<T>, i: nat, k: Key, left: seq<Job<T>>) returns (left': seq<Job<T>>)
    requires FifoWith(s, k, left) && i < |s.running|
    ensures FifoWith(Complete(s, i), k, left')
  {
    hide Jobs, On, IsMerge;
    var job := s.running[i];
    var s1 := s.(running := RemoveAt(s.running, i), completed := s.completed + [job]);
    left' := left;
    if job.key in s.queues && |s.queues[job.key].items| > 0 {
      hide Start;
      left' := StartFifo(s1, job.key, k, left);
    }
  }

  lemma WaitFifo<T(!new)>(s: State<T>, key: Key, id: nat, k: Key, left: seq<Job<T>>)
    requires FifoWith(s, k, left)
    ensures FifoWith(WaitForIdle(s, key, id), k, left)
  {
    hide Jobs, On, IsMerge;
  }

  lemma StepFifo<T(!new)>(s: State<T>, op: Op<T>)
    requires Fifo(s)
    ensures Fifo(Step(s, op))
  {
    hide FifoWith, Enqueue, Complete, WaitForIdle;
    forall k ensures FifoOn(Step(s, op), k) {
      assert FifoOn(s, k);
      var left :| FifoWith(s, k, left);
      match op
      case DoEnqueue(key, item) => var left' := EnqueueFifo(s, key, item, k, left);
      case DoComplete(i) => if i < |s.running| { var left' := CompleteFifo(s, i, k, left); }
      case DoWait(key, id) => WaitFifo(s, key, id, k, left);
    }
  }

  /** Over every run, busy evictions included, each key's jobs start or are dropped in the order they were enqueued. */
  lemma {:induction false} RunFifo<T(!new)>(s: State<T>, ops: seq<Op<T>>)
    requires Fifo(s)
    ensures Fifo(Run(s, ops))
    decreases |ops|
  {
    hide Fifo, Step;
    if ops != [] {
      StepFifo(s, ops[0]);
      RunFifo(Step(s, ops[0]), ops[1..]);
    }
  }

  /** A key none of whose jobs was dropped: the jobs started, then those waiting, are the jobs enqueued. */
  lemma UndroppedInOrder<T(!new)>(capacity: nat, ops: seq<Op<T>>, key: Key)
    requires On(key, Run(Init<T>(capacity), ops).dropped) == []
    ensures var s := Run(Init<T>(capacity), ops);
      On(key, s.enqueued) == On(key, s.started) + Waiting(s, key)
  {
    hide Run;
    InitFifo<T>(capacity);
    RunFifo(Init<T>(capacity), ops);
    var s := Run(Init<T>(capacity), ops);
    assert FifoOn(s, key);
    var left :| FifoWith(s, key, left);
    MergeNone(left, On(key, s.started));
  }

  lemma InitFifo<T(!new)>(capacity: nat)
    ensures Fifo(Init<T>(capacity))
  {
    forall key ensures FifoOn(Init<T>(capacity), key) {
      assert FifoWith(Init<T>(capacity), key, []);
    }
  }

  // ---------------------------------------------------------------------------
  // The LRU order, the active keys and the queues
  // ---------------------------------------------------------------------------

  ghost predicate Distinct(order: seq<Key>) {
    forall i, j :: 0 <= i < j < |order| ==> order[i] != order[j]
  }

  /** One key set under three names, no larger than the capacity. */
  ghost predicate KeysAgree<T>(s: State<T>) {
    && Distinct(s.order) && |s.order| <= s.capacity
    && s.queues.Keys == s.activeKeys
    && forall k :: k in s.order <==> k in s.activeKeys
  }

  lemma {:induction false} WithoutDistinct(order: seq<Key>, key: Key)
    requires Distinct(order)
    ensures Distinct(Without(order, key))
    ensures key in order ==> |Without(order, key)| < |order|
  {
    if order != [] {
      var rest := Without(order[1..], key);
      WithoutDistinct(order[1..], key);
      assert order[0] !in order[1..];
      if order[0] != key { DistinctCons(order[0], rest); }
    }
  }

  lemma DistinctCons(first: Key, rest: seq<Key>)
    requires Distinct(rest) && first !in rest
    ensures Distinct([first] + rest)
  {
    forall i, j | 0 <= i < j < |rest| + 1 ensures ([first] + rest)[i] != ([first] + rest)[j] {
      assert ([first] + rest)[j] == rest[j - 1];
      if i > 0 { assert ([first] + rest)[i] == rest[i - 1]; }
    }
  }

  /** The order after a touch and an eviction holds the touched keys without the oldest. */
  lemma TouchedOrder(order: seq<Key>, key: Key, capacity: nat)
    requires Distinct(order) && |order| <= capacity
    ensures var touched := Touch(order, key);
      && Distinct(touched) && |touched| <= capacity + 1
      && (|touched| > capacity >= 1 ==>
            && touched[0] != key && Distinct(touched[1..])
            && forall k :: k in touched[1..] <==> k in touched && k != touched[0])
  {
    var touched := Touch(order, key);
    var rest := Without(order, key);
    WithoutDistinct(order, key);
    forall i, j | 0 <= i < j < |touched| ensures touched[i] != touched[j] {
      assert touched[i] == rest[i] && rest[i] in rest;
      if j < |rest| { assert touched[j] == rest[j]; }
    }
    if |touched| > 1 {
      assert touched[0] != touched[|touched| - 1];
      assert touched == [touched[0]] + touched[1..];
    }
  }

  lemma EvictKeysAgree<T>(s: State<T>, key: Key)
    requires KeysAgree(s) && s.capacity >= 1
    ensures var s' := Evict(s, key);
      && Distinct(s'.order) && |s'.order| <= s.capacity
      && s'.queues.Keys == s'.activeKeys
      && forall k :: k in s'.order <==> k in s'.activeKeys || k == key
  {
    hide Distinct, Jobs;
    TouchedOrder(s.order, key, s.capacity);
  }

  lemma PushKeys<T>(s: State<T>, key: Key, item: T)
    ensures var s' := Push(s, key, item);
      && s'.order == s.order && s'.capacity == s.capacity && s'.queues.Keys == s.queues.Keys + {key}
      && s'.activeKeys == if key in s.queues then s.activeKeys else s.activeKeys + {key}
  {
  }

  lemma StartKeys<T>(s: State<T>, key: Key)
    ensures var s' := Start(s, key);
      s'.order == s.order && s'.capacity == s.capacity && s'.queues.Keys == s.queues.Keys && s'.activeKeys == s.activeKeys
  {
  }

  /** After an enqueue the three key sets agree exactly when the capacity is at least one. */
  lemma EnqueueKeysAgree<T>(s: State<T>, key: Key, item: T)
    requires KeysAgree(s)
    ensures KeysAgree(Enqueue(s, key, item)) <==> s.capacity >= 1
  {
    hide Distinct, Evict, Push, Start;
    PushKeys(Evict(s, key), key, item);
    StartKeys(Push(Evict(s, key), key, item), key);
    EvictCapacity(s, key);
    if s.capacity >= 1 { EvictKeysAgree(s, key); }
  }

  lemma EvictCapacity<T>(s: State<T>, key: Key)
    ensures Evict(s, key).capacity == s.capacity
  {
  }

  lemma StepKeysAgree<T>(s: State<T>, op: Op<T>)
    requires KeysAgree(s) && s.capacity >= 1
    ensures KeysAgree(Step(s, op)) && Step(s, op).capacity == s.capacity
  {
    hide Distinct, Evict, Push, Start, RemoveAt;
    match op
    case DoEnqueue(key, item) =>
      EnqueueKeysAgree(s, key, item);
      EvictCapacity(s, key);
      PushKeys(Evict(s, key), key, item);
      StartKeys(Push(Evict(s, key), key, item), key);
    case DoComplete(i) =>
      if i < |s.running| {
        StartKeys(s.(running := RemoveAt(s.running, i), completed := s.completed + [s.running[i]]), s.running[i].key);
      }
    case DoWait(_, _) =>
  }

  lemma {:induction false} RunKeysAgree<T>(s: State<T>, ops: seq<Op<T>>)
    requires KeysAgree(s) && s.capacity >= 1
    ensures KeysAgree(Run(s, ops))
    decreases |ops|
  {
    hide KeysAgree, Step;
    if ops != [] {
      StepKeysAgree(s, ops[0]);
      RunKeysAgree(Step(s, ops[0]), ops[1..]);
    }
  }

  // ---------------------------------------------------------------------------
  // Which key an eviction takes: the least recently enqueued one
  // ---------------------------------------------------------------------------

  /** Where the key's last job stands in the log; -1 if it has none. */
  function LastUse<T>(log: seq<Job<T>>, key: Key): (p: int)
    ensures -1 <= p < |log|
    ensures p >= 0 ==> log[p].key == key
    ensures forall q :: p < q < |log| ==> log[q].key != key
  {
    if log == [] then -1
    else if log[|log| - 1].key == key then |log| - 1
    else LastUse(log[..|log| - 1], key)
  }

  /** The keys were all used, each later than those before it. */
  ghost predicate ByLastUse<T>(order: seq<Key>, log: seq<Job<T>>) {
    && (forall i :: 0 <= i < |order| ==> LastUse(log, order[i]) >= 0)
    && forall i, j :: 0 <= i < j < |order| ==> LastUse(log, order[i]) < LastUse(log, order[j])
  }

  lemma UseNext<T>(log: seq<Job<T>>, job: Job<T>, key: Key)
    ensures LastUse(log + [job], key) == if key == job.key then |log| else LastUse(log, key)
  {
    assert (log + [job])[..|log|] == log;
  }

  lemma {:induction false} WithoutByLastUse<T>(order: seq<Key>, key: Key, log: seq<Job<T>>)
    requires ByLastUse(order, log)
    ensures ByLastUse(Without(order, key), log)
  {
    hide LastUse;
    if order != [] {
      var rest := Without(order[1..], key);
      WithoutByLastUse(order[1..], key, log);
      forall j | 0 <= j < |rest| ensures LastUse(log, order[0]) < LastUse(log, rest[j]) {
        assert rest[j] in rest;
        var k :| 0 <= k < |order[1..]| && order[1..][k] == rest[j];
        assert order[k + 1] == rest[j];
      }
    }
  }

  /** A touched key has moved to the back once its job is in the log. */
  lemma TouchByLastUse<T>(order: seq<Key>, log: seq<Job<T>>, job: Job<T>)
    requires ByLastUse(order, log)
    ensures ByLastUse(Touch(order, job.key), log + [job])
  {
    hide LastUse;
    var rest := Without(order, job.key);
    WithoutByLastUse(order, job.key, log);
    UseNext(log, job, job.key);
    forall i | 0 <= i < |rest|
      ensures LastUse(log + [job], rest[i]) == LastUse(log, rest[i]) < |log|
    {
      assert rest[i] in rest;
      UseNext(log, job, rest[i]);
      LastUseBound(log, rest[i]);
    }
  }

  lemma LastUseBound<T>(log: seq<Job<T>>, key: Key)
    ensures LastUse(log, key) < |log|
  {
  }

  lemma ByLastUseTail<T>(order: seq<Key>, log: seq<Job<T>>)
    requires ByLastUse(order, log) && order != []
    ensures ByLastUse(order[1..], log)
  {
    hide LastUse;
  }

  lemma EnqueueOrder<T>(s: State<T>, key: Key, item: T)
    ensures var s', touched := Enqueue(s, key, item), Touch(s.order, key);
      && s'.order == (if |touched| <= s.capacity then touched else touched[1..])
      && s'.enqueued == s.enqueued + [Job(key, item)]
  {
    hide Touch, Jobs;
  }

  lemma StepByLastUse<T>(s: State<T>, op: Op<T>)
    requires ByLastUse(s.order, s.enqueued)
    ensures ByLastUse(Step(s, op).order, Step(s, op).enqueued)
  {
    hide ByLastUse, Enqueue, Start, RemoveAt;
    match op
    case DoEnqueue(key, item) =>
      EnqueueOrder(s, key, item);
      TouchByLastUse(s.order, s.enqueued, Job(key, item));
      if |Touch(s.order, key)| > s.capacity { ByLastUseTail(Touch(s.order, key), s.enqueued + [Job(key, item)]); }
    case DoComplete(i) =>
      if i < |s.running| { CompleteKeepsOrder(s, i); }
    case DoWait(_, _) =>
  }

  lemma CompleteKeepsOrder<T>(s: State<T>, i: nat)
    requires i < |s.running|
    ensures Complete(s, i).order == s.order && Complete(s, i).enqueued == s.enqueued
  {
    hide RemoveAt;
  }

  /** In every run the order lists its keys by the last job enqueued on each, the oldest first. */
  lemma {:induction false} RunByLastUse<T>(s: State<T>, ops: seq<Op<T>>)
    requires ByLastUse(s.order, s.enqueued)
    ensures ByLastUse(Run(s, ops).order, Run(s, ops).enqueued)
    decreases |ops|
  {
    hide ByLastUse, Step;
    if ops != [] {
      StepByLastUse(s, ops[0]);
      RunByLastUse(Step(s, ops[0]), ops[1..]);
    }
  }

  /** Among the keys with a queue, none was enqueued on longer ago. */
  ghost predicate LeastRecent<T>(s: State<T>, victim: Key) {
    && victim in s.queues
    && forall k :: k in s.queues && k != victim ==> LastUse(s.enqueued, victim) < LastUse(s.enqueued, k)
  }

  /** There is no room for the key without an eviction. */
  predicate Overflows<T>(s: State<T>, key: Key) {
    key !in s.queues && |s.queues| >= s.capacity
  }

  lemma {:induction false} DistinctCard(order: seq<Key>, keys: set<Key>)
    requires Distinct(order) && forall k :: k in order <==> k in keys
    ensures |order| == |keys|
  {
    if order == [] {
      assert keys == {};
    } else {
      assert order[0] in order && order[0] !in order[1..];
      forall k ensures k in order[1..] <==> k in keys - {order[0]} {
        assert k in order <==> k == order[0] || k in order[1..];
      }
      DistinctCard(order[1..], keys - {order[0]});
    }
  }

  lemma {:induction false} WithoutAbsent(order: seq<Key>, key: Key)
    requires key !in order
    ensures Without(order, key) == order
  {
    if order != [] {
      assert order[0] in order;
      WithoutAbsent(order[1..], key);
    }
  }

  lemma {:induction false} WithoutAt(order: seq<Key>, i: nat)
    requires Distinct(order) && i < |order|
    ensures Without(order, order[i]) == order[..i] + order[i + 1..]
  {
    if i == 0 {
      assert order[0] !in order[1..];
      WithoutAbsent(order[1..], order[0]);
    } else {
      assert order[1..][i - 1] == order[i];
      WithoutAt(order[1..], i - 1);
    }
  }

  /** A touch that overflows leaves the oldest key in front. */
  lemma OverflowFront<T>(s: State<T>, key: Key)
    requires KeysAgree(s) && s.capacity >= 1
    ensures |Touch(s.order, key)| > s.capacity <==> Overflows(s, key)
    ensures Overflows(s, key) ==> s.order != [] && Touch(s.order, key) == s.order + [key]
  {
    DistinctCard(s.order, s.queues.Keys);
    if key in s.order {
      WithoutDistinct(s.order, key);
    } else {
      WithoutAbsent(s.order, key);
    }
  }

  lemma FrontIsLeastRecent<T>(s: State<T>)
    requires KeysAgree(s) && ByLastUse(s.order, s.enqueued) && s.order != []
    ensures LeastRecent(s, s.order[0])
  {
    hide LastUse;
    assert s.order[0] in s.order;
    forall k | k in s.queues && k != s.order[0]
      ensures LastUse(s.enqueued, s.order[0]) < LastUse(s.enqueued, k)
    {
      assert k in s.order;
      var j :| 0 <= j < |s.order| && s.order[j] == k;
    }
  }

  lemma OneLeastRecent<T>(s: State<T>, a: Key, b: Key)
    requires LeastRecent(s, a) && LeastRecent(s, b)
    ensures a == b
  {
    hide LastUse;
  }

  lemma EnqueueKeys<T>(s: State<T>, key: Key, item: T)
    ensures var s', touched := Enqueue(s, key, item), Touch(s.order, key);
      if |touched| <= s.capacity then s'.queues.Keys == s.queues.Keys + {key} && s'.dropped == s.dropped
      else s'.queues.Keys == s.queues.Keys - {touched[0]} + {key} && s'.dropped == s.dropped + Waiting(s, touched[0])
  {
    hide Touch, Jobs;
  }

  lemma Reached<T>(capacity: nat, ops: seq<Op<T>>)
    requires capacity >= 1
    ensures var s := Run(Init<T>(capacity), ops);
      KeysAgree(s) && ByLastUse(s.order, s.enqueued) && s.capacity == capacity
  {
    hide Run, KeysAgree;
    InitSerial<T>(capacity);
    RunKeysAgree(Init<T>(capacity), ops);
    RunByLastUse(Init<T>(capacity), ops);
    RunCapacity(Init<T>(capacity), ops);
  }

  lemma {:induction false} RunCapacity<T>(s: State<T>, ops: seq<Op<T>>)
    ensures Run(s, ops).capacity == s.capacity
    decreases |ops|
  {
    if ops != [] {
      StepCapacity(s, ops[0]);
      hide Step;
      RunCapacity(Step(s, ops[0]), ops[1..]);
    }
  }

  lemma StepCapacity<T>(s: State<T>, op: Op<T>)
    ensures Step(s, op).capacity == s.capacity
  {
    hide Touch, Jobs, RemoveAt;
  }

  /**
   * After any run from the start, with room for at least one key: an enqueue evicts nothing
   * while there is room for its key, and otherwise exactly the key whose last enqueue is the
   * oldest, together with the items that wait under it.
   */
  lemma EvictionIsLeastRecent<T>(capacity: nat, ops: seq<Op<T>>, key: Key, item: T)
    requires capacity >= 1
    ensures var s := Run(Init<T>(capacity), ops);
      var s' := Enqueue(s, key, item);
      if key in s.queues || |s.queues| < capacity
      then s'.queues.Keys == s.queues.Keys + {key} && s'.dropped == s.dropped
      else
        && (exists victim :: LeastRecent(s, victim))
        && forall victim :: LeastRecent(s, victim) ==>
             s'.queues.Keys == s.queues.Keys - {victim} + {key} && s'.dropped == s.dropped + Waiting(s, victim)
  {
    hide Run, Enqueue, KeysAgree, ByLastUse, LeastRecent, Touch;
    var s := Run(Init<T>(capacity), ops);
    Reached(capacity, ops);
    OverflowFront(s, key);
    EnqueueKeys(s, key, item);
    if Overflows(s, key) {
      FrontIsLeastRecent(s);
      assert (s.order + [key])[0] == s.order[0];
      forall victim | LeastRecent(s, victim) ensures victim == s.order[0] { OneLeastRecent(s, victim, s.order[0]); }
    }
  }

  // ---------------------------------------------------------------------------
  // One job at a time per key, in order
  // ---------------------------------------------------------------------------

  /** What holds of one key while no busy key has been evicted. */
  ghost predicate SerialOn<T>(s: State<T>, key: Key) {
    && |On(key, s.running)| == (if Processing(s, key) then 1 else 0)
    && (!Processing(s, key) ==> Pending(s, key) == [])
    && On(key, s.enqueued) == On(key, s.started) + Waiting(s, key)
    && On(key, s.started) == On(key, s.completed) + On(key, s.running)
    && (key in s.waiters ==> !IsIdle(s, key))
  }

  ghost predicate NoLostWaiter<T>(s: State<T>) {
    forall id :: id in s.registered ==>
      id in s.resolved || exists key :: key in s.waiters && id in s.waiters[key]
  }

  ghost predicate Serial<T>(s: State<T>) {
    NoLostWaiter(s) && forall key :: SerialOn(s, key)
  }

  /** The guard of the failing branch: the key about to be evicted still has a job. */
  predicate EvictsBusy<T>(s: State<T>, key: Key) {
    var order := Touch(s.order, key);
    |order| > s.capacity && !IsIdle(s, order[0])
  }

  /** A busy key is evicted exactly when there is no room and the least recently enqueued key still has a job. */
  lemma EvictsBusyExactly<T>(capacity: nat, ops: seq<Op<T>>, key: Key)
    requires capacity >= 1
    ensures var s := Run(Init<T>(capacity), ops);
      EvictsBusy(s, key) <==>
        key !in s.queues && |s.queues| >= capacity && exists victim :: LeastRecent(s, victim) && !IsIdle(s, victim)
  {
    hide Run, KeysAgree, ByLastUse, LeastRecent, Touch, IsIdle;
    var s := Run(Init<T>(capacity), ops);
    Reached(capacity, ops);
    OverflowFront(s, key);
    if Overflows(s, key) {
      FrontIsLeastRecent(s);
      assert (s.order + [key])[0] == s.order[0];
      forall victim | LeastRecent(s, victim) ensures victim == s.order[0] { OneLeastRecent(s, victim, s.order[0]); }
    }
  }

  lemma EvictIdleSerial<T>(s: State<T>, key: Key)
    requires Serial(s) && !EvictsBusy(s, key)
    ensures Serial(Evict(s, key))
  {
    var s' := Evict(s, key);
    forall k ensures SerialOn(s', k) { assert SerialOn(s, k); }
  }

  lemma EnqueueOnKey<T>(s: State<T>, key: Key, item: T)
    requires SerialOn(s, key)
    ensures var pushed := Push(s, key, item);
      SerialOn(if Processing(pushed, key) then pushed else Start(pushed, key), key)
  {
    hide On, Jobs;
    var pushed, job := Push(s, key, item), Job(key, item);
    OnAppend(key, s.enqueued, [job]);
    OnOne(key, job);
    JobsAppend(key, Pending(s, key), item);
    Assoc(On(key, s.started), Waiting(s, key), [job]);
    if !Processing(pushed, key) {
      assert Pending(pushed, key) == [item] && [item][1..] == [];
      assert Jobs<T>(key, []) == [];
      OnAppend(key, s.started, [job]);
      OnAppend(key, s.running, [job]);
      assert On(key, s.started) + [] == On(key, s.started);
      assert On(key, s.started) + [job] + [] == On(key, s.started) + [job];
      Assoc(On(key, s.completed), On(key, s.running), [job]);
    }
  }

  lemma EnqueueOnOther<T>(s: State<T>, key: Key, item: T, k: Key)
    requires SerialOn(s, k) && k != key
    ensures var pushed := Push(s, key, item);
      SerialOn(if Processing(pushed, key) then pushed else Start(pushed, key), k)
  {
    var pushed := Push(s, key, item);
    OnAppend(k, s.enqueued, [Job(key, item)]);
    if !Processing(pushed, key) {
      var job := Job(key, pushed.queues[key].items[0]);
      OnAppend(k, s.started, [job]);
      OnAppend(k, s.running, [job]);
    }
  }

  /** An enqueue keeps the keys serial exactly when it evicts no busy key. */
  lemma EnqueueSerialExactly<T>(s: State<T>, key: Key, item: T)
    requires Serial(s)
    ensures Serial(Enqueue(s, key, item)) <==> !EvictsBusy(s, key)
  {
    var s' := Enqueue(s, key, item);
    if !EvictsBusy(s, key) {
      EvictIdleSerial(s, key);
      var s1 := Evict(s, key);
      forall k ensures SerialOn(s', k) {
        assert SerialOn(s1, k);
        if k == key { EnqueueOnKey(s1, key, item); } else { EnqueueOnOther(s1, key, item, k); }
      }
    } else {
      BusyEvictionBreaks(s, key, item);
      assert !SerialOn(s', Touch(s.order, key)[0]);
    }
  }

  lemma BusyEvictionBreaks<T>(s: State<T>, key: Key, item: T)
    requires Serial(s) && EvictsBusy(s, key)
    ensures var victim, s' := Touch(s.order, key)[0], Enqueue(s, key, item);
      && |On(victim, s'.running)| == (if victim == key then 2 else 1)
      && (victim != key ==> victim !in s'.queues)
  {
    var victim := Touch(s.order, key)[0];
    assert SerialOn(s, victim);
    var pushed := Push(Evict(s, key), key, item);
    if !Processing(pushed, key) {
      var job := Job(key, pushed.queues[key].items[0]);
      OnAppend(victim, s.running, [job]);
    }
  }

  lemma OnRemove<T>(key: Key, log: seq<Job<T>>, i: nat)
    requires i < |log|
    ensures log[i].key != key ==> On(key, RemoveAt(log, i)) == On(key, log)
    ensures log[i].key == key ==> |On(key, log)| == |On(key, RemoveAt(log, i))| + 1
    ensures log[i].key == key && |On(key, log)| == 1 ==> On(key, log) == [log[i]]
  {
    var before, after := log[..i], log[i + 1..];
    assert log == before + ([log[i]] + after);
    OnAppend(key, before, after);
    OnAppend(key, before, [log[i]] + after);
    OnAppend(key, [log[i]], after);
    OnOne(key, log[i]);
  }

  /** The completion without its follow-up: the i-th processor is no longer pending. */
  function Finished<T>(s: State<T>, i: nat): State<T>
    requires i < |s.running|
  {
    s.(running := RemoveAt(s.running, i), completed := s.completed + [s.running[i]])
  }

  lemma FinishedOn<T>(s: State<T>, i: nat, k: Key)
    requires i < |s.running| && SerialOn(s, k)
    ensures var s1 := Finished(s, i);
      && On(k, s1.started) == On(k, s1.completed) + On(k, s1.running)
      && |On(k, s1.running)| == (if Processing(s, k) && s.running[i].key != k then 1 else 0)
      && (s.running[i].key == k ==> Processing(s, k))
  {
    hide On, Jobs;
    OnRemove(k, s.running, i);
    OnAppend(k, s.completed, [s.running[i]]);
    OnOne(k, s.running[i]);
  }

  /** Starting the next job of a key with none in flight. */
  lemma StartNextOn<T>(s: State<T>, key: Key)
    requires key in s.queues && Pending(s, key) != []
    requires On(key, s.started) == On(key, s.completed) + On(key, s.running)
    requires On(key, s.enqueued) == On(key, s.started) + Waiting(s, key)
    requires On(key, s.running) == []
    ensures SerialOn(Start(s, key), key)
  {
    hide On, Jobs;
    var next := Job(key, Pending(s, key)[0]);
    OnAppend(key, s.started, [next]);
    OnAppend(key, s.running, [next]);
    OnOne(key, next);
    JobsHead(key, Pending(s, key));
    Assoc(On(key, s.completed), On(key, s.running), [next]);
    Assoc(On(key, s.started), [next], Jobs(key, Pending(s, key)[1..]));
  }

  /** Starting a job of one key leaves every other key alone. */
  lemma StartOnOther<T>(s: State<T>, key: Key, k: Key)
    requires key in s.queues && Pending(s, key) != [] && k != key
    ensures var s' := Start(s, key);
      && On(k, s'.started) == On(k, s.started) && On(k, s'.running) == On(k, s.running)
      && Pending(s', k) == Pending(s, k) && Processing(s', k) == Processing(s, k)
      && s'.enqueued == s.enqueued && s'.completed == s.completed && s'.waiters == s.waiters
  {
    hide On;
    var next := Job(key, Pending(s, key)[0]);
    OnAppend(k, s.started, [next]);
    OnAppend(k, s.running, [next]);
    OnOne(k, next);
  }

  lemma Assoc<X>(a: seq<X>, b: seq<X>, c: seq<X>)
    ensures a + (b + c) == (a + b) + c
  {
  }

  lemma CompleteOn<T>(s: State<T>, i: nat, k: Key)
    requires i < |s.running| && SerialOn(s, k) && SerialOn(s, s.running[i].key)
    ensures SerialOn(Complete(s, i), k)
  {
    hide On, Jobs;
    var key := s.running[i].key;
    FinishedOn(s, i, k);
    FinishedOn(s, i, key);
    if Pending(s, key) != [] {
      hide RemoveAt, NotifyIdle;
      if k == key { StartNextOn(Finished(s, i), key); } else { StartOnOther(Finished(s, i), key, k); }
    }
  }

  lemma CompleteNoLostWaiter<T>(s: State<T>, i: nat)
    requires i < |s.running| && NoLostWaiter(s)
    ensures NoLostWaiter(Complete(s, i))
  {
    var s' := Complete(s, i);
    forall id | id in s'.registered
      ensures id in s'.resolved || exists key :: key in s'.waiters && id in s'.waiters[key]
    {
      if id !in s.resolved {
        var key :| key in s.waiters && id in s.waiters[key];
        assert key in s'.waiters ==> id in s'.waiters[key];
      }
    }
  }

  lemma CompleteSerial<T>(s: State<T>, i: nat)
    requires Serial(s) && i < |s.running|
    ensures Serial(Complete(s, i))
  {
    hide Complete, SerialOn, NoLostWaiter;
    CompleteNoLostWaiter(s, i);
    forall k ensures SerialOn(Complete(s, i), k) {
      assert SerialOn(s, k) && SerialOn(s, s.running[i].key);
      CompleteOn(s, i, k);
    }
  }

  lemma WaitSerial<T>(s: State<T>, key: Key, id: nat)
    requires Serial(s)
    ensures Serial(WaitForIdle(s, key, id))
  {
    hide On, Jobs;
    var s' := WaitForIdle(s, key, id);
    forall k ensures SerialOn(s', k) { assert SerialOn(s, k); }
    forall n | n in s'.registered
      ensures n in s'.resolved || exists k :: k in s'.waiters && n in s'.waiters[k]
    {
      if n != id && n !in s.resolved {
        var k :| k in s.waiters && n in s.waiters[k];
        assert k in s'.waiters && n in s'.waiters[k];
      } else if n == id && !IsIdle(s, key) {
        assert key in s'.waiters && id in s'.waiters[key];
      }
    }
  }

  ghost predicate BusyFree<T>(s: State<T>, ops: seq<Op<T>>)
    decreases |ops|
  {
    ops != [] ==>
      && (ops[0].DoEnqueue? ==> !EvictsBusy(s, ops[0].key))
      && BusyFree(Step(s, ops[0]), ops[1..])
  }

  ghost predicate AlwaysSerial<T>(s: State<T>, ops: seq<Op<T>>)
    decreases |ops|
  {
    Serial(s) && (ops != [] ==> AlwaysSerial(Step(s, ops[0]), ops[1..]))
  }

  /** Every state of a run keeps its keys serial exactly when the run evicts no busy key. */
  lemma {:induction false} RunSerialExactly<T>(s: State<T>, ops: seq<Op<T>>)
    requires Serial(s)
    ensures AlwaysSerial(s, ops) <==> BusyFree(s, ops)
    decreases |ops|
  {
    hide Serial, Enqueue, Complete, WaitForIdle, EvictsBusy;
    if ops != [] {
      match ops[0]
      case DoEnqueue(key, item) =>
        EnqueueSerialExactly(s, key, item);
        if !EvictsBusy(s, key) {
          RunSerialExactly(Step(s, ops[0]), ops[1..]);
        } else {
          assert !AlwaysSerial(Step(s, ops[0]), ops[1..]);
        }
      case DoComplete(i) =>
        if i < |s.running| { CompleteSerial(s, i); }
        RunSerialExactly(Step(s, ops[0]), ops[1..]);
      case DoWait(key, id) =>
        WaitSerial(s, key, id);
        RunSerialExactly(Step(s, ops[0]), ops[1..]);
    }
  }

  lemma InitSerial<T>(capacity: nat)
    ensures Serial(Init<T>(capacity)) && Conserved(Init<T>(capacity)) && KeysAgree(Init<T>(capacity))
  {
  }

  // ---------------------------------------------------------------------------
  // What a busy eviction breaks, and what its absence gives
  // ---------------------------------------------------------------------------

  lemma EnqueueAddsRunning<T>(s: State<T>, key: Key, item: T, k: Key)
    ensures |On(k, Enqueue(s, key, item).running)| >= |On(k, s.running)|
    ensures key !in s.queues ==> |On(key, Enqueue(s, key, item).running)| == |On(key, s.running)| + 1
  {
    hide Touch, Jobs;
    var pushed := Push(Evict(s, key), key, item);
    if !Processing(pushed, key) {
      var job := Job(key, pushed.queues[key].items[0]);
      OnAppend(k, s.running, [job]);
      OnAppend(key, s.running, [job]);
      OnOne(key, job);
    }
  }

  /** Evicting a busy key and enqueueing on it again runs two jobs of that key at once. */
  lemma BusyEvictionRunsTwo<T>(s: State<T>, key: Key, item: T, again: T)
    requires Serial(s) && EvictsBusy(s, key)
    ensures var victim := Touch(s.order, key)[0];
      |On(victim, Enqueue(Enqueue(s, key, item), victim, again).running)| >= 2
  {
    hide Touch, Enqueue, Serial;
    var victim := Touch(s.order, key)[0];
    BusyEvictionBreaks(s, key, item);
    EnqueueAddsRunning(Enqueue(s, key, item), victim, again, victim);
  }

  lemma OnWitness<T>(key: Key, log: seq<Job<T>>) returns (i: nat)
    requires On(key, log) != []
    ensures i < |log| && log[i].key == key
  {
    if log[0].key == key { i := 0; }
    else { i := OnWitness(key, log[1..]); i := i + 1; }
  }

  /** The job of an evicted busy key can finish, leaving the key idle, without its waiters being told. */
  lemma BusyEvictionLosesWaiter<T>(s: State<T>, key: Key, item: T) returns (i: nat)
    requires Serial(s) && EvictsBusy(s, key)
    requires Touch(s.order, key)[0] != key && Touch(s.order, key)[0] in s.waiters
    ensures var victim, s1 := Touch(s.order, key)[0], Enqueue(s, key, item);
      && i < |s1.running| && s1.running[i].key == victim
      && var s2 := Complete(s1, i);
      && IsIdle(s2, victim) && On(victim, s2.running) == []
      && victim in s2.waiters && s2.waiters[victim] == s.waiters[victim]
  {
    hide Jobs;
    var victim, s1 := Touch(s.order, key)[0], Enqueue(s, key, item);
    BusyEvictionBreaks(s, key, item);
    i := OnWitness(victim, s1.running);
    OnRemove(victim, s1.running, i);
  }

  /** The one step that tells the waiters of a key: its last job ends while the key has a queue. */
  predicate Drains<T>(s: State<T>, op: Op<T>, key: Key) {
    && op.DoComplete? && op.index < |s.running| && s.running[op.index].key == key
    && key in s.queues && Pending(s, key) == []
  }

  predicate DrainsIn<T>(s: State<T>, ops: seq<Op<T>>, key: Key)
    decreases |ops|
  {
    ops != [] && (Drains(s, ops[0], key) || DrainsIn(Step(s, ops[0]), ops[1..], key))
  }

  /** A waiter that is registered under this key only, and not told yet. */
  ghost predicate WaitsOn<T>(s: State<T>, key: Key, id: nat) {
    && id !in s.resolved && key in s.waiters && id in s.waiters[key]
    && forall k :: k in s.waiters && id in s.waiters[k] ==> k == key
  }

  lemma EvictKeepsWaiters<T>(s: State<T>, key: Key)
    ensures Evict(s, key).waiters == s.waiters && Evict(s, key).resolved == s.resolved
  {
  }

  lemma StartKeepsWaiters<T>(s: State<T>, key: Key)
    ensures Start(s, key).waiters == s.waiters && Start(s, key).resolved == s.resolved
  {
  }

  lemma StepTells<T>(s: State<T>, op: Op<T>, key: Key, id: nat)
    requires WaitsOn(s, key, id) && !(op.DoWait? && op.id == id)
    ensures if Drains(s, op, key) then id in Step(s, op).resolved else WaitsOn(Step(s, op), key, id)
  {
    hide Evict, Start, RemoveAt;
    match op
    case DoEnqueue(k, item) =>
      EvictKeepsWaiters(s, k);
      StartKeepsWaiters(Push(Evict(s, k), k, item), k);
    case DoComplete(i) =>
      if i < |s.running| {
        StartKeepsWaiters(s.(running := RemoveAt(s.running, i), completed := s.completed + [s.running[i]]), s.running[i].key);
      }
    case DoWait(k, other) =>
  }

  lemma {:induction false} ResolvedStays<T>(s: State<T>, ops: seq<Op<T>>, id: nat)
    requires id in s.resolved
    ensures id in Run(s, ops).resolved
    decreases |ops|
  {
    if ops != [] {
      assert id in Step(s, ops[0]).resolved;
      ResolvedStays(Step(s, ops[0]), ops[1..], id);
    }
  }

  /** Over every run a waiter is told exactly when its key drains. */
  lemma {:induction false} ToldExactly<T>(s: State<T>, ops: seq<Op<T>>, key: Key, id: nat)
    requires WaitsOn(s, key, id)
    requires forall j :: 0 <= j < |ops| ==> !(ops[j].DoWait? && ops[j].id == id)
    ensures id in Run(s, ops).resolved <==> DrainsIn(s, ops, key)
    decreases |ops|
  {
    hide Step, WaitsOn, Drains;
    if ops == [] {
      NotTold(s, key, id);
    } else {
      StepTells(s, ops[0], key, id);
      if Drains(s, ops[0], key) {
        ResolvedStays(Step(s, ops[0]), ops[1..], id);
      } else {
        ToldExactly(Step(s, ops[0]), ops[1..], key, id);
      }
    }
  }

  lemma NotTold<T>(s: State<T>, key: Key, id: nat)
    requires WaitsOn(s, key, id)
    ensures id !in s.resolved
  {
  }

  lemma QueueNeedsEnqueue<T>(s: State<T>, op: Op<T>, key: Key)
    requires key !in s.queues && !(op.DoEnqueue? && op.key == key)
    ensures key !in Step(s, op).queues && !Drains(s, op, key)
  {
    hide Touch, Jobs, RemoveAt;
  }

  /** An evicted key does not drain, so its waiters stay, until something is enqueued on it again. */
  lemma {:induction false} EvictedWaitsForEnqueue<T>(s: State<T>, ops: seq<Op<T>>, key: Key)
    requires key !in s.queues
    requires forall j :: 0 <= j < |ops| ==> !(ops[j].DoEnqueue? && ops[j].key == key)
    ensures !DrainsIn(s, ops, key)
    decreases |ops|
  {
    hide Step, Drains;
    if ops != [] {
      QueueNeedsEnqueue(s, ops[0], key);
      EvictedWaitsForEnqueue(Step(s, ops[0]), ops[1..], key);
    }
  }

  lemma TouchTwo(key: Key, other: Key)
    requires key != other
    ensures Touch([], key) == [key] && Touch([other], key) == [other, key]
  {
    assert [other][1..] == [];
  }

  /** With room for one key, enqueueing on another takes its place. */
  lemma EnqueueReplaces<T>(s: State<T>, held: Key, key: Key, item: T)
    requires s.capacity == 1 && s.order == [held] && s.queues.Keys == {held} && held != key
    ensures var s' := Enqueue(s, key, item);
      && s'.order == [key] && s'.queues == map[key := Entry([], true)]
      && s'.running == s.running + [Job(key, item)] && s'.started == s.started + [Job(key, item)]
      && s'.dropped == s.dropped + Waiting(s, held)
      && s'.waiters == s.waiters && s'.resolved == s.resolved && s'.completed == s.completed && s'.capacity == 1
  {
    hide Touch, Jobs;
    TouchTwo(key, held);
    var evicted := Evict(s, key);
    assert evicted.order == [key] && evicted.queues == map[];
    var pushed := Push(evicted, key, item);
    assert [] + [item] == [item] && [item][1..] == [];
    assert pushed.queues == map[key := Entry([item], false)];
  }

  lemma EnqueueFirst<T>(key: Key, item: T)
    ensures var s := Enqueue(Init<T>(1), key, item);
      && s.order == [key] && s.queues == map[key := Entry([], true)] && s.running == [Job(key, item)]
      && s.started == [Job(key, item)] && s.dropped == []
      && s.waiters == map[] && s.resolved == {} && s.completed == [] && s.capacity == 1
  {
    hide Touch, Jobs;
    TouchTwo(key, key + "'");
    var pushed := Push(Evict(Init<T>(1), key), key, item);
    assert [] + [item] == [item] && [item][1..] == [];
    assert pushed.queues == map[key := Entry([item], false)];
  }

  lemma EnqueueBehind<T>(s: State<T>, key: Key, item: T)
    requires s.capacity == 1 && s.order == [key] && s.queues == map[key := Entry([], true)]
    ensures var s' := Enqueue(s, key, item);
      && s'.order == [key] && s'.queues == map[key := Entry([item], true)] && s'.capacity == 1
      && s'.running == s.running && s'.started == s.started && s'.dropped == s.dropped
  {
    hide Touch, Jobs;
    TouchSame(key);
    assert [] + [item] == [item];
  }

  lemma TouchSame(key: Key)
    ensures Touch([key], key) == [key]
  {
    assert [key][1..] == [];
  }

  /** With room for one key: its waiter outlives the eviction and is told once the key is used again. */
  lemma EvictedWaiterCanBeTold<T>(a: Key, b: Key, item: T, id: nat)
    requires a != b
    ensures var ops := [DoEnqueue(a, item), DoWait(a, id), DoEnqueue(b, item), DoComplete(0)];
      && var s := Run(Init<T>(1), ops);
      && a !in s.queues && On(a, s.running) == [] && WaitsOn(s, a, id)
      && id in Run(s, [DoEnqueue(a, item), DoComplete(1)]).resolved
  {
    hide Enqueue, Touch, Run, WaitForIdle, Complete;
    var s0 := Init<T>(1);
    EnqueueFirst(a, item);
    var s1 := Enqueue(s0, a, item);
    WaitOnBusy(s1, a, id);
    var s2 := WaitForIdle(s1, a, id);
    EnqueueReplaces(s2, a, b, item);
    var s3 := Enqueue(s2, b, item);
    CompleteOrphan(s3);
    OnOne(a, Job(b, item));
    RunFour(s0, DoEnqueue(a, item), DoWait(a, id), DoEnqueue(b, item), DoComplete(0));
    UsedAgainTells(Complete(s3, 0), b, a, item, id);
  }

  lemma WaitOnBusy<T>(s: State<T>, key: Key, id: nat)
    requires s.queues == map[key := Entry([], true)] && s.waiters == map[]
    ensures WaitForIdle(s, key, id) == s.(registered := s.registered + {id}, waiters := map[key := {id}])
  {
    assert {} + {id} == {id};
    assert s.waiters[key := {id}] == map[key := {id}];
  }

  /** The end of a job whose key was evicted. */
  lemma CompleteOrphan<T>(s: State<T>)
    requires |s.running| == 2 && s.running[0].key !in s.queues
    ensures Complete(s, 0) == s.(running := [s.running[1]], completed := s.completed + [s.running[0]])
  {
  }

  lemma UsedAgainTells<T>(s: State<T>, held: Key, key: Key, item: T, id: nat)
    requires s.capacity == 1 && s.order == [held] && s.queues.Keys == {held} && held != key
    requires |s.running| == 1 && key in s.waiters && id in s.waiters[key]
    ensures id in Run(s, [DoEnqueue(key, item), DoComplete(1)]).resolved
  {
    hide Enqueue, Touch, Run;
    EnqueueReplaces(s, held, key, item);
    RunTwo(s, DoEnqueue(key, item), DoComplete(1));
  }

  lemma RunTwo<T>(s: State<T>, a: Op<T>, b: Op<T>)
    ensures Run(s, [a, b]) == Step(Step(s, a), b)
  {
    hide Step;
    assert [a, b][1..] == [b] && [b][1..] == [];
    assert Run(s, [a, b]) == Run(Step(s, a), [b]);
  }

  lemma RunFour<T>(s: State<T>, a: Op<T>, b: Op<T>, c: Op<T>, d: Op<T>)
    ensures Run(s, [a, b, c, d]) == Step(Step(Step(Step(s, a), b), c), d)
  {
    hide Step;
    assert [a, b, c, d][1..] == [b, c, d] && [b, c, d][1..] == [c, d];
    RunTwo(Step(Step(s, a), b), c, d);
    assert Run(s, [a, b, c, d]) == Run(Step(s, a), [b, c, d]);
  }

  /** With no busy eviction, once no processor is pending everything enqueued is done, in order, and every waiter was told. */
  lemma QuiescentIsDone<T>(s: State<T>, key: Key, id: nat)
    requires Serial(s) && s.running == []
    ensures IsIdle(s, key) && On(key, s.completed) == On(key, s.enqueued)
    ensures id in s.registered ==> id in s.resolved
  {
    assert SerialOn(s, key);
    forall k ensures k !in s.waiters { assert SerialOn(s, k); }
  }

  // ---------------------------------------------------------------------------
  // Draining
  // ---------------------------------------------------------------------------

  /** What `drainAll` does before it waits: one waiter for each of its keys. */
  function WaitAll<T>(s: State<T>, keys: seq<Key>, first: nat): State<T>
    decreases |keys|
  {
    if keys == [] then s else WaitAll(WaitForIdle(s, keys[0], first), keys[1..], first + 1)
  }

  /** No waiter has this number yet. */
  ghost predicate Unused<T>(s: State<T>, id: nat) {
    id !in s.resolved && forall k :: k in s.waiters ==> id !in s.waiters[k]
  }

  ghost predicate AllUnused<T>(s: State<T>, first: nat, n: nat) {
    forall id: nat :: first <= id < first + n ==> Unused(s, id)
  }

  ghost predicate AllTold<T>(s: State<T>, first: nat, n: nat) {
    forall id: nat :: first <= id < first + n ==> id in s.resolved
  }

  /** Registering waiters changes nothing else. */
  ghost predicate SameJobs<T>(s: State<T>, s': State<T>) {
    && s'.queues == s.queues && s'.running == s.running && s'.enqueued == s.enqueued
    && s'.started == s.started && s'.completed == s.completed
  }

  lemma WaitUnused<T>(s: State<T>, key: Key, first: nat, id: nat)
    requires Unused(s, id) && id != first
    ensures Unused(WaitForIdle(s, key, first), id)
  {
  }

  lemma WaitRegisters<T>(s: State<T>, key: Key, id: nat)
    requires Unused(s, id)
    ensures if IsIdle(s, key) then id in WaitForIdle(s, key, id).resolved else WaitsOn(WaitForIdle(s, key, id), key, id)
  {
  }

  lemma {:induction false} WaitAllKeeps<T>(s: State<T>, keys: seq<Key>, first: nat)
    requires Serial(s)
    ensures Serial(WaitAll(s, keys, first)) && SameJobs(s, WaitAll(s, keys, first))
    decreases |keys|
  {
    hide Serial;
    if keys != [] {
      WaitSerial(s, keys[0], first);
      WaitAllKeeps(WaitForIdle(s, keys[0], first), keys[1..], first + 1);
    }
  }

  /** A waiter with an earlier number is not affected. */
  lemma {:induction false} WaitAllOthers<T>(s: State<T>, keys: seq<Key>, first: nat, key: Key, id: nat)
    requires id < first
    ensures id in s.resolved ==> id in WaitAll(s, keys, first).resolved
    ensures WaitsOn(s, key, id) ==> WaitsOn(WaitAll(s, keys, first), key, id)
    decreases |keys|
  {
    if keys != [] { WaitAllOthers(WaitForIdle(s, keys[0], first), keys[1..], first + 1, key, id); }
  }

  /** The waiter of the i-th key is told at once on an idle key, and waits on any other. */
  lemma {:induction false} WaitAllRegisters<T>(s: State<T>, keys: seq<Key>, first: nat, i: nat)
    requires AllUnused(s, first, |keys|) && i < |keys|
    ensures var s' := WaitAll(s, keys, first);
      if IsIdle(s, keys[i]) then first + i in s'.resolved else WaitsOn(s', keys[i], first + i)
    decreases |keys|
  {
    hide WaitForIdle, WaitsOn, Unused, IsIdle;
    var s1 := WaitForIdle(s, keys[0], first);
    assert Unused(s, first);
    if i == 0 {
      WaitRegisters(s, keys[0], first);
      WaitAllOthers(s1, keys[1..], first + 1, keys[0], first);
    } else {
      forall id: nat | first + 1 <= id < first + |keys| ensures Unused(s1, id) { WaitUnused(s, keys[0], first, id); }
      WaitAllRegisters(s1, keys[1..], first + 1, i - 1);
      WaitIdleSame(s, keys[0], first, keys[i]);
    }
  }

  lemma WaitIdleSame<T>(s: State<T>, key: Key, id: nat, k: Key)
    ensures IsIdle(WaitForIdle(s, key, id), k) <==> IsIdle(s, k)
  {
  }

  ghost predicate NoNewWaiter<T>(ops: seq<Op<T>>, first: nat, n: nat) {
    forall j :: 0 <= j < |ops| && ops[j].DoWait? ==> !(first <= ops[j].id < first + n)
  }

  lemma StepSerial<T>(s: State<T>, op: Op<T>)
    requires Serial(s) && (op.DoEnqueue? ==> !EvictsBusy(s, op.key))
    ensures Serial(Step(s, op))
  {
    hide Serial, Enqueue, Complete, WaitForIdle, EvictsBusy;
    match op
    case DoEnqueue(key, item) => EnqueueSerialExactly(s, key, item);
    case DoComplete(i) => if i < |s.running| { CompleteSerial(s, i); }
    case DoWait(key, id) => WaitSerial(s, key, id);
  }

  /** `a` is an initial part of `b`, key by key. */
  lemma OnPrefix<T>(key: Key, a: seq<Job<T>>, b: seq<Job<T>>)
    requires a <= b
    ensures On(key, a) <= On(key, b)
  {
    assert b == a + b[|a|..];
    OnAppend(key, a, b[|a|..]);
  }

  lemma StepGrows<T>(s: State<T>, op: Op<T>)
    ensures s.enqueued <= Step(s, op).enqueued && s.completed <= Step(s, op).completed
    ensures s.dropped <= Step(s, op).dropped
    ensures op.DoComplete? ==> Step(s, op).enqueued == s.enqueued && Step(s, op).dropped == s.dropped
  {
    hide Touch, Jobs, RemoveAt;
  }

  lemma {:induction false} CompletedGrows<T>(s: State<T>, ops: seq<Op<T>>)
    ensures s.completed <= Run(s, ops).completed
    decreases |ops|
  {
    hide Step;
    if ops != [] {
      StepGrows(s, ops[0]);
      CompletedGrows(Step(s, ops[0]), ops[1..]);
    }
  }

  lemma IdleIsDone<T>(s: State<T>, key: Key)
    requires SerialOn(s, key) && IsIdle(s, key)
    ensures On(key, s.completed) == On(key, s.enqueued)
  {
    hide Jobs;
    assert Waiting(s, key) == [];
    assert On(key, s.started) + [] == On(key, s.started);
    assert On(key, s.completed) + [] == On(key, s.completed);
  }

  lemma DrainLeavesIdle<T>(s: State<T>, op: Op<T>, key: Key)
    requires Drains(s, op, key)
    ensures IsIdle(Step(s, op), key)
  {
  }

  /** Without a busy eviction, once a key has drained every job enqueued on it before is completed. */
  lemma {:induction false} DrainedIsDone<T>(s: State<T>, ops: seq<Op<T>>, key: Key)
    requires Serial(s) && BusyFree(s, ops) && DrainsIn(s, ops, key)
    ensures On(key, s.enqueued) <= On(key, Run(s, ops).completed)
    decreases |ops|
  {
    hide Step, Drains, On, SerialOn, IsIdle, EvictsBusy;
    var s1 := Step(s, ops[0]);
    StepSerial(s, ops[0]);
    StepGrows(s, ops[0]);
    OnPrefix(key, s.enqueued, s1.enqueued);
    if Drains(s, ops[0], key) {
      DrainLeavesIdle(s, ops[0], key);
      IdleIsDone(s1, key);
      CompletedGrows(s1, ops[1..]);
      OnPrefix(key, s1.completed, Run(s1, ops[1..]).completed);
    } else {
      DrainedIsDone(s1, ops[1..], key);
    }
  }

  /** The waiters of `drainAll` are all told exactly when each of its keys was idle or has drained. */
  lemma DrainAllToldExactly<T>(s: State<T>, keys: seq<Key>, first: nat, ops: seq<Op<T>>)
    requires AllUnused(s, first, |keys|) && NoNewWaiter(ops, first, |keys|)
    ensures var s1 := WaitAll(s, keys, first);
      AllTold(Run(s1, ops), first, |keys|) <==> forall i :: 0 <= i < |keys| ==> IsIdle(s, keys[i]) || DrainsIn(s1, ops, keys[i])
  {
    hide Run, WaitAll, WaitsOn, IsIdle, DrainsIn, AllUnused;
    var s1 := WaitAll(s, keys, first);
    forall i: nat | i < |keys|
      ensures first + i in Run(s1, ops).resolved <==> IsIdle(s, keys[i]) || DrainsIn(s1, ops, keys[i])
    {
      WaitAllRegisters(s, keys, first, i);
      if IsIdle(s, keys[i]) { ResolvedStays(s1, ops, first + i); }
      else { ToldExactly(s1, ops, keys[i], first + i); }
    }
    if AllTold(Run(s1, ops), first, |keys|) {
      forall i: nat | i < |keys| ensures IsIdle(s, keys[i]) || DrainsIn(s1, ops, keys[i]) {
        assert first + i in Run(s1, ops).resolved;
      }
    } else {
      var id: nat :| first <= id < first + |keys| && id !in Run(s1, ops).resolved;
      assert !(IsIdle(s, keys[id - first]) || DrainsIn(s1, ops, keys[id - first]));
    }
  }

  /**
   * `drainAll` in a run without a busy eviction: once all its waiters are told, every job
   * enqueued before the call is completed, in order, whatever was enqueued since.
   */
  lemma DrainAllCompletes<T>(s: State<T>, keys: seq<Key>, first: nat, ops: seq<Op<T>>, key: Key)
    requires Serial(s) && AllUnused(s, first, |keys|) && NoNewWaiter(ops, first, |keys|)
    requires multiset(keys) == multiset(s.queues.Keys)
    requires BusyFree(WaitAll(s, keys, first), ops) && AllTold(Run(WaitAll(s, keys, first), ops), first, |keys|)
    ensures On(key, s.enqueued) <= On(key, Run(WaitAll(s, keys, first), ops).completed)
  {
    hide Run, WaitAll, IsIdle, DrainsIn, AllUnused, AllTold, On, SerialOn, BusyFree;
    var s1 := WaitAll(s, keys, first);
    WaitAllKeeps(s, keys, first);
    DrainAllToldExactly(s, keys, first, ops);
    if IsIdle(s, key) {
      assert SerialOn(s, key);
      IdleIsDone(s, key);
      CompletedGrows(s1, ops);
      OnPrefix(key, s.completed, Run(s1, ops).completed);
    } else {
      BusyHasQueue(s, key);
      assert key in multiset(keys);
      DrainedIsDone(s1, ops, key);
    }
  }

  lemma BusyHasQueue<T>(s: State<T>, key: Key)
    requires !IsIdle(s, key)
    ensures key in s.queues
  {
  }

  /** With room for one key: a busy eviction, then a drain whose waiters are all told while a job is still in flight. */
  lemma DrainMissesEvicted<T>(a: Key, b: Key, item: T, id: nat)
    requires a != b
    ensures var s := Run(Init<T>(1), [DoEnqueue(a, item), DoEnqueue(b, item)]);
      && s.queues.Keys == {b} && AllUnused(s, id, 1) && EvictsBusy(Enqueue(Init<T>(1), a, item), b)
      && var s' := Run(WaitAll(s, [b], id), [DoComplete(1)]);
      AllTold(s', id, 1) && On(a, s'.running) == [Job(a, item)] && On(a, s'.completed) == []
  {
    hide Enqueue, Touch;
    var s0 := Init<T>(1);
    EnqueueFirst(a, item);
    var s1 := Enqueue(s0, a, item);
    TouchTwo(b, a);
    EnqueueReplaces(s1, a, b, item);
    var s := Enqueue(s1, b, item);
    RunTwo(s0, DoEnqueue(a, item), DoEnqueue(b, item));
    DrainOne(s, b, id);
    OnOne(a, Job(a, item));
    OnOne(a, Job(b, item));
  }

  lemma DrainOne<T>(s: State<T>, key: Key, id: nat)
    requires |s.running| == 2 && s.running[1].key == key && s.queues == map[key := Entry([], true)]
    requires s.waiters == map[]
    ensures var s' := Run(WaitAll(s, [key], id), [DoComplete(1)]);
      s'.running == [s.running[0]] && s'.completed == s.completed + [s.running[1]] && id in s'.resolved
  {
    assert [key][1..] == [];
    var s1 := WaitForIdle(s, key, id);
    assert WaitAll(s, [key], id) == s1;
    var last: Op<T> := DoComplete(1);
    assert [last][1..] == [];
    assert Run(s1, [last]) == Complete(s1, 1);
  }

  // ---------------------------------------------------------------------------
  // Progress: what waits can be started
  // ---------------------------------------------------------------------------

  /** A key with waiting items has a job in flight, whose end will start the next. */
  ghost predicate LivelyOn<T>(s: State<T>, key: Key) {
    if Processing(s, key) then On(key, s.running) != [] else Pending(s, key) == []
  }

  ghost predicate Lively<T>(s: State<T>) {
    forall key :: LivelyOn(s, key)
  }

  lemma StartLively<T>(s: State<T>, key: Key, k: Key)
    requires key in s.queues && (k != key ==> LivelyOn(s, k))
    ensures LivelyOn(Start(s, key), k)
  {
    if Pending(s, key) != [] {
      var job := Job(key, s.queues[key].items[0]);
      OnAppend(k, s.running, [job]);
      OnOne(k, job);
    }
  }

  lemma EnqueueLively<T>(s: State<T>, key: Key, item: T)
    requires Lively(s)
    ensures Lively(Enqueue(s, key, item))
  {
    hide Touch, Jobs, Start, On;
    var pushed := Push(Evict(s, key), key, item);
    forall k ensures LivelyOn(Enqueue(s, key, item), k) {
      assert LivelyOn(s, k);
      if !Processing(pushed, key) { StartLively(pushed, key, k); }
    }
  }

  lemma CompleteLively<T>(s: State<T>, i: nat)
    requires Lively(s) && i < |s.running|
    ensures Lively(Complete(s, i))
  {
    hide RemoveAt, Start, On;
    var key := s.running[i].key;
    forall k ensures LivelyOn(Complete(s, i), k) {
      assert LivelyOn(s, k);
      OnRemove(k, s.running, i);
      if Pending(s, key) != [] { StartLively(Finished(s, i), key, k); }
    }
  }

  /** Every run from a lively state, busy evictions included, leaves a lively state. */
  lemma {:induction false} RunLively<T>(s: State<T>, ops: seq<Op<T>>)
    requires Lively(s)
    ensures Lively(Run(s, ops))
    decreases |ops|
  {
    hide Enqueue, Complete, Lively;
    if ops != [] {
      match ops[0] {
        case DoEnqueue(key, item) => EnqueueLively(s, key, item);
        case DoComplete(i) => if i < |s.running| { CompleteLively(s, i); }
        case DoWait(key, id) => WaitLively(s, key, id);
      }
      RunLively(Step(s, ops[0]), ops[1..]);
    }
  }

  lemma WaitLively<T>(s: State<T>, key: Key, id: nat)
    requires Lively(s)
    ensures Lively(WaitForIdle(s, key, id))
  {
    forall k ensures LivelyOn(WaitForIdle(s, key, id), k) { assert LivelyOn(s, k); }
  }

  lemma InitLively<T>(capacity: nat)
    ensures Lively(Init<T>(capacity))
  {
  }

  /** Some pending processor's end starts the key's next item. */
  lemma CompleteServes<T>(s: State<T>, key: Key) returns (i: nat)
    requires Lively(s) && Pending(s, key) != []
    ensures i < |s.running| && s.running[i].key == key
    ensures Complete(s, i).started == s.started + [Job(key, Pending(s, key)[0])]
    ensures Pending(Complete(s, i), key) == Pending(s, key)[1..] && Lively(Complete(s, i))
  {
    assert LivelyOn(s, key);
    i := OnWitness(key, s.running);
    CompleteLively(s, i);
  }

  /** An enqueued item is started at once, or is the last to wait. */
  lemma EnqueuePlaces<T>(s: State<T>, key: Key, item: T)
    requires Lively(s)
    ensures var s' := Enqueue(s, key, item);
      && Lively(s')
      && (Job(key, item) in s'.started || (Pending(s', key) != [] && Pending(s', key)[|Pending(s', key)| - 1] == item))
  {
    hide Touch, Jobs, On;
    EnqueueLively(s, key, item);
    assert LivelyOn(s, key);
  }

  lemma PrefixCount<T>(a: seq<Job<T>>, b: seq<Job<T>>, job: Job<T>)
    requires a <= b
    ensures multiset(a)[job] <= multiset(b)[job]
  {
    assert b == a + b[|a|..];
  }

  /** A job that neither waits nor is enqueued now is not started. */
  lemma EnqueueLeaves<T>(s: State<T>, key: Key, item: T, job: Job<T>)
    requires Conserved(s) && job != Job(key, item) && job !in Waiting(s, job.key)
    ensures var s' := Enqueue(s, key, item);
      multiset(s'.started)[job] == multiset(s.started)[job] && job !in Waiting(s', job.key)
  {
    hide Enqueue, Conserved, Jobs;
    var s' := Enqueue(s, key, item);
    EnqueueLogs(s, key, item);
    StepGrows(s, DoEnqueue(key, item));
    PrefixCount(s.started, s'.started, job);
    PrefixCount(s.dropped, s'.dropped, job);
    ConservedCount(s, job);
    ConservedCount(s', job);
  }

  lemma CompleteLeaves<T>(s: State<T>, i: nat, job: Job<T>)
    requires Conserved(s) && i < |s.running| && job !in Waiting(s, job.key)
    ensures var s' := Complete(s, i);
      multiset(s'.started)[job] == multiset(s.started)[job] && job !in Waiting(s', job.key)
  {
    hide Complete, Conserved, Jobs;
    var s' := Complete(s, i);
    CompleteLogs(s, i);
    StepGrows(s, DoComplete(i));
    PrefixCount(s.started, s'.started, job);
    ConservedCount(s, job);
    ConservedCount(s', job);
  }
}
