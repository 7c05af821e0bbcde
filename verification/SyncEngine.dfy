/**
 * The engine as the object it is: one method per atomic stretch of code between awaits,
 * each proved to be the step of `Engine` it stands for. The store outlives the process.
 */
module SyncEngine {
  import opened Engine
  import opened Options
  import Q = Queue
  import opened EventQueue
  import B = Breaker

  class Store {
    var dedup: set<Triple>
    var inflight: map<RowId, Row>
    var nextRow: RowId

    /** Ids are never reused. */
    ghost predicate Valid()
      reads this
    {
      forall id :: id in inflight ==> id < nextRow
    }

    constructor ()
      ensures Valid() && dedup == {} && inflight == map[] && nextRow == 0
    {
      dedup, inflight, nextRow := {}, map[], 0;
    }

    /** `findOne` on the dedup collection. */
    method Seen(t: Triple) returns (found: bool)
      ensures found <==> t in dedup
    {
      found := t in dedup;
    }

    /** `insertOne` under the unique index; false on a duplicate key. */
    method InsertSeen(t: Triple) returns (inserted: bool)
      modifies this`dedup
      ensures inserted <==> t !in old(dedup)
      ensures dedup == old(dedup) + {t}
    {
      inserted := t !in dedup;
      dedup := dedup + {t};
    }

    method CreateInflight(row: Row) returns (id: RowId)
      requires Valid()
      modifies this`inflight, this`nextRow
      ensures Valid() && id !in old(inflight)
      ensures id == old(nextRow) && nextRow == id + 1 && inflight == old(inflight)[id := row]
    {
      id := nextRow;
      inflight := inflight[id := row];
      nextRow := nextRow + 1;
    }

    method DeleteInflight(id: RowId)
      modifies this`inflight
      ensures inflight == old(inflight) - {id} && (old(Valid()) ==> Valid())
    {
      inflight := inflight - {id};
    }
  }

  class SyncEngine {
    const store: Store
    const maxKeys: nat
    var queue: EventQueue<QueueEntry>
    var mode: Mode
    var threads: seq<Delivery>
    var breaker: B.InMemoryBindingBreaker
    /** The kinds that have a manager. */
    var managers: set<string>

    ghost var born: map<RowId, Birth>
    ghost var gone: map<RowId, Reason>
    ghost var crashes: nat
    ghost var past: seq<Job>
    ghost var deleteFailed: set<RowId>

    ghost function View(): State
      reads this, store, queue, queue.lru
    {
      State(store.dedup, store.inflight, store.nextRow, mode, threads, queue.View(),
            born, gone, crashes, past, deleteFailed)
    }

    constructor (maxKeys: nat)
      ensures View() == Init(maxKeys) && fresh(store) && fresh(queue) && fresh(queue.lru)
      ensures store.Valid() && fresh(breaker) && breaker.Valid() && breaker.history == [] && managers == {}
      ensures this.maxKeys == maxKeys
    {
      store := new Store();
      queue := new EventQueue(maxKeys);
      breaker := new B.InMemoryBindingBreaker();
      managers := {};
      this.maxKeys := maxKeys;
      mode, threads := Down, [];
      born, gone, crashes, past, deleteFailed := map[], map[], 0, [], {};
    }

    method DeliverEvent(ev: Event)
      requires !mode.Down?
      modifies this`threads
      ensures View() == Next(old(View()), Deliver(ev))
    {
      threads := threads + [Looking(ev)];
    }

    /** `checkAndMarkSeen` up to its lookup's answer. */
    method FindSeen(i: nat)
      requires i < |threads| && threads[i].Looking?
      modifies this`threads
      ensures View() == Next(old(View()), Find(i))
    {
      var ev := threads[i].ev;
      var existing := store.Seen(ev.triple);
      threads := threads[i := if existing then Finished(ev) else Inserting(ev)];
    }

    /** The insert of `checkAndMarkSeen` and its answer. */
    method MarkSeen(i: nat)
      requires i < |threads| && threads[i].Inserting?
      modifies this`threads, store`dedup
      ensures View() == Next(old(View()), Mark(i))
    {
      var ev := threads[i].ev;
      var inserted := store.InsertSeen(ev.triple);
      threads := threads[i := if inserted then Marked(ev) else Finished(ev)];
    }

    method CreateRow(i: nat, now: int)
      requires i < |threads| && threads[i].Marked? && store.Valid()
      modifies this`threads, this`born, store`inflight, store`nextRow
      ensures store.Valid() && old(store.nextRow) !in old(store.inflight)
      ensures View() == Next(old(View()), WriteRow(i, now))
    {
      var ev := threads[i].ev;
      var row := Row(ev, Remote, now);
      var id := store.CreateInflight(row);
      born := born[id := Birth(row, crashes, true)];
      threads := threads[i := Written(ev, id)];
    }

    method EnqueueWritten(i: nat)
      requires i < |threads| && threads[i].Written?
      modifies this`threads, queue, queue.lru
      ensures View() == Next(old(View()), EnqueueRow(i))
      ensures var Written(ev, id) := old(threads[i]);
        queue.enqueued == old(queue.enqueued) + [Q.Job(ev.key, QueueEntry(ev, false, Some(id)))]
    {
      var Written(ev, id) := threads[i];
      threads := threads[i := Finished(ev)];
      queue.EnqueueItem(ev.key, QueueEntry(ev, false, Some(id)));
    }

    /**
     * `enqueueWebhookEvent` when nothing comes between its awaits. Steps that a duplicate
     * does not reach change nothing.
     */
    method EnqueueWebhookEvent(ev: Event, now: int) returns (duplicate: bool)
      requires !mode.Down? && store.Valid()
      modifies this`threads, this`born, store`dedup, store`inflight, store`nextRow, queue, queue.lru
      ensures store.Valid() && queue.lru.capacity == old(queue.lru.capacity)
      ensures duplicate <==> ev.triple in old(store.dedup)
      ensures View() == Run(old(View()), WebhookSteps(ev, |old(threads)|, now))
      ensures store.dedup == old(store.dedup) + {ev.triple}
      ensures store.inflight == if duplicate then old(store.inflight) else old(store.inflight)[old(store.nextRow) := Row(ev, Remote, now)]
    {
      hide Q.Enqueue;
      var i := |threads|;
      ghost var s0 := View();
      DeliverEvent(ev);
      FindSeen(i);
      duplicate := threads[i].Finished?;
      if !duplicate {
        MarkSeen(i);
        CreateRow(i, now);
        EnqueueWritten(i);
      }
      WebhookRun(s0, ev, i, now);
    }

    method EnqueueLocalEvent(ev: Event)
      requires !mode.Down?
      modifies queue, queue.lru
      ensures View() == Next(old(View()), LocalEvent(ev))
      ensures queue.enqueued == old(queue.enqueued) + [Q.Job(ev.key, QueueEntry(ev, true, None))]
    {
      queue.EnqueueItem(ev.key, QueueEntry(ev, true, None));
    }

    method Register(kind: string)
      modifies this`managers
      ensures managers == old(managers) + {kind}
    {
      managers := managers + {kind};
    }

    /**
     * The start of a dispatch: the outcome, if no manager is to be called. The event is
     * dropped exactly when an opening of its binding's breaker is in force, or its kind has
     * no manager; the row is deleted either way.
     */
    method EnterDispatch(j: nat, now: int) returns (drop: Option<Outcome>)
      requires j < |queue.running| && breaker.Valid() && B.NotBefore(breaker.history, now)
      modifies breaker
      ensures breaker.Valid()
      ensures var ev := queue.running[j].item.event;
        var opening := B.InForce(B.Outcomes(old(breaker.history), ev.triple.binding), now);
        && breaker.history == old(breaker.history) + [B.Query(ev.triple.binding, now)]
        && drop == if opening then Some(BreakerOpen) else if ev.kind !in managers then Some(NoManager) else None
    {
      var ev := queue.running[j].item.event;
      var isOpen := breaker.IsOpen(ev.triple.binding, now);
      if isOpen { return Some(BreakerOpen); }
      if ev.kind !in managers { return Some(NoManager); }
      return None;
    }

    /** Back from the manager: its success or failure is recorded for the event's binding only. */
    method LeaveDispatch(j: nat, threw: bool, now: int, stamp: int) returns (outcome: Outcome)
      requires j < |queue.running| && breaker.Valid() && B.NotBefore(breaker.history, now) && now <= stamp
      modifies breaker
      ensures breaker.Valid() && outcome == if threw then ManagerThrew else Applied
      ensures var binding := queue.running[j].item.event.triple.binding;
        breaker.history == old(breaker.history) + [if threw then B.Failure(binding, now, stamp) else B.Success(binding, now)]
    {
      var binding := queue.running[j].item.event.triple.binding;
      if threw {
        breaker.RecordFailure(binding, now, stamp);
        outcome := ManagerThrew;
      } else {
        breaker.RecordSuccess(binding, now);
        outcome := Applied;
      }
    }

    /** The end of a dispatch, however it went: its row is deleted. */
    method FinishDispatch(j: nat, outcome: Outcome)
      requires j < |queue.running| && queue.running[j].item.inflightId.Some?
      modifies this`gone, store`inflight
      ensures old(store.Valid()) ==> store.Valid()
      ensures View() == Next(old(View()), DeleteRow(j, outcome))
      ensures store.inflight == old(store.inflight) - {queue.running[j].item.inflightId.value}
    {
      hide Next;
      DeleteStep(View(), j, outcome);
      var id := queue.running[j].item.inflightId.value;
      if id in store.inflight { gone := gone[id := Dispatched(outcome)]; }
      RemoveMissing(store.inflight, id);
      store.DeleteInflight(id);
    }

    /**
     * `dispatch` of a job with a row when nothing comes between its awaits; `threw` is what
     * the manager would do. With an opening in force it is not called: nothing is recorded
     * for the binding, and the row goes as dropped.
     */
    method DispatchJob(j: nat, now: int, threw: bool, later: int, stamp: int) returns (outcome: Outcome)
      requires j < |queue.running| && queue.running[j].item.inflightId.Some?
      requires breaker.Valid() && B.NotBefore(breaker.history, now) && now <= later <= stamp
      modifies this`gone, store`inflight, breaker
      ensures breaker.Valid() && (old(store.Valid()) ==> store.Valid())
      ensures View() == Next(old(View()), DeleteRow(j, outcome))
      ensures store.inflight == old(store.inflight) - {queue.running[j].item.inflightId.value}
      ensures var ev, history := queue.running[j].item.event, old(breaker.history);
        var opening, query := B.InForce(B.Outcomes(history, ev.triple.binding), now), B.Query(ev.triple.binding, now);
        && (outcome == BreakerOpen <==> opening)
        && (outcome == NoManager <==> !opening && ev.kind !in managers)
        && breaker.history == history + [query]
             + if outcome == Applied then [B.Success(ev.triple.binding, later)]
               else if outcome == ManagerThrew then [B.Failure(ev.triple.binding, later, stamp)] else []
    {
      hide Next, B.InForce, B.Outcomes, B.Run, B.Monotone;
      var drop := EnterDispatch(j, now);
      ghost var history := breaker.history;
      assert history + [] == history;
      if drop.Some? {
        outcome := drop.value;
      } else {
        outcome := LeaveDispatch(j, threw, later, stamp);
      }
      FinishDispatch(j, outcome);
    }

    method ResumeJob(j: nat)
      requires j < |queue.running|
      modifies this`deleteFailed, queue
      ensures View() == Next(old(View()), Resume(j))
    {
      ghost var id := queue.running[j].item.inflightId;
      if id.Some? && id.value in store.inflight { deleteFailed := deleteFailed + {id.value}; }
      queue.Resume(j);
    }

    method ForgetBreaker()
      modifies this`breaker, this`managers
      ensures fresh(breaker) && breaker.Valid() && breaker.history == [] && managers == {}
    {
      breaker := new B.InMemoryBindingBreaker();
      managers := {};
    }

    method ForgetQueue()
      requires maxKeys == queue.lru.capacity
      modifies this
      ensures View() == Next(old(View()), Crash) && fresh(queue) && fresh(queue.lru)
    {
      hide Next;
      CrashStep(View());
      past := past + queue.started;
      var q := new EventQueue<QueueEntry>(maxKeys);
      queue := q;
      mode, threads := Down, [];
      crashes, deleteFailed := crashes + 1, {};
    }

    /** The process dies: only the store survives. */
    method Die()
      requires maxKeys == queue.lru.capacity
      modifies this
      ensures View() == Next(old(View()), Crash) && fresh(queue) && fresh(queue.lru)
      ensures fresh(breaker) && breaker.Valid() && breaker.history == [] && managers == {}
    {
      hide Next, Crashed, Q.Init;
      ForgetQueue();
      ForgetBreaker();
    }

    /** One turn of the boot loop. */
    method ReplayNext() returns (resumed: bool, discarded: bool)
      requires mode.Booting? && |mode.todo| > 0
      modifies this`mode, this`gone, store`inflight, queue, queue.lru
      ensures old(store.Valid()) ==> store.Valid()
      ensures View() == Next(old(View()), BootNext)
      ensures var id := old(mode.todo[0]);
        if id !in old(store.inflight) then !resumed && !discarded
        else
          var row := old(store.inflight)[id];
          && discarded == (row.startedAt < old(mode.cutoff) || row.op == Unknown)
          && resumed == !discarded
          && queue.enqueued == old(queue.enqueued)
               + if resumed then [Q.Job(row.event.key, QueueEntry(row.event, row.op == Local, Some(id)))] else []
      ensures |store.inflight| + (if discarded then 1 else 0) == |old(store.inflight)|
      ensures store.inflight == if discarded then old(store.inflight) - {old(mode.todo[0])} else old(store.inflight)
      ensures mode == Booting(old(mode.todo)[1..], old(mode.cutoff))
    {
      hide Q.Enqueue;
      resumed, discarded := false, false;
      var id, cutoff := mode.todo[0], mode.cutoff;
      mode := Booting(mode.todo[1..], cutoff);
      if id in store.inflight {
        var row := store.inflight[id];
        if row.startedAt < cutoff || row.op.Unknown? {
          gone := gone[id := if row.startedAt < cutoff then Stale(cutoff) else UnknownOp];
          store.DeleteInflight(id);
          discarded := true;
        } else {
          queue.EnqueueItem(row.event.key, EntryOf(id, row));
          resumed := true;
        }
      }
    }

    /** The boot loop, with the counters it logs. */
    method ReplayAll() returns (resumed: nat, discarded: nat)
      requires mode.Booting? && OnceEach(mode.todo, store.inflight)
      modifies this`mode, this`gone, store`inflight, queue, queue.lru
      ensures old(store.Valid()) ==> store.Valid()
      ensures View() == Run(old(View()), Replays(|old(mode.todo)|))
      ensures mode == Booting([], old(mode.cutoff))
      ensures resumed + discarded == |old(mode.todo)|
      ensures |store.inflight| + discarded == |old(store.inflight)|
    {
      hide Next, Q.Init, OnceEach;
      resumed, discarded := 0, 0;
      ghost var listed := View();
      ghost var n := |mode.todo|;
      var k := 0;
      while |mode.todo| > 0
        invariant mode.Booting? && mode.cutoff == old(mode.cutoff)
        invariant resumed + discarded == k && k + |mode.todo| == n && OnceEach(mode.todo, store.inflight)
        invariant View() == Run(listed, Replays(k))
        invariant old(store.Valid()) ==> store.Valid()
        invariant |store.inflight| + discarded == |old(store.inflight)|
        decreases |mode.todo|
      {
        OnceEachNext(mode.todo, store.inflight);
        var r, d := ReplayNext();
        if r { resumed := resumed + 1; }
        if d { discarded := discarded + 1; }
        ReplaysSnoc(listed, k);
        k := k + 1;
      }
    }

    /** `start`: replays the listed rows, discarding stale and unknown ones. */
    method Start(ids: seq<RowId>, now: int) returns (resumed: nat, discarded: nat)
      requires mode.Down? && Lists(ids, store.inflight)
      modifies this`mode, this`gone, store`inflight, queue, queue.lru
      ensures old(store.Valid()) ==> store.Valid()
      ensures View() == Run(old(View()), BootSteps(ids, now)) && mode.Up?
      ensures resumed + discarded == |ids|
      ensures |store.inflight| + discarded == |old(store.inflight)|
    {
      mode := Booting(ids, now - INFLIGHT_MAX_AGE_MS);
      ListStep(old(View()), ids, now);
      hide Next, Lists;
      ListsOnceEach(ids, store.inflight);
      resumed, discarded := ReplayAll();
      BootDoneStep(View());
      mode := Up;
      BootRun(old(View()), ids, now);
    }
  }

  /** One delivery without interleaving, as the `i`-th. */
  function WebhookSteps(ev: Event, i: nat, now: int): seq<Step> {
    [Deliver(ev), Find(i), Mark(i), WriteRow(i, now), EnqueueRow(i)]
  }

  lemma WebhookRun(s: State, ev: Event, i: nat, now: int)
    requires !s.mode.Down? && i == |s.threads|
    ensures var s2 := Next(Next(s, Deliver(ev)), Find(i));
      Run(s, WebhookSteps(ev, i, now))
        == if ev.triple in s.dedup then s2 else Next(Next(Next(s2, Mark(i)), WriteRow(i, now)), EnqueueRow(i))
  {
    hide Run, Q.Enqueue;
    RunFive(s, Deliver(ev), Find(i), Mark(i), WriteRow(i, now), EnqueueRow(i));
    if ev.triple in s.dedup {
      var s2 := Next(Next(s, Deliver(ev)), Find(i));
      assert s2.threads[i] == Finished(ev);
      assert Next(s2, Mark(i)) == s2;
      assert Next(s2, WriteRow(i, now)) == s2;
      assert Next(s2, EnqueueRow(i)) == s2;
    }
  }

  lemma RunFive(s: State, a: Step, b: Step, c: Step, d: Step, e: Step)
    ensures Run(s, [a, b, c, d, e]) == Next(Next(Next(Next(Next(s, a), b), c), d), e)
  {
    hide Next;
    var s2 := Next(Next(s, a), b);
    assert [a, b, c, d, e] == [a, b] + [c, d, e];
    RunAppend(s, [a, b], [c, d, e]);
    RunTwo(s, a, b);

    assert [c, d, e][1..] == [d, e];
    RunTwo(Next(s2, c), d, e);
  }

  lemma RunTwo(s: State, a: Step, b: Step)
    ensures Run(s, [a, b]) == Next(Next(s, a), b)
  {
    hide Next;
    assert [a, b][1..] == [b] && [b][1..] == [];
    assert Run(s, [a, b]) == Run(Next(s, a), [b]);
  }

  /** The listed rows are there, each listed once. */
  ghost predicate OnceEach(ids: seq<RowId>, rows: map<RowId, Row>) {
    (forall i :: 0 <= i < |ids| ==> ids[i] in rows) && forall i, j :: 0 <= i < j < |ids| ==> ids[i] != ids[j]
  }

  lemma ListsOnceEach(ids: seq<RowId>, rows: map<RowId, Row>)
    requires Lists(ids, rows)
    ensures OnceEach(ids, rows)
  {
    forall i | 0 <= i < |ids| ensures ids[i] in rows { assert ids[i] in multiset(ids); }
    forall i, j | 0 <= i < j < |ids| ensures ids[i] != ids[j] {
      assert ids == ids[..i] + [ids[i]] + ids[i + 1..j] + [ids[j]] + ids[j + 1..];
      assert multiset(rows.Keys)[ids[i]] <= 1;
    }
  }

  /** Neither keeping the rows nor removing the first one disturbs the rest of the list. */
  lemma OnceEachNext(ids: seq<RowId>, rows: map<RowId, Row>)
    requires OnceEach(ids, rows) && ids != []
    ensures ids[0] in rows && OnceEach(ids[1..], rows) && OnceEach(ids[1..], rows - {ids[0]})
  {
  }

  lemma ListStep(s: State, ids: seq<RowId>, now: int)
    requires s.mode.Down? && Lists(ids, s.rows)
    ensures Next(s, ListRows(ids, now)) == s.(mode := Booting(ids, now - INFLIGHT_MAX_AGE_MS))
  {
  }

  lemma CrashStep(s: State)
    ensures Next(s, Crash) == Crashed(s)
  {
  }

  lemma DeleteStep(s: State, j: nat, outcome: Outcome)
    requires j < |s.queue.running| && s.queue.running[j].item.inflightId.Some?
    ensures Next(s, DeleteRow(j, outcome))
         == DropRow(s, s.queue.running[j].item.inflightId.value, Dispatched(outcome))
  {
  }

  lemma BootDoneStep(s: State)
    requires s.mode.Booting? && |s.mode.todo| == 0
    ensures Next(s, BootDone) == s.(mode := Up)
  {
  }

  lemma RemoveMissing(rows: map<RowId, Row>, id: RowId)
    ensures id !in rows ==> rows - {id} == rows
  {
  }

  function Replays(k: nat): seq<Step> {
    seq(k, _ => BootNext)
  }

  function BootSteps(ids: seq<RowId>, now: int): seq<Step> {
    [ListRows(ids, now)] + Replays(|ids|) + [BootDone]
  }

  lemma ReplaysSnoc(s: State, k: nat)
    ensures Run(s, Replays(k + 1)) == Next(Run(s, Replays(k)), BootNext)
  {
    hide Next;
    assert Replays(k + 1) == Replays(k) + [BootNext];
    RunAppend(s, Replays(k), [BootNext]);
  }

  lemma BootRun(s: State, ids: seq<RowId>, now: int)
    ensures Run(s, BootSteps(ids, now)) == Next(Run(Next(s, ListRows(ids, now)), Replays(|ids|)), BootDone)
  {
    hide Next;
    RunAppend(s, [ListRows(ids, now)] + Replays(|ids|), [BootDone]);
    RunAppend(s, [ListRows(ids, now)], Replays(|ids|));
  }
}
