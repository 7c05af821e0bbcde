/**
 * What becomes of a marked event when clocks never run backwards: the rows a boot from now on
 * would find too old are given up, so an event is doomed sooner than `EventFate` says of
 * arbitrary continuations.
 */
module ClockedFate {
  import opened Options
  import opened Engine
  import opened EventFate
  import Q = Queue

  // ---------------------------------------------------------------------------
  // Continuations of the present
  // ---------------------------------------------------------------------------

  /** The present after a step: the clock it reads, if it reads one. */
  function After(step: Step, now: int): int {
    match step
    case WriteRow(_, clock) => clock
    case ListRows(_, clock) => clock
    case _ => now
  }

  /** No step reads a clock below the present. */
  predicate Forward(steps: seq<Step>, now: int)
    decreases |steps|
  {
    steps != [] ==> now <= After(steps[0], now) && Forward(steps[1..], After(steps[0], now))
  }

  /** Marked as seen, and handed to the processor in no continuation of the present. */
  ghost predicate DoomedFrom(s: State, t: Triple, now: int) {
    t in s.dedup && forall steps: seq<Step> :: Forward(steps, now) ==> !HandedOver(Run(s, steps), t)
  }

  // ---------------------------------------------------------------------------
  // Rows that nothing will hand over
  // ---------------------------------------------------------------------------

  ghost predicate InDelivery(s: State, id: RowId)
    requires id in s.born
  {
    Written(s.born[id].row.event, id) in s.threads
  }

  /** Ahead in a boot list whose cutoff it meets. */
  ghost predicate InBootList(s: State, id: RowId) {
    s.mode.Booting? && id in s.mode.todo && id in s.rows && s.mode.cutoff <= s.rows[id].startedAt
  }

  ghost predicate InQueue(s: State, id: RowId)
    requires id in s.born
  {
    JobOf(id, s.born[id].row) in Q.Waiting(s.queue, s.born[id].row.event.key)
  }

  /** Young enough for a boot that lists it now. */
  ghost predicate InTime(s: State, id: RowId, now: int) {
    id in s.rows && now - INFLIGHT_MAX_AGE_MS <= s.rows[id].startedAt
  }

  ghost predicate Adrift(s: State, id: RowId, now: int) {
    && id in s.born && Handed(s, id) == 0
    && !InDelivery(s, id) && !InBootList(s, id) && !InQueue(s, id) && !InTime(s, id, now)
  }

  /** Marked as seen, with no delivery to write its row, and the row it has, if any, adrift. */
  ghost predicate StrandedFrom(s: State, t: Triple, now: int) {
    && t in s.dedup && (forall i :: !MarkedFor(s, i, t))
    && forall id: RowId :: BornFor(s, id, t) ==> Adrift(s, id, now)
  }

  // ---------------------------------------------------------------------------
  // It stays that way
  // ---------------------------------------------------------------------------

  lemma RowsOnlyLeave(s: State, step: Step, id: RowId)
    requires id in s.born && s.nextRow !in s.born && id in Next(s, step).rows
    ensures id in s.rows && Next(s, step).rows[id] == s.rows[id]
  {
    hide Q.Enqueue, Q.Complete, Lists;
  }

  lemma DeliveryStays(s: State, step: Step, id: RowId)
    requires id in s.born && s.nextRow !in s.born && !InDelivery(s, id)
    ensures id in Next(s, step).born && !InDelivery(Next(s, step), id)
  {
    hide Q.Enqueue, Q.Complete, Lists;
    BornStays(s, step, id);
  }

  lemma BootListStays(s: State, step: Step, id: RowId, now: int)
    requires id in s.born && s.nextRow !in s.born && !InBootList(s, id) && !InTime(s, id, now)
    requires now <= After(step, now)
    ensures !InBootList(Next(s, step), id) && !InTime(Next(s, step), id, After(step, now))
  {
    var s' := Next(s, step);
    if id in s'.rows { RowsOnlyLeave(s, step, id); }
    hide Q.Enqueue, Q.Complete, Lists;
  }

  /** What a step enqueues is not this row. */
  lemma AddsAnother(s: State, step: Step, id: RowId)
    requires RefsOk(s) && id in s.born && !InDelivery(s, id) && !InBootList(s, id)
    ensures EffectOf(s, step).Adds? ==>
      Q.Job(EffectOf(s, step).entry.event.key, EffectOf(s, step).entry) != JobOf(id, s.born[id].row)
  {
  }

  lemma NoneWaits(capacity: nat, job: Job)
    ensures job !in Q.Waiting(Q.Init<QueueEntry>(capacity), job.key)
  {
  }

  lemma QueueStays(s: State, step: Step, id: RowId)
    requires Inv(s) && id in s.born && !InDelivery(s, id) && !InBootList(s, id) && !InQueue(s, id)
    ensures id in Next(s, step).born && !InQueue(Next(s, step), id) && Handed(Next(s, step), id) == Handed(s, id)
  {
    hide Next, Q.Conserved, Q.Enqueue, Q.Complete, Q.Init, RowOk, RefsOk, InDelivery, InBootList, Q.Waiting, EffectOf;
    RowOfInv(s, id);
    BornStays(s, step, id);
    AddsAnother(s, step, id);
    EffectIs(s, step);
    var job := JobOf(id, s.born[id].row);
    if step == Crash {
      CrashLogs(s, job);
      CrashResets(s);
      NoneWaits(s.queue.capacity, job);
    } else {
      PastStays(s, step);
      match EffectOf(s, step)
      case Keeps =>
      case Resets => OnlyCrashResets(s, step);
      case Completes(j) => Q.CompleteLeaves(s.queue, j, job);
      case Adds(entry) => Q.EnqueueLeaves(s.queue, entry.event.key, entry, job);
    }
  }

  lemma CrashResets(s: State)
    ensures Next(s, Crash).queue == Q.Init(s.queue.capacity)
  {
  }

  lemma OnlyCrashResets(s: State, step: Step)
    requires EffectOf(s, step).Resets?
    ensures step == Crash
  {
  }

  lemma AdriftStays(s: State, step: Step, id: RowId, now: int)
    requires Inv(s) && Adrift(s, id, now) && now <= After(step, now)
    ensures Adrift(Next(s, step), id, After(step, now))
  {
    hide Next, Inv, Handed, InDelivery, InBootList, InQueue, InTime, RowOk, RefsOk, Q.Conserved;
    RowOfInv(s, id);
    DeliveryStays(s, step, id);
    BootListStays(s, step, id, now);
    QueueStays(s, step, id);
  }

  lemma StrandedFromStays(s: State, step: Step, t: Triple, now: int)
    requires Inv(s) && StrandedFrom(s, t, now) && now <= After(step, now)
    ensures StrandedFrom(Next(s, step), t, After(step, now))
  {
    hide Next, MarkedFor, BornFor, Inv, Adrift, After, RowOk, RefsOk, Q.Conserved;
    RowOfInv(s, s.nextRow);
    NextDedup(s, step, t);
    AnswersNewFirst(s, step, t);
    forall i ensures !MarkedFor(Next(s, step), i, t) { MarkedChange(s, step, i, t); }
    forall id: RowId | BornFor(Next(s, step), id, t)
      ensures Adrift(Next(s, step), id, After(step, now))
    {
      BornChange(s, step, id, t);
      if step.WriteRow? { assert !MarkedFor(s, step.i, t); }
      AdriftStays(s, step, id, now);
    }
  }

  lemma {:induction false} StrandedFromIsDoomed(s: State, t: Triple, now: int, steps: seq<Step>)
    requires Inv(s) && StrandedFrom(s, t, now) && Forward(steps, now)
    ensures !HandedOver(Run(s, steps), t)
    decreases |steps|
  {
    hide Next, Inv, Handed, After, InDelivery, InBootList, InQueue, InTime;
    if steps != [] {
      NextInv(s, steps[0]);
      StrandedFromStays(s, steps[0], t, now);
      StrandedFromIsDoomed(Next(s, steps[0]), t, After(steps[0], now), steps[1..]);
    }
  }

  // ---------------------------------------------------------------------------
  // Anything else can still be handed over
  // ---------------------------------------------------------------------------

  lemma NextLively(s: State, step: Step)
    requires Q.Lively(s.queue)
    ensures Q.Lively(Next(s, step).queue)
  {
    hide Next, Q.Lively, Q.Enqueue, Q.Complete, EffectOf;
    EffectIs(s, step);
    match EffectOf(s, step)
    case Keeps =>
    case Resets => Q.InitLively<QueueEntry>(s.queue.capacity);
    case Completes(j) => Q.CompleteLively(s.queue, j);
    case Adds(entry) => Q.EnqueueLively(s.queue, entry.event.key, entry);
  }

  lemma {:induction false} EngineLively(s: State, steps: seq<Step>)
    requires Q.Lively(s.queue)
    ensures Q.Lively(Run(s, steps).queue)
    decreases |steps|
  {
    hide Next, Q.Lively;
    if steps != [] {
      NextLively(s, steps[0]);
      EngineLively(Next(s, steps[0]), steps[1..]);
    }
  }

  /** These steps, none of them earlier than the present, hand the row over. */
  ghost predicate Serves(s: State, steps: seq<Step>, id: RowId, now: int) {
    var s' := Run(s, steps);
    Forward(steps, now) && s'.born == s.born && id in s'.born && Handed(s', id) >= 1
  }

  lemma ServesNone(s: State, id: RowId, now: int)
    requires id in s.born && Handed(s, id) >= 1
    ensures Serves(s, [], id, now)
  {
  }

  lemma ServesStep(s: State, step: Step, more: seq<Step>, id: RowId, now: int)
    requires now <= After(step, now) && Next(s, step).born == s.born && Serves(Next(s, step), more, id, After(step, now))
    ensures Serves(s, [step] + more, id, now)
  {
    hide Next, Handed, After;
    assert ([step] + more)[1..] == more;
  }

  lemma StartedIsHanded(s: State, id: RowId)
    requires id in s.born && JobOf(id, s.born[id].row) in s.queue.started
    ensures Handed(s, id) >= 1
  {
  }

  lemma ResumeIs(s: State, i: nat)
    requires i < |s.queue.running|
    ensures Next(s, Resume(i)).queue == Q.Complete(s.queue, i) && Next(s, Resume(i)).born == s.born
  {
    hide Q.Complete;
  }

  /** The p-th item waiting for its key: ending the jobs before it starts it. */
  lemma {:induction false} WaitingServes(s: State, id: RowId, p: nat, now: int) returns (steps: seq<Step>)
    requires Q.Lively(s.queue) && id in s.born
    requires var row := s.born[id].row;
      p < |Q.Pending(s.queue, row.event.key)| && Q.Pending(s.queue, row.event.key)[p] == EntryOf(id, row)
    ensures Serves(s, steps, id, now)
    decreases p
  {
    hide Q.Lively, Q.Complete, Next, Handed, Q.Pending, Serves;
    var i := Q.CompleteServes(s.queue, s.born[id].row.event.key);
    var s1 := Next(s, Resume(i));
    ResumeIs(s, i);
    if p == 0 {
      StartedIsHanded(s1, id);
      ServesNone(s1, id, now);
      ServesStep(s, Resume(i), [], id, now);
      steps := [Resume(i)] + [];
    } else {
      var more := WaitingServes(s1, id, p - 1, now);
      ServesStep(s, Resume(i), more, id, now);
      steps := [Resume(i)] + more;
    }
  }

  lemma InQueueServes(s: State, id: RowId, now: int) returns (steps: seq<Step>)
    requires Q.Lively(s.queue) && id in s.born && InQueue(s, id)
    ensures Serves(s, steps, id, now)
  {
    hide Q.Lively, Q.Pending, Serves;
    var row := s.born[id].row;
    var p: nat :| p < |Q.Waiting(s.queue, row.event.key)| && Q.Waiting(s.queue, row.event.key)[p] == JobOf(id, row);
    steps := WaitingServes(s, id, p, now);
  }

  /** A row just enqueued. */
  lemma EnqueuedServes(s: State, q: Q.State<QueueEntry>, id: RowId, now: int) returns (steps: seq<Step>)
    requires Q.Lively(q) && id in s.born
    requires var row := s.born[id].row; s.queue == Q.Enqueue(q, row.event.key, EntryOf(id, row))
    ensures Serves(s, steps, id, now)
  {
    hide Q.Lively, Q.Enqueue, Q.Pending, Serves, Handed;
    var row := s.born[id].row;
    Q.EnqueuePlaces(q, row.event.key, EntryOf(id, row));
    if JobOf(id, row) in s.queue.started {
      StartedIsHanded(s, id);
      ServesNone(s, id, now);
      steps := [];
    } else {
      steps := WaitingServes(s, id, |Q.Pending(s.queue, row.event.key)| - 1, now);
    }
  }

  lemma InDeliveryServes(s: State, id: RowId, now: int) returns (steps: seq<Step>)
    requires Q.Lively(s.queue) && id in s.born && s.born[id].row.op == Remote && InDelivery(s, id)
    ensures Serves(s, steps, id, now)
  {
    hide Q.Lively, Q.Enqueue, Serves, Handed;
    var i: nat :| i < |s.threads| && s.threads[i] == Written(s.born[id].row.event, id);
    var more := EnqueuedServes(Next(s, EnqueueRow(i)), s.queue, id, now);
    ServesStep(s, EnqueueRow(i), more, id, now);
    steps := [EnqueueRow(i)] + more;
  }

  /** The boot loop reaches the row. */
  lemma {:induction false} InBootListServes(s: State, id: RowId, now: int) returns (steps: seq<Step>)
    requires Q.Lively(s.queue) && id in s.born && s.born[id].row.op == Remote
    requires InBootList(s, id) && s.rows[id] == s.born[id].row
    ensures Serves(s, steps, id, now)
    decreases if s.mode.Booting? then |s.mode.todo| else 0
  {
    hide Q.Lively, Q.Enqueue, Serves, Handed;
    var s1 := Next(s, BootNext);
    var more;
    if s.mode.todo[0] == id {
      more := EnqueuedServes(s1, s.queue, id, now);
    } else {
      NextLively(s, BootNext);
      more := InBootListServes(s1, id, now);
    }
    ServesStep(s, BootNext, more, id, now);
    steps := [BootNext] + more;
  }

  lemma ForwardBoot(steps: seq<Step>, now: int)
    requires |steps| == 3 && steps[0] == Crash && steps[1].ListRows? && steps[1].now == now && steps[2] == BootNext
    ensures Forward(steps, now)
  {
    assert steps[1..][1..][1..] == [];
    assert Forward(steps[1..][1..], now);
    assert Forward(steps[1..], now);
  }

  lemma InTimeServes(s: State, id: RowId, now: int) returns (steps: seq<Step>)
    requires Inv(s) && InTime(s, id, now) && s.rows[id].op == Remote
    ensures Serves(s, steps, id, now)
  {
    hide Inv, Run, Handed;
    steps := BootHandsOver(s, id, now);
    ForwardBoot(steps, now);
  }

  /** A row of a delivery that is not adrift. */
  lemma NotAdriftServes(s: State, id: RowId, now: int) returns (steps: seq<Step>)
    requires Sound(s) && Q.Lively(s.queue) && id in s.born && s.born[id].delivered && !Adrift(s, id, now)
    ensures Serves(s, steps, id, now)
  {
    hide Q.Lively, Serves, Handed, Inv, Settled, Spent, RowOk, RefsOk, InDelivery, InBootList, InQueue, InTime;
    SettledOf(s, id);
    RowOfInv(s, id);
    RemoteWhenDelivered(s, id);
    if Handed(s, id) >= 1 {
      ServesNone(s, id, now);
      steps := [];
    } else if InDelivery(s, id) {
      steps := InDeliveryServes(s, id, now);
    } else if InQueue(s, id) {
      steps := InQueueServes(s, id, now);
    } else if InBootList(s, id) {
      InRows(s, id, now);
      RowsAreBorn(s, id);
      steps := InBootListServes(s, id, now);
    } else {
      InRows(s, id, now);
      RowsAreBorn(s, id);
      steps := InTimeServes(s, id, now);
    }
  }

  lemma RemoteWhenDelivered(s: State, id: RowId)
    requires Settled(s, id) && id in s.born && s.born[id].delivered
    ensures s.born[id].row.op == Remote
  {
  }

  lemma InRows(s: State, id: RowId, now: int)
    requires InBootList(s, id) || InTime(s, id, now)
    ensures id in s.rows
  {
  }

  lemma ServesHandsOver(s: State, steps: seq<Step>, id: RowId, t: Triple, now: int)
    requires BornFor(s, id, t) && Serves(s, steps, id, now)
    ensures Forward(steps, now) && HandedOver(Run(s, steps), t)
  {
    hide Run, Handed;
    assert BornFor(Run(s, steps), id, t);
  }

  lemma CanBeHandedOverFrom(s: State, t: Triple, now: int) returns (steps: seq<Step>)
    requires Sound(s) && Q.Lively(s.queue) && t in s.dedup && !StrandedFrom(s, t, now)
    ensures Forward(steps, now) && HandedOver(Run(s, steps), t)
  {
    hide Next, Run, Q.Lively, Sound, Inv, Serves, Adrift, MarkedFor, BornFor, HandedOver;
    SettledOf(s, s.nextRow);
    if i :| MarkedFor(s, i, t) {
      var s1 := Next(s, WriteRow(i, now));
      MarkedWrites(s, i, now, t);
      NextInv(s, WriteRow(i, now));
      var more := InTimeServes(s1, s.nextRow, now);
      ServesHandsOver(s1, more, s.nextRow, t, now);
      steps := [WriteRow(i, now)] + more;
      RunFirst(s, WriteRow(i, now), more);
    } else {
      var id: RowId :| BornFor(s, id, t) && !Adrift(s, id, now);
      BornForMeans(s, id, t);
      steps := NotAdriftServes(s, id, now);
      ServesHandsOver(s, steps, id, t, now);
    }
  }

  lemma RunFirst(s: State, step: Step, more: seq<Step>)
    ensures Run(s, [step] + more) == Run(Next(s, step), more)
    ensures ([step] + more)[1..] == more
  {
    hide Next;
    assert ([step] + more)[1..] == more;
  }

  lemma DoomedFromExactly(s: State, t: Triple, now: int)
    requires Sound(s) && Q.Lively(s.queue)
    ensures DoomedFrom(s, t, now) <==> StrandedFrom(s, t, now)
  {
    hide Run, HandedOver, Inv, Settled, Adrift, MarkedFor, BornFor, Forward, Q.Lively;
    if StrandedFrom(s, t, now) {
      forall steps: seq<Step> | Forward(steps, now) ensures !HandedOver(Run(s, steps), t) {
        StrandedFromIsDoomed(s, t, now, steps);
      }
    } else if t in s.dedup {
      var steps := CanBeHandedOverFrom(s, t, now);
    }
  }

  /**
   * After any run from the start: no continuation of the present hands a marked event over if
   * and only if no delivery is about to write its row, and its row, if it was written, was
   * never handed over, is not held by its delivery, waiting in the queue or ahead in a boot
   * list that would replay it, and is gone or more than an hour old.
   */
  lemma NeverHandedOverFromNow(capacity: nat, steps: seq<Step>, t: Triple, now: int)
    ensures var s := Run(Init(capacity), steps);
      DoomedFrom(s, t, now) <==> StrandedFrom(s, t, now)
  {
    hide Run, DoomedFrom, StrandedFrom, Sound, Q.Lively;
    Reached(capacity, steps);
    DoomedFromExactly(Run(Init(capacity), steps), t, now);
  }

  lemma Reached(capacity: nat, steps: seq<Step>)
    ensures Sound(Run(Init(capacity), steps)) && Q.Lively(Run(Init(capacity), steps).queue)
  {
    hide Run, Sound, Q.Lively;
    InitSound(capacity);
    RunSound(Init(capacity), steps);
    Q.InitLively<QueueEntry>(capacity);
    EngineLively(Init(capacity), steps);
  }

  // ---------------------------------------------------------------------------
  // Clocks that may run backwards
  // ---------------------------------------------------------------------------

  lemma StrandedAtAllTimes(s: State, t: Triple)
    requires Sound(s) && forall now :: StrandedFrom(s, t, now)
    ensures Stranded(s, t)
  {
    hide Inv, Settled, Spent, Handed, MarkedFor, BornFor, Adrift;
    assert StrandedFrom(s, t, 0);
    forall id: RowId | BornFor(s, id, t) ensures OutOfReach(s, id) {
      SettledOf(s, id);
      var now := if id in s.rows then s.rows[id].startedAt else 0;
      assert StrandedFrom(s, t, now);
      AdriftIsSpent(s, id, now);
    }
  }

  lemma AdriftIsSpent(s: State, id: RowId, now: int)
    requires Adrift(s, id, now) && Settled(s, id) && (id in s.rows ==> now == s.rows[id].startedAt)
    ensures OutOfReach(s, id)
  {
  }

  /** An event is doomed whatever clocks say exactly when it is doomed from every present. */
  lemma DoomedIsFromAllTimes(capacity: nat, steps: seq<Step>, t: Triple)
    ensures var s := Run(Init(capacity), steps);
      Doomed(s, t) <==> forall now :: DoomedFrom(s, t, now)
  {
    hide Run, Sound, Q.Lively, Stranded, StrandedFrom, HandedOver, Forward, OwnedOnce;
    var s := Run(Init(capacity), steps);
    Reached(capacity, steps);
    InitOwnedOnce(capacity, t);
    RunOwnedOnce(Init(capacity), steps, t);
    if forall now :: DoomedFrom(s, t, now) {
      forall now ensures StrandedFrom(s, t, now) {
        assert DoomedFrom(s, t, now);
        DoomedFromExactly(s, t, now);
      }
      StrandedAtAllTimes(s, t);
      DoomedExactly(s, t);
    }
  }

  /**
   * With room for one key, an event that another key evicted is doomed from the moment its
   * row is more than an hour old, with no boot in sight; only a clock set back could save it.
   */
  lemma EvictedIsDoomedInAnHour(ev: Event, a: Event, b: Event, now: int)
    requires a.key == ev.key && b.key != ev.key
    ensures DoomedFrom(Evicted(ev, a, b), ev.triple, now) <==> now > 60 * 60 * 1000
    ensures !Doomed(Evicted(ev, a, b), ev.triple)
  {
    hide Run, DoomedFrom, Doomed, Handed;
    var s := Evicted(ev, a, b);
    EvictedIs(ev, a, b);
    NeverHandedOverFromNow(1, EvictingSteps(ev, a, b), ev.triple, now);
    DoomedIsFromAllTimes(1, EvictingSteps(ev, a, b), ev.triple);
    NeverHandedOverFromNow(1, EvictingSteps(ev, a, b), ev.triple, 0);
    assert BornFor(s, 0, ev.triple);
    assert InTime(s, 0, 0) && (InTime(s, 0, now) <==> now <= INFLIGHT_MAX_AGE_MS);
    if now > INFLIGHT_MAX_AGE_MS {
      assert Adrift(s, 0, now);
    }
  }
}
