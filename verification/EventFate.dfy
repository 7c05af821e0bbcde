/**
 * What becomes of a webhook event once it is marked as seen: over every run of the engine,
 * whether it is ever handed to the processor, and the only ways in which it never is.
 */
module EventFate {
  import opened Options
  import opened Engine
  import Q = Queue

  // ---------------------------------------------------------------------------
  // What a step does to the queue and its logs
  // ---------------------------------------------------------------------------

  datatype QueueEffect = Keeps | Resets | Completes(j: nat) | Adds(entry: QueueEntry)

  function EffectOf(s: State, step: Step): QueueEffect {
    match step
    case EnqueueRow(i) =>
      if i < |s.threads| && s.threads[i].Written? then Adds(QueueEntry(s.threads[i].ev, false, Some(s.threads[i].row))) else Keeps
    case LocalEvent(ev) => if s.mode.Down? then Keeps else Adds(QueueEntry(ev, true, None))
    case BootNext =>
      if s.mode.Booting? && |s.mode.todo| > 0 && s.mode.todo[0] in s.rows
         && s.rows[s.mode.todo[0]].startedAt >= s.mode.cutoff && !s.rows[s.mode.todo[0]].op.Unknown?
      then Adds(EntryOf(s.mode.todo[0], s.rows[s.mode.todo[0]])) else Keeps
    case Resume(j) => if j < |s.queue.running| then Completes(j) else Keeps
    case Crash => Resets
    case _ => Keeps
  }

  lemma EffectIs(s: State, step: Step)
    ensures var q := Next(s, step).queue;
      match EffectOf(s, step)
      case Keeps => q == s.queue
      case Resets => q == Q.Init(s.queue.capacity)
      case Completes(j) => j < |s.queue.running| && q == Q.Complete(s.queue, j)
      case Adds(entry) => q == Q.Enqueue(s.queue, entry.event.key, entry)
  {
    hide Q.Enqueue, Q.Complete, Q.Init, Lists;
  }

  // ---------------------------------------------------------------------------
  // A row that is gone
  // ---------------------------------------------------------------------------

  /** How many deliveries, boot-list places and queue entries hold the row. */
  function Held(s: State, id: RowId): nat
    requires id in s.born
  {
    Tokens(s.threads, Todo(s), s.queue.enqueued, id, s.born[id].row)
  }

  /** How often the row's event was handed to the processor. */
  function Handed(s: State, id: RowId): nat
    requires id in s.born
  {
    Dispatches(s, id, s.born[id].row)
  }

  /** How often, in this epoch. */
  function Started(s: State, id: RowId): nat
    requires id in s.born
  {
    multiset(s.queue.started)[JobOf(id, s.born[id].row)]
  }

  ghost predicate Gone(s: State, id: RowId) {
    id in s.born && id !in s.rows
  }

  /** A gone row stays gone, and nothing new holds it. */
  ghost predicate Fades(s: State, s': State, id: RowId)
    requires Gone(s, id)
  {
    Gone(s', id) && s'.born[id] == s.born[id] && Held(s', id) <= Held(s, id)
  }

  /** Gone, and held only by a job that was started already. */
  ghost predicate Spent(s: State, id: RowId) {
    Gone(s, id) && Held(s, id) <= Started(s, id)
  }

  lemma BornStays(s: State, step: Step, id: RowId)
    requires id in s.born && s.nextRow !in s.born
    ensures id in Next(s, step).born && Next(s, step).born[id] == s.born[id]
  {
    hide Q.Enqueue, Q.Complete;
  }

  lemma RowOfInv(s: State, id: RowId)
    requires Inv(s)
    ensures RowOk(s, id) && RefsOk(s) && Q.Conserved(s.queue) && s.nextRow !in s.born
  {
    assert RowOk(s, id);
    NextRowUnborn(s);
  }

  lemma FadesThread(s: State, i: nat, d: Delivery, dedup: set<Triple>, id: RowId)
    requires Gone(s, id) && i < |s.threads| && d != Written(s.born[id].row.event, id)
    ensures Fades(s, s.(threads := s.threads[i := d], dedup := dedup), id)
  {
    SetThread(s.threads, i, d);
  }

  lemma FadesEnqueue(s: State, entry: QueueEntry, id: RowId)
    requires Gone(s, id) && Q.Conserved(s.queue)
    requires Q.Job(entry.event.key, entry) != JobOf(id, s.born[id].row)
    ensures Fades(s, Enqueue(s, entry), id)
  {
    hide Q.Enqueue, Q.Conserved;
    Q.EnqueueLogs(s.queue, entry.event.key, entry);
  }

  lemma FadesReplay(s: State, id: RowId)
    requires Gone(s, id) && Q.Conserved(s.queue) && s.mode.Booting? && |s.mode.todo| > 0
    ensures Fades(s, Replay(s), id)
  {
    hide Q.Conserved, Enqueue;
    var head := s.mode.todo[0];
    PopTodo(s, head);
    var s1 := s.(mode := s.mode.(todo := s.mode.todo[1..]));
    if head in s.rows { FadesEnqueue(s1, EntryOf(head, s.rows[head]), id); }
  }

  lemma FadesDeliver(s: State, ev: Event, id: RowId)
    requires Gone(s, id)
    ensures Fades(s, s.(threads := s.threads + [Looking(ev)]), id)
  {
    assert multiset(s.threads + [Looking(ev)]) == multiset(s.threads) + multiset{Looking(ev)};
  }

  lemma FadesAddRow(s: State, row: Row, delivered: bool, id: RowId)
    requires Gone(s, id) && id < s.nextRow
    ensures Fades(s, AddRow(s, row, delivered), id)
  {
  }

  lemma FadesWriteRow(s: State, i: nat, now: int, id: RowId)
    requires Gone(s, id) && id < s.nextRow && i < |s.threads| && s.threads[i].Marked?
    ensures Fades(s, Next(s, WriteRow(i, now)), id)
  {
    hide AddRow, Tokens;
    var ev := s.threads[i].ev;
    FadesThread(s, i, Written(ev, s.nextRow), s.dedup, id);
    FadesAddRow(s.(threads := s.threads[i := Written(ev, s.nextRow)]), Row(ev, Remote, now), true, id);
  }

  lemma ThreadCount(threads: seq<Delivery>, i: nat, d: Delivery, other: Delivery)
    requires i < |threads| && d != other
    ensures multiset(threads[i := d])[other] == multiset(threads)[other] - if threads[i] == other then 1 else 0
  {
    SetThread(threads, i, d);
  }

  lemma JobCount(jobs: seq<Job>, job: Job, other: Job)
    ensures multiset(jobs + [job])[other] == multiset(jobs)[other] + if job == other then 1 else 0
  {
  }

  /** Handing a row on from its delivery to the queue leaves one holder where there was one. */
  lemma FadesEnqueueRow(s: State, i: nat, id: RowId)
    requires Gone(s, id) && Q.Conserved(s.queue) && i < |s.threads| && s.threads[i].Written?
    ensures Fades(s, Next(s, EnqueueRow(i)), id)
  {
    hide Q.Conserved, Q.Enqueue;
    var Written(ev, other) := s.threads[i];
    var job, entry := JobOf(id, s.born[id].row), QueueEntry(ev, false, Some(other));
    Q.EnqueueLogs(s.queue, ev.key, entry);
    ThreadCount(s.threads, i, Finished(ev), Written(s.born[id].row.event, id));
    JobCount(s.queue.enqueued, Q.Job(ev.key, entry), job);
  }

  lemma FadesLocal(s: State, ev: Event, id: RowId)
    requires Gone(s, id) && Q.Conserved(s.queue)
    ensures Fades(s, Enqueue(s, QueueEntry(ev, true, None)), id)
  {
    hide Q.Conserved, Enqueue;
    FadesEnqueue(s, QueueEntry(ev, true, None), id);
  }

  lemma FadesDropRow(s: State, other: RowId, why: Reason, id: RowId)
    requires Gone(s, id)
    ensures Fades(s, DropRow(s, other, why), id)
  {
  }

  lemma FadesResume(s: State, j: nat, id: RowId)
    requires Gone(s, id) && Q.Conserved(s.queue) && j < |s.queue.running|
    ensures Fades(s, Next(s, Resume(j)), id)
  {
    hide Q.Conserved, Q.Complete;
    Q.CompleteLogs(s.queue, j);
  }

  lemma FadesCrash(s: State, id: RowId)
    requires Gone(s, id)
    ensures Fades(s, Crashed(s), id) && Held(Crashed(s), id) == 0
  {
  }

  lemma FadesMode(s: State, mode: Mode, id: RowId)
    requires Gone(s, id)
    requires match mode
      case Booting(todo, _) => Lists(todo, s.rows)
      case _ => true
    ensures Fades(s, s.(mode := mode), id)
  {
    if mode.Booting? { assert multiset(s.rows.Keys)[id] == 0; }
  }

  lemma FadesNot(s: State, id: RowId)
    requires Gone(s, id)
    ensures Fades(s, s, id)
  {
  }

  /** A step of a delivery. */
  predicate OfDelivery(step: Step) {
    step.Import? || step.Deliver? || step.Find? || step.Mark? || step.WriteRow? || step.EnqueueRow? || step.Throw?
  }

  lemma FadesInDelivery(s: State, step: Step, id: RowId)
    requires Inv(s) && Gone(s, id) && OfDelivery(step)
    ensures Fades(s, Next(s, step), id)
  {
    hide Fades, Inv, Q.Conserved, Enqueue, Replay, AddRow, DropRow, Crashed, Lists, RowOk, RefsOk, Q.Complete;
    RowOfInv(s, id);
    IdIsOld(s, id);
    FadesNot(s, id);
    match step
    case Import(row) => FadesAddRow(s, row, false, id);
    case Deliver(ev) => FadesDeliver(s, ev, id);
    case Find(i) =>
      if i < |s.threads| {
        FadesThread(s, i, Finished(s.threads[i].ev), s.dedup, id);
        FadesThread(s, i, Inserting(s.threads[i].ev), s.dedup, id);
      }
    case Mark(i) =>
      if i < |s.threads| {
        FadesThread(s, i, Finished(s.threads[i].ev), s.dedup, id);
        FadesThread(s, i, Marked(s.threads[i].ev), s.dedup + {s.threads[i].ev.triple}, id);
      }
    case WriteRow(i, now) => if i < |s.threads| && s.threads[i].Marked? { FadesWriteRow(s, i, now, id); }
    case EnqueueRow(i) => if i < |s.threads| && s.threads[i].Written? { FadesEnqueueRow(s, i, id); }
    case Throw(i) => if i < |s.threads| { FadesThread(s, i, Finished(s.threads[i].ev), s.dedup, id); }
  }

  lemma FadesStep(s: State, step: Step, id: RowId)
    requires Inv(s) && Gone(s, id)
    ensures Fades(s, Next(s, step), id)
  {
    hide Fades, Inv, Q.Conserved, Enqueue, Replay, AddRow, DropRow, Crashed, Lists, RowOk, RefsOk, Q.Complete;
    RowOfInv(s, id);
    FadesNot(s, id);
    if OfDelivery(step) {
      FadesInDelivery(s, step, id);
      return;
    }
    match step
    case LocalEvent(ev) => FadesLocal(s, ev, id);
    case DeleteRow(j, outcome) =>
      if j < |s.queue.running| && s.queue.running[j].item.inflightId.Some? {
        FadesDropRow(s, s.queue.running[j].item.inflightId.value, Dispatched(outcome), id);
      }
    case Resume(j) => if j < |s.queue.running| { FadesResume(s, j, id); }
    case Crash => FadesCrash(s, id);
    case ListRows(ids, now) => if Lists(ids, s.rows) { FadesMode(s, Booting(ids, now - INFLIGHT_MAX_AGE_MS), id); }
    case BootNext => if s.mode.Booting? && |s.mode.todo| > 0 { FadesReplay(s, id); }
    case BootDone => FadesMode(s, Up, id);
    case _ =>
  }

  lemma IdIsOld(s: State, id: RowId)
    requires RowOk(s, id) && id in s.born
    ensures id < s.nextRow
  {
  }

  lemma PastStays(s: State, step: Step)
    requires step != Crash
    ensures Next(s, step).past == s.past
  {
    hide Q.Enqueue, Q.Complete, Lists;
  }

  lemma LogsOnlyGrow(s: State, step: Step)
    requires Q.Conserved(s.queue) && step != Crash
    ensures Next(s, step).past == s.past
    ensures s.queue.started <= Next(s, step).queue.started
  {
    hide Next, Q.Conserved, Q.Enqueue, Q.Complete;
    PastStays(s, step);
    EffectIs(s, step);
    match EffectOf(s, step)
    case Completes(j) => Q.CompleteLogs(s.queue, j);
    case Adds(entry) => Q.EnqueueLogs(s.queue, entry.event.key, entry);
    case _ =>
  }

  lemma HandedGrows(s: State, step: Step, id: RowId)
    requires Inv(s) && id in s.born
    ensures id in Next(s, step).born && Handed(s, id) <= Handed(Next(s, step), id)
    ensures step != Crash ==> Started(s, id) <= Started(Next(s, step), id)
  {
    hide Q.Conserved, Next, RowOk, RefsOk, Inv;
    RowOfInv(s, id);
    BornStays(s, step, id);
    var job := JobOf(id, s.born[id].row);
    if step == Crash {
      CrashLogs(s, job);
    } else {
      LogsOnlyGrow(s, step);
      Q.PrefixCount(s.queue.started, Next(s, step).queue.started, job);
    }
  }

  /** A job starts no more often than it is held. */
  lemma StartedIsHeld(s: State, id: RowId)
    requires Q.Conserved(s.queue) && id in s.born
    ensures Started(s, id) <= Held(s, id)
  {
    Q.ConservedCount(s.queue, JobOf(id, s.born[id].row));
  }

  /** A spent row stays spent and is not handed over again. */
  lemma SpentStep(s: State, step: Step, id: RowId)
    requires Inv(s) && Spent(s, id)
    ensures Spent(Next(s, step), id) && Handed(Next(s, step), id) == Handed(s, id)
  {
    hide Q.Conserved, Next, RowOk, RefsOk, Inv, Tokens;
    FadesStep(s, step, id);
    HandedGrows(s, step, id);
    NextInv(s, step);
    RowOfInv(s, id);
    RowOfInv(Next(s, step), id);
    StartedIsHeld(Next(s, step), id);
    if step == Crash {
      CrashIs(s);
      FadesCrash(s, id);
      CrashLogs(s, JobOf(id, s.born[id].row));
    } else {
      LogsOnlyGrow(s, step);
    }
  }

  lemma CrashIs(s: State)
    ensures Next(s, Crash) == Crashed(s)
  {
  }

  lemma CrashLogs(s: State, job: Job)
    ensures multiset(Next(s, Crash).past)[job] == multiset(s.past)[job] + multiset(s.queue.started)[job]
    ensures Next(s, Crash).queue.started == []
  {
  }

  // ---------------------------------------------------------------------------
  // What the runs from the initial state keep besides the engine's invariant
  // ---------------------------------------------------------------------------

  /** A delivered row is a remote one, and a gone row is spent. */
  ghost predicate Settled(s: State, id: RowId) {
    id in s.born ==>
      && (s.born[id].delivered ==> s.born[id].row.op == Remote)
      && (id !in s.rows ==> Spent(s, id))
  }

  ghost predicate Sound(s: State) {
    Inv(s) && forall id :: Settled(s, id)
  }

  lemma NewlyBorn(s: State, step: Step, id: RowId)
    requires Inv(s) && id !in s.born && id in Next(s, step).born
    ensures Next(s, step).born[id].delivered ==> Next(s, step).born[id].row.op == Remote
    ensures id in Next(s, step).rows
  {
    hide Q.Enqueue, Q.Complete, Replay, Lists;
    RowOfInv(s, id);
    if step.BootNext? && s.mode.Booting? && |s.mode.todo| > 0 { BornOfReplay(s); }
  }

  lemma DroppedIsSpent(s: State, id: RowId, why: Reason)
    requires RowOk(s, id) && AtHead(s, id) && id in s.rows && id in s.born
    ensures Spent(DropRow(s.(mode := s.mode.(todo := s.mode.todo[1..])), id, why), id)
  {
    PopTodo(s, id);
  }

  lemma DeletedIsSpent(s: State, j: nat, outcome: Outcome, id: RowId)
    requires RefsOk(s) && Q.Conserved(s.queue) && RowOk(s, id) && id in s.rows && id in s.born && s.born[id].row == s.rows[id]
    requires j < |s.queue.running| && s.queue.running[j] == JobOf(id, s.rows[id])
    ensures Spent(DropRow(s, id, Dispatched(outcome)), id)
  {
    hide Q.Conserved;
    RunningIsEnqueued(s, j);
  }

  /** A row is spent when it leaves. */
  lemma LeavesSpent(s: State, step: Step, id: RowId)
    requires Inv(s) && id in s.rows && id !in Next(s, step).rows
    ensures Spent(Next(s, step), id)
  {
    hide Q.Conserved, Q.Complete, Q.Enqueue, Spent, RowOk, RefsOk, Inv;
    RowOfInv(s, id);
    RowsAreBorn(s, id);
    RowLeavesOnlyBy(s, step, id);
    if step.DeleteRow? {
      DeletedIsSpent(s, step.j, step.outcome, id);
    } else {
      DroppedIsSpent(s, id, Stale(s.mode.cutoff));
      DroppedIsSpent(s, id, UnknownOp);
    }
  }

  lemma NextSettled(s: State, step: Step, id: RowId)
    requires Sound(s)
    ensures Settled(Next(s, step), id)
  {
    hide Next, Spent, Inv, RowOk, RefsOk, Q.Conserved;
    RowOfInv(s, id);
    assert Settled(s, id);
    if id in s.born {
      BornStays(s, step, id);
      if id !in s.rows { SpentStep(s, step, id); }
      else if id !in Next(s, step).rows { LeavesSpent(s, step, id); }
    } else if id in Next(s, step).born {
      NewlyBorn(s, step, id);
    }
  }

  lemma NextSound(s: State, step: Step)
    requires Sound(s)
    ensures Sound(Next(s, step))
  {
    hide Next, Inv, Settled;
    NextInv(s, step);
    forall id ensures Settled(Next(s, step), id) { NextSettled(s, step, id); }
  }

  lemma {:induction false} RunSound(s: State, steps: seq<Step>)
    requires Sound(s)
    ensures Sound(Run(s, steps))
    decreases |steps|
  {
    hide Next, Sound;
    if steps != [] {
      NextSound(s, steps[0]);
      RunSound(Next(s, steps[0]), steps[1..]);
    }
  }

  lemma InitSound(capacity: nat)
    ensures Sound(Init(capacity))
  {
    InitInv(capacity);
  }

  // ---------------------------------------------------------------------------
  // Never handed over
  // ---------------------------------------------------------------------------

  ghost predicate HandedOver(s: State, t: Triple) {
    exists id: RowId :: BornFor(s, id, t) && Handed(s, id) >= 1
  }

  /** Marked as seen, not handed to the processor, and handed over in no continuation whatever. */
  ghost predicate Doomed(s: State, t: Triple) {
    t in s.dedup && forall steps: seq<Step> :: !HandedOver(Run(s, steps), t)
  }

  /** Held nowhere, and never handed over. */
  ghost predicate OutOfReach(s: State, id: RowId) {
    Spent(s, id) && Handed(s, id) == 0
  }

  /** Marked as seen, with no delivery to carry it on and no row that is left or was handed over. */
  ghost predicate Stranded(s: State, t: Triple) {
    && t in s.dedup && (forall i :: !MarkedFor(s, i, t))
    && forall id: RowId :: BornFor(s, id, t) ==> OutOfReach(s, id)
  }

  lemma BornForStays(s: State, step: Step, id: RowId, t: Triple)
    requires s.nextRow !in s.born
    ensures BornFor(s, id, t) ==> BornFor(Next(s, step), id, t)
  {
    BornChange(s, step, id, t);
  }

  lemma StrandedStays(s: State, step: Step, t: Triple)
    requires Inv(s) && Stranded(s, t)
    ensures Stranded(Next(s, step), t)
  {
    hide Next, MarkedFor, BornFor, Inv, OutOfReach, RowOk, RefsOk, Q.Conserved;
    RowOfInv(s, s.nextRow);
    NextDedup(s, step, t);
    AnswersNewFirst(s, step, t);
    forall i ensures !MarkedFor(Next(s, step), i, t) { MarkedChange(s, step, i, t); }
    forall id: RowId | BornFor(Next(s, step), id, t)
      ensures OutOfReach(Next(s, step), id)
    {
      BornChange(s, step, id, t);
      if step.WriteRow? { assert !MarkedFor(s, step.i, t); }
      StaysOutOfReach(s, step, id);
    }
  }

  lemma StaysOutOfReach(s: State, step: Step, id: RowId)
    requires Inv(s) && OutOfReach(s, id)
    ensures OutOfReach(Next(s, step), id)
  {
    hide Next, Inv;
    SpentStep(s, step, id);
  }

  lemma {:induction false} StrandedIsDoomed(s: State, t: Triple, steps: seq<Step>)
    requires Inv(s) && Stranded(s, t)
    ensures !HandedOver(Run(s, steps), t)
    decreases |steps|
  {
    hide Next, Inv, Spent, Handed;
    if steps != [] {
      NextInv(s, steps[0]);
      StrandedStays(s, steps[0], t);
      StrandedIsDoomed(Next(s, steps[0]), t, steps[1..]);
    }
  }

  // ---------------------------------------------------------------------------
  // Anything else can still be handed over
  // ---------------------------------------------------------------------------

  lemma {:induction false} AsSequence(ids: set<RowId>) returns (r: seq<RowId>)
    ensures multiset(r) == multiset(ids)
  {
    if ids == {} {
      r := [];
    } else {
      var id :| id in ids;
      var rest := AsSequence(ids - {id});
      r := [id] + rest;
    }
  }

  /** Replaying a row in time, right after a boot, starts its event at once. */
  lemma ReplayHandsOver(s: State, ids: seq<RowId>, id: RowId, row: Row)
    requires id in s.rows && s.rows[id] == row && !row.op.Unknown? && s.queue == Q.Init(s.queue.capacity)
    requires s.mode.Booting? && s.mode.todo == [id] + ids && s.mode.cutoff <= row.startedAt
    ensures var s' := Next(s, BootNext);
      s'.queue.started == [JobOf(id, row)] && s'.past == s.past && s'.born == s.born
  {
    hide Q.Enqueue;
    EnqueueOnEmpty(s.queue.capacity, row.event.key, EntryOf(id, row));
  }

  /** A crash and a boot within the hour that lists the row first. */
  lemma BootHandsOver(s: State, id: RowId, now: int) returns (steps: seq<Step>)
    requires Inv(s) && id in s.rows && !s.rows[id].op.Unknown? && now - INFLIGHT_MAX_AGE_MS <= s.rows[id].startedAt
    ensures |steps| == 3 && steps[0] == Crash && steps[1].ListRows? && steps[1].now == now && steps[2] == BootNext
    ensures Run(s, steps).born == s.born && id in s.born && Handed(Run(s, steps), id) >= 1
  {
    hide Inv, Q.Conserved, Q.Enqueue, Replay, RowOk, RefsOk;
    RowOfInv(s, id);
    RowsAreBorn(s, id);
    var rest := AsSequence(s.rows.Keys - {id});
    var ids := [id] + rest;
    assert multiset(ids) == multiset(s.rows.Keys);
    steps := [Crash, ListRows(ids, now), BootNext];
    RunThree(s, Crash, ListRows(ids, now), BootNext);
    var s2 := Crashed(s).(mode := Booting(ids, now - INFLIGHT_MAX_AGE_MS));
    assert Next(Crashed(s), ListRows(ids, now)) == s2;
    ReplayHandsOver(s2, rest, id, s.rows[id]);
  }

  lemma RowsAreBorn(s: State, id: RowId)
    requires RowOk(s, id) && RefsOk(s) && id in s.rows
    ensures id in s.born && s.born[id].row == s.rows[id]
  {
  }

  lemma EnqueueOnEmpty(capacity: nat, key: Q.Key, entry: QueueEntry)
    ensures Q.Enqueue(Q.Init(capacity), key, entry).started == [Q.Job(key, entry)]
    ensures Q.Enqueue(Q.Init(capacity), key, entry).running == [Q.Job(key, entry)]
  {
    var evicted := Q.Evict(Q.Init<QueueEntry>(capacity), key);
    assert evicted.queues == map[];
    var pushed := Q.Push(evicted, key, entry);
    assert pushed.queues[key].items == [entry];
  }

  lemma RunThree(s: State, a: Step, b: Step, c: Step)
    ensures Run(s, [a, b, c]) == Next(Next(Next(s, a), b), c)
  {
    hide Next;
    assert [a, b, c][1..] == [b, c] && [b, c][1..] == [c] && [c][1..] == [];
    assert Run(s, [a, b, c]) == Run(Next(s, a), [b, c]) == Run(Next(Next(s, a), b), [c]);
  }

  lemma SettledOf(s: State, id: RowId)
    requires Sound(s)
    ensures Settled(s, id) && Inv(s)
  {
  }

  /** A delivered row that is gone and was never handed over was discarded stale. */
  lemma GoneUnhandedIsStale(s: State, id: RowId)
    requires RowOk(s, id) && Settled(s, id)
    requires id in s.born && s.born[id].delivered && id !in s.rows && Handed(s, id) == 0
    ensures OutOfReach(s, id) && id in s.gone && s.gone[id].Stale?
    ensures s.born[id].row.startedAt < s.gone[id].cutoff
  {
  }

  /** The event of a delivery about to write its row, or of a row that is left, can be handed over. */
  lemma CanBeHandedOver(s: State, t: Triple) returns (steps: seq<Step>)
    requires Sound(s) && OwnedOnce(s, t) && t in s.dedup && !Stranded(s, t)
    ensures HandedOver(Run(s, steps), t)
  {
    hide Next, OwnedOnce, Inv, RowOk, RefsOk, Q.Conserved, Spent, Handed, Settled, MarkedFor, BornFor;
    if i :| MarkedFor(s, i, t) {
      var s1 := Next(s, WriteRow(i, 0));
      MarkedWrites(s, i, 0, t);
      SettledOf(s, s.nextRow);
      NextInv(s, WriteRow(i, 0));
      var more := RowHandsOver(s1, s.nextRow, t);
      steps := [WriteRow(i, 0)] + more;
      assert steps[1..] == more;
    } else {
      var id: RowId :| BornFor(s, id, t) && !OutOfReach(s, id);
      SettledOf(s, id);
      RowOfInv(s, id);
      BornForMeans(s, id, t);
      if Handed(s, id) >= 1 {
        HandedOverBy(s, id, t);
        steps := [];
      } else if id in s.rows {
        DeliveredIsRemote(s, id);
        steps := RowHandsOver(s, id, t);
      } else {
        GoneUnhandedIsStale(s, id);
        steps := [];
      }
    }
  }

  lemma HandedOverBy(s: State, id: RowId, t: Triple)
    requires BornFor(s, id, t) && Handed(s, id) >= 1
    ensures HandedOver(s, t)
  {
  }

  lemma BornForMeans(s: State, id: RowId, t: Triple)
    requires BornFor(s, id, t)
    ensures id in s.born && s.born[id].delivered && s.born[id].row.event.triple == t
  {
  }

  lemma DeliveredIsRemote(s: State, id: RowId)
    requires RowOk(s, id) && RefsOk(s) && Settled(s, id)
    requires id in s.born && s.born[id].delivered && id in s.rows
    ensures s.rows[id].op == Remote
  {
  }

  lemma MarkedWrites(s: State, i: nat, now: int, t: Triple)
    requires MarkedFor(s, i, t)
    ensures var s' := Next(s, WriteRow(i, now));
      && BornFor(s', s.nextRow, t) && s.nextRow in s'.rows
      && s'.rows[s.nextRow].op == Remote && s'.rows[s.nextRow].startedAt == now
  {
  }

  lemma RowHandsOver(s: State, id: RowId, t: Triple) returns (steps: seq<Step>)
    requires Inv(s) && BornFor(s, id, t) && id in s.rows && s.rows[id].op == Remote
    ensures HandedOver(Run(s, steps), t)
  {
    hide Inv, Run, Handed;
    steps := BootHandsOver(s, id, s.rows[id].startedAt);
    assert BornFor(Run(s, steps), id, t);
  }

  /** An event is doomed exactly when nothing is left that could carry it to the processor. */
  lemma DoomedExactly(s: State, t: Triple)
    requires Sound(s) && OwnedOnce(s, t)
    ensures Doomed(s, t) <==> Stranded(s, t)
  {
    hide Run, HandedOver, OwnedOnce, Inv, Settled, Spent, Handed, MarkedFor, BornFor;
    if Stranded(s, t) {
      forall steps: seq<Step> ensures !HandedOver(Run(s, steps), t) { StrandedIsDoomed(s, t, steps); }
    } else if t in s.dedup {
      var steps := CanBeHandedOver(s, t);
    }
  }

  // ---------------------------------------------------------------------------
  // The steps that doom an event
  // ---------------------------------------------------------------------------

  /**
   * Between the mark and the row, a crash or a failed insert; later, the boot scan of a row
   * that is more than an hour old and was never handed over.
   */
  ghost predicate Dooms(s: State, step: Step, t: Triple) {
    || (exists i :: MarkedFor(s, i, t) && (step == Crash || step == Throw(i)))
    || (step == BootNext && exists id: RowId ::
          AtHead(s, id) && BornFor(s, id, t) && StaleUnhanded(s, id))
  }

  ghost predicate StaleUnhanded(s: State, id: RowId)
    requires AtHead(s, id)
  {
    && id in s.born && Handed(s, id) == 0
    && id in s.rows && s.rows[id].startedAt < s.mode.cutoff
  }

  lemma DoomsStrands(s: State, step: Step, t: Triple)
    requires Sound(s) && OwnedOnce(s, t) && Dooms(s, step, t)
    ensures Stranded(Next(s, step), t)
  {
    hide Next, Inv, RowOk, RefsOk, Q.Conserved, Spent, Handed, Settled, MarkedFor, BornFor;
    RowOfInv(s, s.nextRow);
    SettledOf(s, s.nextRow);
    var s' := Next(s, step);
    NextDedup(s, step, t);
    if i :| MarkedFor(s, i, t) && (step == Crash || step == Throw(i)) {
      forall j ensures !MarkedFor(s', j, t) { MarkedChange(s, step, j, t); }
      forall id: RowId ensures !BornFor(s', id, t) { BornChange(s, step, id, t); }
    } else {
      var id: RowId :| AtHead(s, id) && BornFor(s, id, t) && StaleUnhanded(s, id);
      RowOfInv(s, id);
      BornForMeans(s, id, t);
      StaleLeaves(s, id);
      LeavesSpent(s, step, id);
      forall j ensures !MarkedFor(s', j, t) { MarkedChange(s, step, j, t); }
      forall other: RowId | BornFor(s', other, t) ensures other == id {
        BornChange(s, step, other, t);
      }
    }
  }

  lemma StaleLeaves(s: State, id: RowId)
    requires AtHead(s, id) && StaleUnhanded(s, id)
    ensures var s' := Next(s, BootNext);
      id !in s'.rows && id in s'.born && Handed(s', id) == 0
  {
  }

  lemma OnlyDoomsStrands(s: State, step: Step, t: Triple)
    requires Sound(s) && OwnedOnce(s, t) && !Stranded(s, t) && Stranded(Next(s, step), t)
    ensures Dooms(s, step, t)
  {
    hide Next, Inv, RowOk, RefsOk, Q.Conserved, Spent, Handed, Settled, MarkedFor, BornFor;
    var s' := Next(s, step);
    NextDedup(s, step, t);
    RowOfInv(s, s.nextRow);
    SettledOf(s, s.nextRow);
    if i :| MarkedFor(s, i, t) {
      MarkedChange(s, step, i, t);
      if step.WriteRow? && step.i == i { WrittenIsLeft(s, step, t); }
    } else if t in s.dedup {
      var id: RowId :| BornFor(s, id, t) && !OutOfReach(s, id);
      BornForStays(s, step, id, t);
      BornForMeans(s, id, t);
      HandedGrows(s, step, id);
      RowOfInv(s, id);
      SettledOf(s, id);
      if id !in s.rows { GoneUnhandedIsStale(s, id); }
      OutOfReachIsGone(s', id);
      RowsAreBorn(s, id);
      RowLeavesUnhanded(s, step, id);
    } else {
      AnsweredIsMarked(s, step, t);
    }
  }

  lemma WrittenIsLeft(s: State, step: Step, t: Triple)
    requires step.WriteRow? && MarkedFor(s, step.i, t)
    ensures BornFor(Next(s, step), s.nextRow, t) && !OutOfReach(Next(s, step), s.nextRow)
  {
  }

  lemma OutOfReachIsGone(s: State, id: RowId)
    requires OutOfReach(s, id)
    ensures Gone(s, id) && Handed(s, id) == 0
  {
  }

  lemma AnsweredIsMarked(s: State, step: Step, t: Triple)
    requires AnswersNew(s, step, t)
    ensures MarkedFor(Next(s, step), step.i, t)
  {
  }

  lemma RowLeavesUnhanded(s: State, step: Step, id: RowId)
    requires Inv(s) && id in s.rows && id !in Next(s, step).rows
    requires id in s.born && s.born[id].row == s.rows[id] && s.rows[id].op == Remote && Handed(s, id) == 0
    ensures step == BootNext && AtHead(s, id) && StaleUnhanded(s, id)
  {
    hide Next, Inv, Q.Conserved, RowOk, RefsOk;
    RowLeavesOnlyBy(s, step, id);
    RowOfInv(s, id);
    if step.DeleteRow? { RunningIsEnqueued(s, step.j); }
  }

  ghost predicate DoomsIn(s: State, steps: seq<Step>, t: Triple)
    decreases |steps|
  {
    steps != [] && (Dooms(s, steps[0], t) || DoomsIn(Next(s, steps[0]), steps[1..], t))
  }

  lemma {:induction false} RunStrandsExactly(s: State, steps: seq<Step>, t: Triple)
    requires Sound(s) && OwnedOnce(s, t)
    ensures Stranded(Run(s, steps), t) <==> Stranded(s, t) || DoomsIn(s, steps, t)
    decreases |steps|
  {
    hide Next, Inv, Settled, OwnedOnce, Stranded, Dooms, Sound;
    if steps != [] {
      NextSound(s, steps[0]);
      NextOwnedOnce(s, steps[0], t);
      SettledOf(s, s.nextRow);
      if Stranded(s, t) { StrandedStays(s, steps[0], t); }
      else if Dooms(s, steps[0], t) { DoomsStrands(s, steps[0], t); }
      else if Stranded(Next(s, steps[0]), t) { OnlyDoomsStrands(s, steps[0], t); }
      RunStrandsExactly(Next(s, steps[0]), steps[1..], t);
    }
  }

  /**
   * After any run from the start, an event marked as seen will never be handed to the
   * processor if and only if one of the dooming steps happened to it.
   */
  lemma NeverHandedOverExactly(capacity: nat, steps: seq<Step>, t: Triple)
    ensures Doomed(Run(Init(capacity), steps), t) <==> DoomsIn(Init(capacity), steps, t)
  {
    hide Run, Doomed, Stranded, Sound, OwnedOnce, DoomsIn;
    InitSound(capacity);
    InitOwnedOnce(capacity, t);
    RunSound(Init(capacity), steps);
    RunOwnedOnce(Init(capacity), steps, t);
    DoomedExactly(Run(Init(capacity), steps), t);
    RunStrandsExactly(Init(capacity), steps, t);
    NotStrandedAtFirst(capacity, t);
  }

  lemma NotStrandedAtFirst(capacity: nat, t: Triple)
    ensures !Stranded(Init(capacity), t)
  {
  }

  // ---------------------------------------------------------------------------
  // Where every marked event is
  // ---------------------------------------------------------------------------

  /** Its row was discarded as stale without ever being handed over. */
  ghost predicate DiscardedStale(s: State, id: RowId) {
    && id in s.born && id in s.gone && s.gone[id].Stale?
    && s.born[id].row.startedAt < s.gone[id].cutoff && Handed(s, id) == 0
  }

  lemma DoomedIsLostOrStale(capacity: nat, steps: seq<Step>, t: Triple)
    ensures var s := Run(Init(capacity), steps);
      Doomed(s, t) <==> Lost(s, t) || exists id: RowId :: BornFor(s, id, t) && DiscardedStale(s, id)
  {
    hide Run, Inv, RowOk, RefsOk, Q.Conserved, Spent, Handed, Settled, MarkedFor, BornFor, Doomed, OutOfReach;
    InitSound(capacity);
    InitOwnedOnce(capacity, t);
    RunSound(Init(capacity), steps);
    RunOwnedOnce(Init(capacity), steps, t);
    var s := Run(Init(capacity), steps);
    DoomedExactly(s, t);
    forall id: RowId | BornFor(s, id, t) ensures OutOfReach(s, id) <==> DiscardedStale(s, id) {
      SettledOf(s, id);
      RowOfInv(s, id);
      BornForMeans(s, id, t);
      UnreachableIsStale(s, id);
    }
  }

  lemma UnreachableIsStale(s: State, id: RowId)
    requires RowOk(s, id) && Settled(s, id) && id in s.born && s.born[id].delivered
    ensures OutOfReach(s, id) <==> DiscardedStale(s, id)
  {
  }

  /**
   * After any run from the start, an event marked as seen is held by a delivery that will
   * write its row, or its row survives, or it was handed over, or its row was discarded
   * stale, or the mark alone is left.
   */
  lemma FateOfMarked(capacity: nat, steps: seq<Step>, t: Triple)
    requires t in Run(Init(capacity), steps).dedup
    ensures var s := Run(Init(capacity), steps);
      || (exists i :: MarkedFor(s, i, t))
      || (exists id: RowId :: BornFor(s, id, t) && id in s.rows)
      || HandedOver(s, t)
      || (exists id: RowId :: BornFor(s, id, t) && DiscardedStale(s, id))
      || Lost(s, t)
    ensures var s := Run(Init(capacity), steps);
      Doomed(s, t) <==> Lost(s, t) || exists id: RowId :: BornFor(s, id, t) && DiscardedStale(s, id)
  {
    DoomedIsLostOrStale(capacity, steps, t);
    hide Run, OwnedOnce, Inv, RowOk, RefsOk, Q.Conserved, Spent, Handed, Settled, MarkedFor, BornFor, HandedOver;
    InitSound(capacity);
    RunSound(Init(capacity), steps);
    var s := Run(Init(capacity), steps);
    if id: RowId :| BornFor(s, id, t) {
      SettledOf(s, id);
      RowOfInv(s, id);
      BornForMeans(s, id, t);
      if Handed(s, id) >= 1 { HandedOverBy(s, id, t); }
      else if id !in s.rows { GoneUnhandedIsStale(s, id); }
    }
  }

  lemma {:induction false} SpentForever(s: State, steps: seq<Step>, id: RowId)
    requires Inv(s) && Spent(s, id)
    ensures id in Run(s, steps).born && Handed(Run(s, steps), id) == Handed(s, id)
    decreases |steps|
  {
    hide Next, Inv, Spent;
    SpentIsBorn(s, id);
    if steps != [] {
      SpentStep(s, steps[0], id);
      NextInv(s, steps[0]);
      SpentForever(Next(s, steps[0]), steps[1..], id);
    }
  }

  lemma SpentIsBorn(s: State, id: RowId)
    requires Spent(s, id)
    ensures id in s.born
  {
  }

  /** Once its row is gone an event is not handed over again, whatever happens. */
  lemma GoneIsFinal(capacity: nat, steps: seq<Step>, more: seq<Step>, id: RowId)
    requires id in Run(Init(capacity), steps).born && id !in Run(Init(capacity), steps).rows
    ensures var s := Run(Init(capacity), steps);
      id in Run(s, more).born && Handed(Run(s, more), id) == Handed(s, id)
  {
    hide Run, Inv, Spent;
    InitSound(capacity);
    RunSound(Init(capacity), steps);
    SettledOf(Run(Init(capacity), steps), id);
    SpentForever(Run(Init(capacity), steps), more, id);
  }

  // ---------------------------------------------------------------------------
  // A run for each way of losing an event
  // ---------------------------------------------------------------------------

  const BOOTED: seq<Step> := [ListRows([], 0), BootDone]

  /** A booted process with one delivery that was told its event is new. */
  lemma MarkOne(capacity: nat, ev: Event)
    ensures Run(Init(capacity), BOOTED + [Deliver(ev), Find(0), Mark(0)])
         == Init(capacity).(mode := Up, threads := [Marked(ev)], dedup := {ev.triple})
  {
    hide Q.Init;
    var s0 := Init(capacity);
    RunAppend(s0, BOOTED, [Deliver(ev), Find(0), Mark(0)]);
    assert BOOTED[1..] == [BootDone] && [BootDone][1..] == [];
    assert Lists([], s0.rows);
    var s1 := s0.(mode := Up);
    assert Run(s0, BOOTED) == Run(Next(s0, ListRows([], 0)), [BootDone]) == s1;
    RunThree(s1, Deliver(ev), Find(0), Mark(0));
    assert [Looking(ev)][0 := Inserting(ev)] == [Inserting(ev)];
    assert [Inserting(ev)][0 := Marked(ev)] == [Marked(ev)];
  }

  lemma RunOne(s: State, step: Step)
    ensures Run(s, [step]) == Next(s, step)
  {
    hide Next;
    assert [step][1..] == [];
  }

  /** The process dies, or the insert of the row fails, between the mark and the row. */
  lemma LostInTheWindow(capacity: nat, ev: Event, last: Step)
    requires last == Crash || last == Throw(0)
    ensures var s := Run(Init(capacity), BOOTED + [Deliver(ev), Find(0), Mark(0)] + [last]);
      Doomed(s, ev.triple) && Lost(s, ev.triple)
  {
    hide Run, Doomed, Q.Init;
    var steps := BOOTED + [Deliver(ev), Find(0), Mark(0)];
    MarkOne(capacity, ev);
    RunAppend(Init(capacity), steps, [last]);
    RunOne(Run(Init(capacity), steps), last);
    assert [Marked(ev)][0 := Finished(ev)] == [Finished(ev)];
    DoomedIsLostOrStale(capacity, steps + [last], ev.triple);
  }

  /** A boot more than an hour later discards the only row, if it was never handed over. */
  lemma LateBootDiscards(s: State, id: RowId)
    requires s.rows.Keys == {id} && id in s.born && s.born[id].row == s.rows[id] && Handed(s, id) == 0
    ensures var now := s.rows[id].startedAt + INFLIGHT_MAX_AGE_MS + 1;
      var s' := Run(s, [Crash, ListRows([id], now), BootNext]);
      s'.born == s.born && s'.dedup == s.dedup && DiscardedStale(s', id)
  {
    hide Run, Q.Init, Q.Enqueue;
    var now := s.rows[id].startedAt + INFLIGHT_MAX_AGE_MS + 1;
    RunThree(s, Crash, ListRows([id], now), BootNext);
    assert multiset([id]) == multiset({id});
    var s1 := Crashed(s);
    var s2 := s1.(mode := Booting([id], now - INFLIGHT_MAX_AGE_MS));
    assert Next(s1, ListRows([id], now)) == s2;
    NoneYet(s.queue.capacity, JobOf(id, s.rows[id]));
  }

  lemma NoneYet(capacity: nat, job: Job)
    ensures multiset(Q.Init<QueueEntry>(capacity).started)[job] == 0
  {
  }

  /** The row is written, the process dies, and the next boot comes more than an hour later. */
  lemma LostByALateBoot(capacity: nat, ev: Event)
    ensures var steps := BOOTED + [Deliver(ev), Find(0), Mark(0)] + [WriteRow(0, 0)]
        + [Crash, ListRows([0], INFLIGHT_MAX_AGE_MS + 1), BootNext];
      var s := Run(Init(capacity), steps);
      Doomed(s, ev.triple) && !Lost(s, ev.triple) && BornFor(s, 0, ev.triple) && DiscardedStale(s, 0)
  {
    hide Doomed, Run, Q.Init, DiscardedStale;
    var marked := BOOTED + [Deliver(ev), Find(0), Mark(0)];
    var last := [Crash, ListRows([0], INFLIGHT_MAX_AGE_MS + 1), BootNext];
    MarkOne(capacity, ev);
    RunAppend(Init(capacity), marked, [WriteRow(0, 0)]);
    RunOne(Run(Init(capacity), marked), WriteRow(0, 0));
    var s := Run(Init(capacity), marked + [WriteRow(0, 0)]);
    NoneYet(capacity, JobOf(0, Row(ev, Remote, 0)));
    LateBootDiscards(s, 0);
    RunAppend(Init(capacity), marked + [WriteRow(0, 0)], last);
    DoomedIsLostOrStale(capacity, marked + [WriteRow(0, 0)] + last, ev.triple);
    assert BornFor(Run(Init(capacity), marked + [WriteRow(0, 0)] + last), 0, ev.triple);
  }

  function EvictingSteps(ev: Event, a: Event, b: Event): seq<Step> {
    BOOTED + [Deliver(ev), Find(0), Mark(0)] + ([LocalEvent(a), WriteRow(0, 0), EnqueueRow(0)] + [LocalEvent(b)])
  }

  /** Marked, then made to wait behind a job of its key, then evicted by another key. */
  function Evicted(ev: Event, a: Event, b: Event): State {
    Run(Init(1), EvictingSteps(ev, a, b))
  }

  lemma EvictedIs(ev: Event, a: Event, b: Event)
    requires a.key == ev.key && b.key != ev.key
    ensures var s, row := Evicted(ev, a, b), Row(ev, Remote, 0);
      && s.rows == map[0 := row] && s.born == map[0 := Birth(row, 0, true)] && s.dedup == {ev.triple}
      && s.mode == Up && s.threads == [Finished(ev)]
      && Handed(s, 0) == 0 && Waits(s, JobOf(0, row)) == 0 && JobOf(0, row) in s.queue.dropped
  {
    hide Run, Q.Init, Q.Enqueue, Q.Jobs;
    var marked := BOOTED + [Deliver(ev), Find(0), Mark(0)];
    MarkOne(1, ev);
    var s0 := Run(Init(1), marked);
    RunAppend(Init(1), marked, [LocalEvent(a), WriteRow(0, 0), EnqueueRow(0)] + [LocalEvent(b)]);
    RunAppend(s0, [LocalEvent(a), WriteRow(0, 0), EnqueueRow(0)], [LocalEvent(b)]);
    RunThree(s0, LocalEvent(a), WriteRow(0, 0), EnqueueRow(0));
    Q.EnqueueFirst(ev.key, QueueEntry(a, true, None));
    var q1 := Q.Enqueue(Q.Init<QueueEntry>(1), ev.key, QueueEntry(a, true, None));
    var entry := QueueEntry(ev, false, Some(0));
    Q.EnqueueBehind(q1, ev.key, entry);
    var q2 := Q.Enqueue(q1, ev.key, entry);
    var s2 := Run(s0, [LocalEvent(a), WriteRow(0, 0), EnqueueRow(0)]);
    assert s2.queue == q2;
    RunOne(s2, LocalEvent(b));
    Q.EnqueueReplaces(q2, ev.key, b.key, QueueEntry(b, true, None));
    Q.JobsHead(ev.key, [entry]);
    assert Q.Waiting(q2, ev.key)[0] == JobOf(0, Row(ev, Remote, 0));
  }

  /**
   * With room for one key: the event waits behind a job of its key, another key evicts it,
   * and the next boot comes more than an hour later. No crash hit the window.
   */
  lemma LostByEviction(ev: Event, a: Event, b: Event)
    requires a.key == ev.key && b.key != ev.key
    ensures var s := Evicted(ev, a, b);
      && Waits(s, JobOf(0, Row(ev, Remote, 0))) == 0 && JobOf(0, Row(ev, Remote, 0)) in s.queue.dropped
      && var s' := Run(s, [Crash, ListRows([0], INFLIGHT_MAX_AGE_MS + 1), BootNext]);
      BornFor(s', 0, ev.triple) && DiscardedStale(s', 0) && Doomed(s', ev.triple)
  {
    hide Run, DiscardedStale, Doomed;
    EvictedIs(ev, a, b);
    LateBootDiscards(Evicted(ev, a, b), 0);
    var steps := EvictingSteps(ev, a, b);
    RunAppend(Init(1), steps, [Crash, ListRows([0], INFLIGHT_MAX_AGE_MS + 1), BootNext]);
    DoomedIsLostOrStale(1, steps + [Crash, ListRows([0], INFLIGHT_MAX_AGE_MS + 1), BootNext], ev.triple);
  }

  /**
   * However its dispatch ends, dropped by an open breaker or a missing manager included, the
   * event's row goes, its mark stays, and it never comes back.
   */
  lemma DispatchIsFinal(capacity: nat, ev: Event, outcome: Outcome, more: seq<Step>)
    ensures var steps := BOOTED + [Deliver(ev), Find(0), Mark(0)]
        + [WriteRow(0, 0), EnqueueRow(0), DeleteRow(0, outcome)];
      var s := Run(Init(capacity), steps);
      && BornFor(s, 0, ev.triple) && s.rows == map[] && s.gone == map[0 := Dispatched(outcome)]
      && ev.triple in s.dedup && 0 in Run(s, more).born && Handed(Run(s, more), 0) == 1
  {
    hide Run, Q.Init, Q.Enqueue;
    var marked := BOOTED + [Deliver(ev), Find(0), Mark(0)];
    var last := [WriteRow(0, 0), EnqueueRow(0), DeleteRow(0, outcome)];
    MarkOne(capacity, ev);
    RunAppend(Init(capacity), marked, last);
    RunThree(Run(Init(capacity), marked), WriteRow(0, 0), EnqueueRow(0), DeleteRow(0, outcome));
    EnqueueOnEmpty(capacity, ev.key, QueueEntry(ev, false, Some(0)));
    var s := Run(Init(capacity), marked + last);
    assert s.queue.started == [JobOf(0, Row(ev, Remote, 0))] && s.past == [];
    GoneIsFinal(capacity, marked + last, more, 0);
  }

  // ---------------------------------------------------------------------------
  // How often the webhook path enqueues an event
  // ---------------------------------------------------------------------------

  /** This step enqueues a webhook delivery of the triple. */
  predicate EnqueuesFor(s: State, step: Step, t: Triple) {
    step.EnqueueRow? && step.i < |s.threads| && s.threads[step.i].Written? && s.threads[step.i].ev.triple == t
  }

  function WebhookEnqueues(s: State, steps: seq<Step>, t: Triple): nat
    decreases |steps|
  {
    if steps == [] then 0
    else (if EnqueuesFor(s, steps[0], t) then 1 else 0) + WebhookEnqueues(Next(s, steps[0]), steps[1..], t)
  }

  /** 1 for a delivery that was told its triple is new and has not enqueued it yet. */
  function Carries(d: Delivery, t: Triple): nat {
    if (d.Marked? || d.Written?) && d.ev.triple == t then 1 else 0
  }

  function Carriers(threads: seq<Delivery>, t: Triple): nat {
    if threads == [] then 0 else Carries(threads[0], t) + Carriers(threads[1..], t)
  }

  lemma {:induction false} CarriersSet(threads: seq<Delivery>, i: nat, d: Delivery, t: Triple)
    requires i < |threads|
    ensures Carriers(threads[i := d], t) == Carriers(threads, t) - Carries(threads[i], t) + Carries(d, t)
  {
    if i == 0 {
      assert threads[0 := d][1..] == threads[1..];
    } else {
      assert threads[i := d][1..] == threads[1..][i - 1 := d];
      CarriersSet(threads[1..], i - 1, d, t);
    }
  }

  lemma {:induction false} CarriersAppend(threads: seq<Delivery>, d: Delivery, t: Triple)
    ensures Carriers(threads + [d], t) == Carriers(threads, t) + Carries(d, t)
  {
    if threads == [] {
      assert threads + [d] == [d];
    } else {
      assert (threads + [d])[1..] == threads[1..] + [d];
      CarriersAppend(threads[1..], d, t);
    }
  }

  /** An enqueue uses up a carrier, and only a "new" answer makes one. */
  lemma CarriersNext(s: State, step: Step, t: Triple)
    ensures Carriers(Next(s, step).threads, t) + (if EnqueuesFor(s, step, t) then 1 else 0)
         <= Carriers(s.threads, t) + if AnswersNew(s, step, t) then 1 else 0
  {
    hide Q.Enqueue, Q.Complete, Carriers, Lists;
    NoCarriers(t);
    match step
    case Deliver(ev) => CarriersAppend(s.threads, Looking(ev), t);
    case Find(i) =>
      if i < |s.threads| {
        CarriersSet(s.threads, i, Finished(s.threads[i].ev), t);
        CarriersSet(s.threads, i, Inserting(s.threads[i].ev), t);
      }
    case Mark(i) =>
      if i < |s.threads| {
        CarriersSet(s.threads, i, Finished(s.threads[i].ev), t);
        CarriersSet(s.threads, i, Marked(s.threads[i].ev), t);
      }
    case WriteRow(i, now) => if i < |s.threads| { CarriersSet(s.threads, i, Written(s.threads[i].ev, s.nextRow), t); }
    case EnqueueRow(i) => if i < |s.threads| { CarriersSet(s.threads, i, Finished(s.threads[i].ev), t); }
    case Throw(i) => if i < |s.threads| { CarriersSet(s.threads, i, Finished(s.threads[i].ev), t); }
    case _ =>
  }

  lemma NoCarriers(t: Triple)
    ensures Carriers([], t) == 0
  {
  }

  lemma {:induction false} EnqueuesAreAnswered(s: State, steps: seq<Step>, t: Triple)
    ensures WebhookEnqueues(s, steps, t) <= Carriers(s.threads, t) + NewAnswers(s, steps, t)
    decreases |steps|
  {
    hide Next, EnqueuesFor, AnswersNew, Carriers;
    if steps != [] {
      CarriersNext(s, steps[0], t);
      EnqueuesAreAnswered(Next(s, steps[0]), steps[1..], t);
    }
  }

  /** Over any run from the start, crashes included, the webhook path enqueues a triple at most once. */
  lemma EnqueuedAtMostOnce(capacity: nat, steps: seq<Step>, t: Triple)
    ensures WebhookEnqueues(Init(capacity), steps, t) <= NewAnswers(Init(capacity), steps, t) <= 1
  {
    hide WebhookEnqueues, NewAnswers, Run;
    EnqueuesAreAnswered(Init(capacity), steps, t);
    NewAnsweredOnce(Init(capacity), steps, t);
  }

  // ---------------------------------------------------------------------------
  // One dispatch at a time per key
  // ---------------------------------------------------------------------------

  /** The guard of the failing branch: the step enqueues, and evicts a key that still has a job. */
  predicate EvictsBusyKey(s: State, step: Step) {
    EffectOf(s, step).Adds? && Q.EvictsBusy(s.queue, EffectOf(s, step).entry.event.key)
  }

  lemma SerialNextExactly(s: State, step: Step)
    requires Q.Serial(s.queue)
    ensures Q.Serial(Next(s, step).queue) <==> !EvictsBusyKey(s, step)
  {
    hide Next, Q.Serial, Q.Enqueue, Q.Complete, Q.EvictsBusy;
    EffectIs(s, step);
    match EffectOf(s, step)
    case Keeps =>
    case Resets => Q.InitSerial<QueueEntry>(s.queue.capacity);
    case Completes(j) => Q.CompleteSerial(s.queue, j);
    case Adds(entry) => Q.EnqueueSerialExactly(s.queue, entry.event.key, entry);
  }

  ghost predicate AlwaysSerial(s: State, steps: seq<Step>)
    decreases |steps|
  {
    Q.Serial(s.queue) && (steps != [] ==> AlwaysSerial(Next(s, steps[0]), steps[1..]))
  }

  predicate EvictsNoBusyKey(s: State, steps: seq<Step>)
    decreases |steps|
  {
    steps != [] ==> !EvictsBusyKey(s, steps[0]) && EvictsNoBusyKey(Next(s, steps[0]), steps[1..])
  }

  /** Every state of an engine run, crashes and boots included, serves its keys one by one exactly when no busy key is evicted. */
  lemma {:induction false} EngineSerialExactly(s: State, steps: seq<Step>)
    requires Q.Serial(s.queue)
    ensures AlwaysSerial(s, steps) <==> EvictsNoBusyKey(s, steps)
    decreases |steps|
  {
    hide Next, Q.Serial, EvictsBusyKey;
    if steps != [] {
      SerialNextExactly(s, steps[0]);
      if !EvictsBusyKey(s, steps[0]) {
        EngineSerialExactly(Next(s, steps[0]), steps[1..]);
      } else {
        assert !AlwaysSerial(Next(s, steps[0]), steps[1..]);
      }
    }
  }

  lemma {:induction false} LastIsSerial(s: State, steps: seq<Step>)
    requires AlwaysSerial(s, steps)
    ensures Q.Serial(Run(s, steps).queue)
    decreases |steps|
  {
    hide Next, Q.Serial;
    if steps != [] { LastIsSerial(Next(s, steps[0]), steps[1..]); }
  }

  /** With no busy eviction a key has at most one dispatch in flight, and this epoch's events of the key start in order. */
  lemma OneDispatchPerKey(capacity: nat, steps: seq<Step>, key: Q.Key)
    requires EvictsNoBusyKey(Init(capacity), steps)
    ensures var q := Run(Init(capacity), steps).queue;
      && |Q.On(key, q.running)| <= 1
      && Q.On(key, q.enqueued) == Q.On(key, q.started) + Q.Waiting(q, key)
      && Q.On(key, q.started) == Q.On(key, q.completed) + Q.On(key, q.running)
  {
    hide Run, EvictsNoBusyKey, AlwaysSerial;
    Q.InitSerial<QueueEntry>(capacity);
    EngineSerialExactly(Init(capacity), steps);
    LastIsSerial(Init(capacity), steps);
    assert Q.SerialOn(Run(Init(capacity), steps).queue, key);
  }
}
