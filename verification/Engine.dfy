/**
 * The dispatch protocol of src/sync/engine.ts with its durable collections
 * (src/state/dedup.ts, src/state/inflight.ts) and the keyed queue.
 *
 * Code between two awaits is one atomic step; steps of different deliveries and
 * dispatches interleave freely, and the process may crash between any two of them.
 */
module Engine {
  import opened Options
  import Q = Queue

  const INFLIGHT_MAX_AGE_MS: int := 60 * 60 * 1000

  type RowId = nat

  /** What the dedup collection is unique on. */
  datatype Triple = Triple(binding: string, eventId: string, version: string)

  /** An event and the queue key its binding, kind and record give it. */
  datatype Event = Event(triple: Triple, kind: string, key: Q.Key)

  /** The prefix of an inflight row's `op`. */
  datatype RowOp = Remote | Local | Unknown

  datatype Row = Row(event: Event, op: RowOp, startedAt: int)

  datatype QueueEntry = QueueEntry(event: Event, local: bool, inflightId: Option<RowId>)

  type Job = Q.Job<QueueEntry>

  /** Where one call of `enqueueWebhookEvent` stands. */
  datatype Delivery =
    | Looking(ev: Event)                // before the dedup lookup
    | Inserting(ev: Event)              // the lookup found nothing
    | Marked(ev: Event)                 // the dedup insert succeeded
    | Written(ev: Event, row: RowId)    // the inflight row exists
    | Finished(ev: Event)

  datatype Mode = Down | Booting(todo: seq<RowId>, cutoff: int) | Up

  datatype Outcome = Applied | ManagerThrew | BreakerOpen | NoManager

  datatype Reason = Dispatched(outcome: Outcome) | Stale(cutoff: int) | UnknownOp

  /** A row when it was written; `delivered` when the webhook path wrote it. */
  datatype Birth = Birth(row: Row, crashes: nat, delivered: bool)

  datatype State = State(
    // durable
    dedup: set<Triple>,
    rows: map<RowId, Row>,
    nextRow: RowId,
    // volatile
    mode: Mode,
    threads: seq<Delivery>,
    queue: Q.State<QueueEntry>,
    // what happened
    born: map<RowId, Birth>,
    gone: map<RowId, Reason>,
    crashes: nat,
    past: seq<Job>,
    deleteFailed: set<RowId>)

  datatype Step =
    | Import(row: Row)
    | Deliver(ev: Event)
    | Find(i: nat)
    | Mark(i: nat)
    | WriteRow(i: nat, now: int)
    | EnqueueRow(i: nat)
    | Throw(i: nat)
    | LocalEvent(ev: Event)
    | DeleteRow(j: nat, outcome: Outcome)
    | Resume(j: nat)
    | Crash
    | ListRows(ids: seq<RowId>, now: int)
    | BootNext
    | BootDone

  function Init(capacity: nat): State {
    State({}, map[], 0, Down, [], Q.Init(capacity), map[], map[], 0, [], {})
  }

  function EntryOf(id: RowId, row: Row): QueueEntry {
    QueueEntry(row.event, row.op == Local, Some(id))
  }

  function JobOf(id: RowId, row: Row): Job {
    Q.Job(row.event.key, EntryOf(id, row))
  }

  function Todo(s: State): seq<RowId> {
    if s.mode.Booting? then s.mode.todo else []
  }

  function AddRow(s: State, row: Row, delivered: bool): State {
    s.(rows := s.rows[s.nextRow := row],
       born := s.born[s.nextRow := Birth(row, s.crashes, delivered)],
       nextRow := s.nextRow + 1)
  }

  function DropRow(s: State, id: RowId, why: Reason): State {
    if id in s.rows then s.(rows := s.rows - {id}, gone := s.gone[id := why]) else s
  }

  function Enqueue(s: State, entry: QueueEntry): State {
    s.(queue := Q.Enqueue(s.queue, entry.event.key, entry))
  }

  /** One turn of the boot loop, on the head of the list. */
  function Replay(s: State): State
    requires s.mode.Booting? && |s.mode.todo| > 0
  {
    var id := s.mode.todo[0];
    var s1 := s.(mode := s.mode.(todo := s.mode.todo[1..]));
    if id !in s.rows then s1
    else
      var row := s.rows[id];
      if row.startedAt < s.mode.cutoff then DropRow(s1, id, Stale(s.mode.cutoff))
      else if row.op.Unknown? then DropRow(s1, id, UnknownOp)
      else Enqueue(s1, EntryOf(id, row))
  }

  /** Whether a list answered by the inflight collection holds each row once. */
  predicate Lists(ids: seq<RowId>, rows: map<RowId, Row>) {
    multiset(ids) == multiset(rows.Keys)
  }

  /** Only the durable collections survive a crash. */
  function Crashed(s: State): State {
    s.(mode := Down, threads := [], queue := Q.Init(s.queue.capacity),
       crashes := s.crashes + 1, past := s.past + s.queue.started, deleteFailed := {})
  }

  /** A step that is not possible leaves the state as it is. */
  function Next(s: State, step: Step): State {
    match step
    case Import(row) =>
      if s.mode.Down? then AddRow(s, row, false) else s
    case Deliver(ev) =>
      if s.mode.Down? then s else s.(threads := s.threads + [Looking(ev)])
    case Find(i) =>
      if i < |s.threads| && s.threads[i].Looking? then
        var ev := s.threads[i].ev;
        s.(threads := s.threads[i := if ev.triple in s.dedup then Finished(ev) else Inserting(ev)])
      else s
    case Mark(i) =>
      if i < |s.threads| && s.threads[i].Inserting? then
        var ev := s.threads[i].ev;
        if ev.triple in s.dedup then s.(threads := s.threads[i := Finished(ev)])
        else s.(dedup := s.dedup + {ev.triple}, threads := s.threads[i := Marked(ev)])
      else s
    case WriteRow(i, now) =>
      if i < |s.threads| && s.threads[i].Marked? then
        var ev := s.threads[i].ev;
        AddRow(s.(threads := s.threads[i := Written(ev, s.nextRow)]), Row(ev, Remote, now), true)
      else s
    case EnqueueRow(i) =>
      if i < |s.threads| && s.threads[i].Written? then
        var Written(ev, id) := s.threads[i];
        Enqueue(s.(threads := s.threads[i := Finished(ev)]), QueueEntry(ev, false, Some(id)))
      else s
    case Throw(i) =>
      if i < |s.threads| && (s.threads[i].Looking? || s.threads[i].Inserting? || s.threads[i].Marked?)
      then s.(threads := s.threads[i := Finished(s.threads[i].ev)]) else s
    case LocalEvent(ev) =>
      if s.mode.Down? then s else Enqueue(s, QueueEntry(ev, true, None))
    case DeleteRow(j, outcome) =>
      if j < |s.queue.running| && s.queue.running[j].item.inflightId.Some?
      then DropRow(s, s.queue.running[j].item.inflightId.value, Dispatched(outcome)) else s
    case Resume(j) =>
      if j < |s.queue.running| then
        var id := s.queue.running[j].item.inflightId;
        s.(queue := Q.Complete(s.queue, j),
           deleteFailed := if id.Some? && id.value in s.rows then s.deleteFailed + {id.value} else s.deleteFailed)
      else s
    case Crash =>
      Crashed(s)
    case ListRows(ids, now) =>
      if s.mode.Down? && Lists(ids, s.rows) then s.(mode := Booting(ids, now - INFLIGHT_MAX_AGE_MS)) else s
    case BootNext =>
      if s.mode.Booting? && |s.mode.todo| > 0 then Replay(s) else s
    case BootDone =>
      if s.mode.Booting? && |s.mode.todo| == 0 then s.(mode := Up) else s
  }

  function Run(s: State, steps: seq<Step>): State
    decreases |steps|
  {
    if steps == [] then s else Run(Next(s, steps[0]), steps[1..])
  }

  lemma {:induction false} RunAppend(s: State, a: seq<Step>, b: seq<Step>)
    ensures Run(s, a + b) == Run(Run(s, a), b)
    decreases |a|
  {
    hide Next;
    if a == [] {
      assert a + b == b;
    } else {
      assert (a + b)[1..] == a[1..] + b;
      RunAppend(Next(s, a[0]), a[1..], b);
    }
  }

  // ---------------------------------------------------------------------------
  // The invariant
  // ---------------------------------------------------------------------------

  /** The places a row is held in while the process is up: a delivery, the boot list, the queue. */
  function Tokens(threads: seq<Delivery>, todo: seq<RowId>, enqueued: seq<Job>, id: RowId, row: Row): nat {
    multiset(threads)[Written(row.event, id)] + multiset(todo)[id] + multiset(enqueued)[JobOf(id, row)]
  }

  /** How often a row's entry was handed to the processor, in all epochs. */
  function Dispatches(s: State, id: RowId, row: Row): nat {
    multiset(s.past)[JobOf(id, row)] + multiset(s.queue.started)[JobOf(id, row)]
  }

  ghost predicate RowOk(s: State, id: RowId) {
    id in s.born ==>
      var Birth(row, crashes, _) := s.born[id];
      var tokens := Tokens(s.threads, Todo(s), s.queue.enqueued, id, row);
      && id < s.nextRow && crashes <= s.crashes
      && (id in s.rows <==> id !in s.gone)
      && (id in s.rows ==> s.rows[id] == row)
      && tokens <= 1
      && (id in s.rows && !s.mode.Down? ==> tokens == 1)
      && multiset(s.past)[JobOf(id, row)] <= s.crashes - crashes
      && (id in s.rows && JobOf(id, row) in multiset(s.queue.completed) ==> id in s.deleteFailed)
      && (id in s.gone ==> match s.gone[id]
            case Dispatched(_) => Dispatches(s, id, row) >= 1
            case Stale(cutoff) => row.startedAt < cutoff
            case UnknownOp => row.op == Unknown)
  }

  /** A job that carries a row id carries the row that was born with it. */
  ghost predicate JobOk(s: State, job: Job) {
    job.item.inflightId.Some? ==>
      var id := job.item.inflightId.value;
      id in s.born && job == JobOf(id, s.born[id].row)
  }

  ghost predicate RefsOk(s: State) {
    && s.rows.Keys <= s.born.Keys && s.gone.Keys <= s.born.Keys
    && (forall i :: 0 <= i < |s.threads| && s.threads[i].Written? ==>
          var Written(ev, id) := s.threads[i];
          id in s.born && s.born[id].row.event == ev && !s.born[id].row.op.Local?)
    && (forall id :: id in Todo(s) ==> id in s.born)
    && (forall k :: 0 <= k < |s.queue.enqueued| ==> JobOk(s, s.queue.enqueued[k]))
    && (forall k :: 0 <= k < |s.past| ==> JobOk(s, s.past[k]))
    && (s.mode.Down? ==> s.threads == [] && s.queue.enqueued == [])
  }

  ghost predicate Inv(s: State) {
    && RefsOk(s) && Q.Conserved(s.queue)
    && forall id :: RowOk(s, id)
  }

  // ---------------------------------------------------------------------------
  // Every step keeps it
  // ---------------------------------------------------------------------------

  /** Nothing yet refers to a row id that was never born. */
  lemma UnbornUnused(s: State, id: RowId, row: Row)
    requires RefsOk(s) && Q.Conserved(s.queue) && id !in s.born
    ensures Tokens(s.threads, Todo(s), s.queue.enqueued, id, row) == 0
    ensures Dispatches(s, id, row) == 0 && JobOf(id, row) !in multiset(s.queue.completed)
  {
    var job := JobOf(id, row);
    assert Written(row.event, id) !in s.threads;
    assert id !in Todo(s);
    assert job !in s.queue.enqueued && job !in s.past;
    Q.ConservedCount(s.queue, job);
  }

  lemma SetThread(threads: seq<Delivery>, i: nat, d: Delivery)
    requires i < |threads|
    ensures multiset(threads[i := d]) == multiset(threads) - multiset{threads[i]} + multiset{d}
  {
  }

  /** A running job is among the enqueued ones, and counts as dispatched. */
  lemma RunningIsEnqueued(s: State, j: nat)
    requires RefsOk(s) && Q.Conserved(s.queue) && j < |s.queue.running|
    ensures JobOk(s, s.queue.running[j])
    ensures multiset(s.queue.started)[s.queue.running[j]] >= 1
  {
    var job := s.queue.running[j];
    Q.ConservedCount(s.queue, job);
    assert job in multiset(s.queue.running);
    assert job in s.queue.enqueued;
  }

  lemma AddRowOk(s: State, row: Row, delivered: bool, id: RowId)
    requires RefsOk(s) && Q.Conserved(s.queue) && (forall k :: RowOk(s, k))
    requires s.mode.Down?
    ensures RowOk(AddRow(s, row, delivered), id)
  {
    assert RowOk(s, id) && RowOk(s, s.nextRow);
    UnbornUnused(s, s.nextRow, row);
  }

  lemma WriteRowOk(s: State, i: nat, now: int, id: RowId)
    requires RefsOk(s) && Q.Conserved(s.queue) && (forall k :: RowOk(s, k))
    requires i < |s.threads| && s.threads[i].Marked?
    ensures RowOk(Next(s, WriteRow(i, now)), id)
  {
    hide Q.Conserved;
    var ev := s.threads[i].ev;
    assert RowOk(s, id) && RowOk(s, s.nextRow);
    SetThread(s.threads, i, Written(ev, s.nextRow));
    UnbornUnused(s, s.nextRow, Row(ev, Remote, now));
  }

  lemma EnqueueRowOk(s: State, i: nat, id: RowId)
    requires RefsOk(s) && Q.Conserved(s.queue) && RowOk(s, id)
    requires i < |s.threads| && s.threads[i].Written?
    ensures RowOk(Next(s, EnqueueRow(i)), id)
  {
    hide Q.Enqueue, Q.Conserved;
    var Written(ev, row) := s.threads[i];
    SetThread(s.threads, i, Finished(ev));
    Q.EnqueueLogs(s.queue, ev.key, QueueEntry(ev, false, Some(row)));
  }

  lemma ThreadRowOk(s: State, i: nat, d: Delivery, dedup: set<Triple>, id: RowId)
    requires i < |s.threads| && !s.threads[i].Written? && !d.Written? && RowOk(s, id)
    ensures RowOk(s.(threads := s.threads[i := d], dedup := dedup), id)
  {
    SetThread(s.threads, i, d);
  }

  lemma LocalRowOk(s: State, ev: Event, id: RowId)
    requires RefsOk(s) && Q.Conserved(s.queue) && RowOk(s, id)
    ensures RowOk(Next(s, LocalEvent(ev)), id)
  {
    hide Q.Enqueue, Q.Conserved;
    Q.EnqueueLogs(s.queue, ev.key, QueueEntry(ev, true, None));
  }

  lemma DeleteRowOk(s: State, j: nat, outcome: Outcome, id: RowId)
    requires RefsOk(s) && Q.Conserved(s.queue) && RowOk(s, id)
    ensures RowOk(Next(s, DeleteRow(j, outcome)), id)
  {
    hide Q.Conserved;
    if j < |s.queue.running| { RunningIsEnqueued(s, j); }
  }

  lemma ResumeRowOk(s: State, j: nat, id: RowId)
    requires RefsOk(s) && Q.Conserved(s.queue) && RowOk(s, id)
    requires j < |s.queue.running|
    ensures RowOk(Next(s, Resume(j)), id)
  {
    hide Q.Conserved, Q.Complete;
    Q.CompleteLogs(s.queue, j);
    RunningIsEnqueued(s, j);
  }

  lemma CrashRowOk(s: State, id: RowId)
    requires RefsOk(s) && Q.Conserved(s.queue) && RowOk(s, id)
    ensures RowOk(Next(s, Crash), id)
  {
    hide Q.Conserved;
    if id in s.born { Q.ConservedCount(s.queue, JobOf(id, s.born[id].row)); }
  }

  lemma ListRowOk(s: State, ids: seq<RowId>, now: int, id: RowId)
    requires RefsOk(s) && RowOk(s, id) && s.mode.Down? && Lists(ids, s.rows)
    ensures RowOk(Next(s, ListRows(ids, now)), id)
  {
    assert multiset(s.rows.Keys)[id] == if id in s.rows then 1 else 0;
  }

  ghost predicate AtHead(s: State, head: RowId) {
    s.mode.Booting? && |s.mode.todo| > 0 && s.mode.todo[0] == head
  }

  lemma PopTodo(s: State, head: RowId)
    requires AtHead(s, head)
    ensures multiset(s.mode.todo) == multiset(s.mode.todo[1..]) + multiset{head}
  {
    assert s.mode.todo == [head] + s.mode.todo[1..];
  }

  lemma ReplayDropOk(s: State, head: RowId, why: Reason, id: RowId)
    requires RowOk(s, id) && RowOk(s, head) && AtHead(s, head) && head in s.born
    requires match why
      case Dispatched(_) => false
      case Stale(cutoff) => s.born[head].row.startedAt < cutoff
      case UnknownOp => s.born[head].row.op == Unknown
    ensures RowOk(DropRow(s.(mode := s.mode.(todo := s.mode.todo[1..])), head, why), id)
  {
    hide JobOf;
    PopTodo(s, head);
  }

  lemma ReplayEnqueueOk(s: State, head: RowId, id: RowId)
    requires Q.Conserved(s.queue) && RowOk(s, id) && RowOk(s, head) && AtHead(s, head)
    requires head in s.rows && head in s.born
    ensures RowOk(Enqueue(s.(mode := s.mode.(todo := s.mode.todo[1..])), EntryOf(head, s.rows[head])), id)
  {
    hide Q.Conserved, Q.Enqueue;
    PopTodo(s, head);
    Q.EnqueueLogs(s.queue, s.rows[head].event.key, EntryOf(head, s.rows[head]));
  }

  lemma ReplayRowOk(s: State, id: RowId)
    requires RefsOk(s) && Q.Conserved(s.queue) && RowOk(s, id)
    requires s.mode.Booting? && |s.mode.todo| > 0 && RowOk(s, s.mode.todo[0])
    ensures RowOk(Replay(s), id)
  {
    hide Q.Conserved, Enqueue;
    var head := s.mode.todo[0];
    assert Todo(s)[0] == head;
    PopTodo(s, head);
    if head in s.rows {
      var row := s.rows[head];
      hide Tokens, Dispatches;
      if row.startedAt < s.mode.cutoff { ReplayDropOk(s, head, Stale(s.mode.cutoff), id); }
      else if row.op.Unknown? { ReplayDropOk(s, head, UnknownOp, id); }
      else { ReplayEnqueueOk(s, head, id); }
    }
  }

  lemma DeliverRowOk(s: State, ev: Event, id: RowId)
    requires RowOk(s, id) && !s.mode.Down?
    ensures RowOk(Next(s, Deliver(ev)), id)
  {
    assert multiset(s.threads + [Looking(ev)]) == multiset(s.threads) + multiset{Looking(ev)};
  }

  lemma BootDoneRowOk(s: State, id: RowId)
    requires RowOk(s, id) && s.mode.Booting? && |s.mode.todo| == 0
    ensures RowOk(s.(mode := Up), id)
  {
  }

  lemma NextRowOk(s: State, step: Step, id: RowId)
    requires Inv(s)
    ensures RowOk(Next(s, step), id)
  {
    hide RowOk, RefsOk, AddRow, DropRow, Enqueue, Replay, Lists, Q.Conserved, Q.Complete;
    assert RowOk(s, id);
    match step
    case Import(row) => if s.mode.Down? { AddRowOk(s, row, false, id); }
    case Deliver(ev) => if !s.mode.Down? { DeliverRowOk(s, ev, id); }
    case Find(i) =>
      if i < |s.threads| && s.threads[i].Looking? {
        ThreadRowOk(s, i, Finished(s.threads[i].ev), s.dedup, id);
        ThreadRowOk(s, i, Inserting(s.threads[i].ev), s.dedup, id);
      }
    case Mark(i) =>
      if i < |s.threads| && s.threads[i].Inserting? {
        ThreadRowOk(s, i, Finished(s.threads[i].ev), s.dedup, id);
        ThreadRowOk(s, i, Marked(s.threads[i].ev), s.dedup + {s.threads[i].ev.triple}, id);
      }
    case WriteRow(i, now) => if i < |s.threads| && s.threads[i].Marked? { WriteRowOk(s, i, now, id); }
    case EnqueueRow(i) => if i < |s.threads| && s.threads[i].Written? { EnqueueRowOk(s, i, id); }
    case Throw(i) =>
      if i < |s.threads| && !s.threads[i].Written? { ThreadRowOk(s, i, Finished(s.threads[i].ev), s.dedup, id); }
    case LocalEvent(ev) => if !s.mode.Down? { LocalRowOk(s, ev, id); }
    case DeleteRow(j, outcome) => DeleteRowOk(s, j, outcome, id);
    case Resume(j) => if j < |s.queue.running| { ResumeRowOk(s, j, id); }
    case Crash => CrashRowOk(s, id);
    case ListRows(ids, now) => if s.mode.Down? && Lists(ids, s.rows) { ListRowOk(s, ids, now, id); }
    case BootNext =>
      if s.mode.Booting? && |s.mode.todo| > 0 { assert RowOk(s, s.mode.todo[0]); ReplayRowOk(s, id); }
    case BootDone => if s.mode.Booting? && |s.mode.todo| == 0 { BootDoneRowOk(s, id); }
  }

  // References to rows stay good.

  lemma GrowRefs(s: State, s': State)
    requires RefsOk(s)
    requires s.born.Keys <= s'.born.Keys && forall id :: id in s.born ==> s'.born[id] == s.born[id]
    requires s'.rows.Keys <= s'.born.Keys && s'.gone.Keys <= s'.born.Keys
    requires s'.threads == s.threads && Todo(s') == Todo(s)
    requires s'.queue.enqueued == s.queue.enqueued && s'.past == s.past && s'.mode == s.mode
    ensures RefsOk(s')
  {
    forall k | 0 <= k < |s.queue.enqueued| ensures JobOk(s', s.queue.enqueued[k]) { assert JobOk(s, s.queue.enqueued[k]); }
    forall k | 0 <= k < |s.past| ensures JobOk(s', s.past[k]) { assert JobOk(s, s.past[k]); }
  }

  lemma EnqueueRefs(s: State, entry: QueueEntry)
    requires RefsOk(s) && Q.Conserved(s.queue) && !s.mode.Down?
    requires JobOk(s, Q.Job(entry.event.key, entry))
    ensures RefsOk(Enqueue(s, entry)) && Q.Conserved(Enqueue(s, entry).queue)
  {
    hide Q.Enqueue, Q.Conserved;
    Q.EnqueueLogs(s.queue, entry.event.key, entry);
    var s' := Enqueue(s, entry);
    assert Todo(s') == Todo(s);
    forall k | 0 <= k < |s'.queue.enqueued| ensures JobOk(s', s'.queue.enqueued[k]) {
      if k < |s.queue.enqueued| { assert JobOk(s, s.queue.enqueued[k]); }
    }
    forall k | 0 <= k < |s.past| ensures JobOk(s', s.past[k]) { assert JobOk(s, s.past[k]); }
  }

  lemma NextRowUnborn(s: State)
    requires Inv(s)
    ensures s.nextRow !in s.born
  {
    assert RowOk(s, s.nextRow);
  }

  lemma ReplayRefs(s: State)
    requires Inv(s) && s.mode.Booting? && |s.mode.todo| > 0
    ensures RefsOk(Replay(s)) && Q.Conserved(Replay(s).queue)
  {
    hide Q.Conserved, Enqueue;
    var head := s.mode.todo[0];
    assert Todo(s)[0] == head && RowOk(s, head);
    var s1 := s.(mode := s.mode.(todo := s.mode.todo[1..]));
    assert RefsOk(s1) by {
      forall k | 0 <= k < |s.queue.enqueued| ensures JobOk(s1, s.queue.enqueued[k]) { assert JobOk(s, s.queue.enqueued[k]); }
      forall k | 0 <= k < |s.past| ensures JobOk(s1, s.past[k]) { assert JobOk(s, s.past[k]); }
    }
    if head in s.rows {
      var row := s.rows[head];
      if row.startedAt < s.mode.cutoff { DropRowRefs(s1, head, Stale(s.mode.cutoff)); }
      else if row.op.Unknown? { DropRowRefs(s1, head, UnknownOp); }
      else { EnqueueRefs(s1, EntryOf(head, row)); }
    }
  }

  lemma DropRowRefs(s: State, id: RowId, why: Reason)
    requires RefsOk(s)
    ensures RefsOk(DropRow(s, id, why))
  {
    if id in s.rows { GrowRefs(s, DropRow(s, id, why)); }
  }

  lemma ResumeRefs(s: State, j: nat)
    requires RefsOk(s) && Q.Conserved(s.queue) && j < |s.queue.running|
    ensures RefsOk(Next(s, Resume(j))) && Q.Conserved(Next(s, Resume(j)).queue)
  {
    hide Q.Conserved, Q.Complete;
    Q.CompleteLogs(s.queue, j);
    var s' := Next(s, Resume(j));
    RunningIsEnqueued(s, j);
    assert Todo(s') == Todo(s);
    forall k | 0 <= k < |s.queue.enqueued| ensures JobOk(s', s.queue.enqueued[k]) { assert JobOk(s, s.queue.enqueued[k]); }
    forall k | 0 <= k < |s.past| ensures JobOk(s', s.past[k]) { assert JobOk(s, s.past[k]); }
  }

  lemma CrashRefs(s: State)
    requires RefsOk(s) && Q.Conserved(s.queue)
    ensures RefsOk(Next(s, Crash)) && Q.Conserved(Next(s, Crash).queue)
  {
    var s' := Next(s, Crash);
    forall k | 0 <= k < |s'.past| ensures JobOk(s', s'.past[k]) {
      if k < |s.past| {
        assert JobOk(s, s.past[k]);
      } else {
        var job := s.queue.started[k - |s.past|];
        Q.ConservedCount(s.queue, job);
        assert job in multiset(s.queue.started);
        assert job in s.queue.enqueued;
        assert JobOk(s, job);
      }
    }
  }

  /** Changing one thread, to a state that refers to a born row if to any. */
  lemma ThreadRefs(s: State, i: nat, d: Delivery, dedup: set<Triple>)
    requires RefsOk(s) && i < |s.threads| && !d.Written?
    ensures RefsOk(s.(threads := s.threads[i := d], dedup := dedup))
  {
    var s' := s.(threads := s.threads[i := d], dedup := dedup);
    assert Todo(s') == Todo(s);
    forall k | 0 <= k < |s.queue.enqueued| ensures JobOk(s', s.queue.enqueued[k]) { assert JobOk(s, s.queue.enqueued[k]); }
    forall k | 0 <= k < |s.past| ensures JobOk(s', s.past[k]) { assert JobOk(s, s.past[k]); }
  }

  lemma WriteRowRefs(s: State, i: nat, now: int)
    requires RefsOk(s) && s.nextRow !in s.born && i < |s.threads| && s.threads[i].Marked?
    ensures RefsOk(Next(s, WriteRow(i, now))) && Next(s, WriteRow(i, now)).queue == s.queue
  {
    var s' := Next(s, WriteRow(i, now));
    assert Todo(s') == Todo(s);
    forall k | 0 <= k < |s.queue.enqueued| ensures JobOk(s', s.queue.enqueued[k]) { assert JobOk(s, s.queue.enqueued[k]); }
    forall k | 0 <= k < |s.past| ensures JobOk(s', s.past[k]) { assert JobOk(s, s.past[k]); }
  }

  lemma ModeRefs(s: State, mode: Mode, threads: seq<Delivery>)
    requires RefsOk(s) && !mode.Down? && forall id :: id in Todo(s.(mode := mode)) ==> id in s.born
    requires threads == s.threads || exists ev :: threads == s.threads + [Looking(ev)]
    ensures RefsOk(s.(mode := mode, threads := threads))
  {
    var s' := s.(mode := mode, threads := threads);
    assert Todo(s') == Todo(s.(mode := mode));
    forall k | 0 <= k < |s.queue.enqueued| ensures JobOk(s', s.queue.enqueued[k]) { assert JobOk(s, s.queue.enqueued[k]); }
    forall k | 0 <= k < |s.past| ensures JobOk(s', s.past[k]) { assert JobOk(s, s.past[k]); }
  }

  lemma DeliverRefs(s: State, ev: Event)
    requires RefsOk(s) && !s.mode.Down?
    ensures RefsOk(s.(threads := s.threads + [Looking(ev)]))
  {
    assert Todo(s.(mode := s.mode)) == Todo(s);
    ModeRefs(s, s.mode, s.threads + [Looking(ev)]);
  }

  lemma ListRefs(s: State, ids: seq<RowId>, now: int)
    requires RefsOk(s) && Lists(ids, s.rows)
    ensures RefsOk(s.(mode := Booting(ids, now - INFLIGHT_MAX_AGE_MS)))
  {
    forall id | id in ids ensures id in s.born {
      assert id in multiset(ids) && multiset(s.rows.Keys)[id] > 0;
    }
    ModeRefs(s, Booting(ids, now - INFLIGHT_MAX_AGE_MS), s.threads);
  }

  lemma EnqueueRowRefs(s: State, i: nat)
    requires RefsOk(s) && Q.Conserved(s.queue) && i < |s.threads| && s.threads[i].Written?
    ensures RefsOk(Next(s, EnqueueRow(i))) && Q.Conserved(Next(s, EnqueueRow(i)).queue)
  {
    hide Q.Conserved, Enqueue;
    var Written(ev, id) := s.threads[i];
    ThreadRefs(s, i, Finished(ev), s.dedup);
    EnqueueRefs(s.(threads := s.threads[i := Finished(ev)]), QueueEntry(ev, false, Some(id)));
  }

  lemma NextRefs(s: State, step: Step)
    requires Inv(s)
    ensures RefsOk(Next(s, step)) && Q.Conserved(Next(s, step).queue)
  {
    hide Q.Conserved, RowOk, RefsOk, Replay, Enqueue, DropRow, AddRow, Lists, Crashed, Q.Complete;
    NextRowUnborn(s);
    match step
    case Import(row) => if s.mode.Down? { ImportRefs(s, row); }
    case Deliver(ev) => if !s.mode.Down? { DeliverRefs(s, ev); }
    case Find(i) =>
      if i < |s.threads| && s.threads[i].Looking? {
        ThreadRefs(s, i, Finished(s.threads[i].ev), s.dedup);
        ThreadRefs(s, i, Inserting(s.threads[i].ev), s.dedup);
      }
    case Mark(i) =>
      if i < |s.threads| && s.threads[i].Inserting? {
        ThreadRefs(s, i, Finished(s.threads[i].ev), s.dedup);
        ThreadRefs(s, i, Marked(s.threads[i].ev), s.dedup + {s.threads[i].ev.triple});
      }
    case WriteRow(i, now) => if i < |s.threads| && s.threads[i].Marked? { WriteRowRefs(s, i, now); }
    case EnqueueRow(i) => if i < |s.threads| && s.threads[i].Written? { EnqueueRowRefs(s, i); }
    case Throw(i) => if i < |s.threads| { ThreadRefs(s, i, Finished(s.threads[i].ev), s.dedup); }
    case LocalEvent(ev) => if !s.mode.Down? { EnqueueRefs(s, QueueEntry(ev, true, None)); }
    case DeleteRow(j, outcome) =>
      if j < |s.queue.running| && s.queue.running[j].item.inflightId.Some? {
        DropRowRefs(s, s.queue.running[j].item.inflightId.value, Dispatched(outcome));
        DropRowQueue(s, s.queue.running[j].item.inflightId.value, Dispatched(outcome));
      }
    case Resume(j) => if j < |s.queue.running| { ResumeRefs(s, j); }
    case Crash => CrashRefs(s);
    case ListRows(ids, now) => if s.mode.Down? && Lists(ids, s.rows) { ListRefs(s, ids, now); }
    case BootNext => if s.mode.Booting? && |s.mode.todo| > 0 { ReplayRefs(s); }
    case BootDone => if s.mode.Booting? && |s.mode.todo| == 0 { ModeRefs(s, Up, s.threads); }
  }

  lemma ImportRefs(s: State, row: Row)
    requires RefsOk(s) && s.nextRow !in s.born
    ensures RefsOk(AddRow(s, row, false)) && AddRow(s, row, false).queue == s.queue
  {
    GrowRefs(s, AddRow(s, row, false));
  }

  lemma DropRowQueue(s: State, id: RowId, why: Reason)
    ensures DropRow(s, id, why).queue == s.queue
  {
  }

  lemma InitInv(capacity: nat)
    ensures Inv(Init(capacity))
  {
  }

  lemma NextInv(s: State, step: Step)
    requires Inv(s)
    ensures Inv(Next(s, step))
  {
    hide RowOk, RefsOk, Next, Q.Conserved;
    NextRefs(s, step);
    forall id ensures RowOk(Next(s, step), id) { NextRowOk(s, step, id); }
  }

  lemma {:induction false} RunInv(s: State, steps: seq<Step>)
    requires Inv(s)
    ensures Inv(Run(s, steps))
    decreases |steps|
  {
    hide Inv, Next;
    if steps != [] {
      NextInv(s, steps[0]);
      RunInv(Next(s, steps[0]), steps[1..]);
    }
  }

  // ---------------------------------------------------------------------------
  // What the invariant gives, over every run
  // ---------------------------------------------------------------------------

  /** Waiting under its key in the queue. */
  function Waits(s: State, job: Job): nat {
    multiset(Q.Waiting(s.queue, job.key))[job]
  }

  /** A row is dispatched at most once, plus once for each crash it lived through. */
  lemma DispatchedAtMost(s: State, steps: seq<Step>, id: RowId)
    requires Inv(s) && id in Run(s, steps).born
    ensures var s' := Run(s, steps);
      Dispatches(s', id, s'.born[id].row) <= 1 + s'.crashes - s'.born[id].crashes
  {
    RunInv(s, steps);
    var s' := Run(s, steps);
    assert RowOk(s', id);
    Q.ConservedCount(s'.queue, JobOf(id, s'.born[id].row));
  }

  /** A row that is gone was dispatched, or was stale or of an unknown kind at some boot. */
  lemma GoneRowsAreExplained(s: State, steps: seq<Step>, id: RowId)
    requires Inv(s) && id in Run(s, steps).born && id !in Run(s, steps).rows
    ensures var s' := Run(s, steps);
      var row := s'.born[id].row;
      && id in s'.gone
      && match s'.gone[id]
         case Dispatched(_) => Dispatches(s', id, row) >= 1
         case Stale(cutoff) => row.startedAt < cutoff
         case UnknownOp => row.op == Unknown
  {
    RunInv(s, steps);
    assert RowOk(Run(s, steps), id);
  }

  /**
   * While the process is up, a surviving row is in exactly one place: a delivery about
   * to enqueue it, the queue, a pending processor, among the jobs an eviction dropped,
   * or finished with its deletion failed.
   */
  lemma SurvivingRowIsSomewhere(s: State, steps: seq<Step>, id: RowId)
    requires Inv(s) && Run(s, steps).mode.Up? && id in Run(s, steps).rows
    ensures var s' := Run(s, steps);
      var row := s'.rows[id];
      var job := JobOf(id, row);
      && multiset(s'.threads)[Written(row.event, id)] + Waits(s', job) + multiset(s'.queue.running)[job]
           + multiset(s'.queue.dropped)[job] + multiset(s'.queue.completed)[job] == 1
      && (job in multiset(s'.queue.completed) ==> id in s'.deleteFailed)
  {
    RunInv(s, steps);
    var s' := Run(s, steps);
    assert RowOk(s', id);
    Q.ConservedCount(s'.queue, JobOf(id, s'.rows[id]));
  }

  /** The only steps that remove a row: its own dispatch, or the boot scan of a stale or unknown one. */
  lemma RowLeavesOnlyBy(s: State, step: Step, id: RowId)
    requires Inv(s) && id in s.rows && id !in Next(s, step).rows
    ensures
      || (step.DeleteRow? && step.j < |s.queue.running| && s.queue.running[step.j] == JobOf(id, s.rows[id]))
      || (step.BootNext? && s.mode.Booting? && |s.mode.todo| > 0 && s.mode.todo[0] == id
          && (s.rows[id].startedAt < s.mode.cutoff || s.rows[id].op.Unknown?))
  {
    hide Q.Conserved, Q.Enqueue, Q.Complete, Tokens, Dispatches;
    assert RowOk(s, id);
    if step.DeleteRow? && step.j < |s.queue.running| { RunningIsEnqueued(s, step.j); }
  }

  // ---------------------------------------------------------------------------
  // Deduplication among interleaved deliveries
  // ---------------------------------------------------------------------------

  /** Delivery i was told that its triple is new and has not written its row yet. */
  ghost predicate MarkedFor(s: State, i: nat, t: Triple) {
    i < |s.threads| && s.threads[i].Marked? && s.threads[i].ev.triple == t
  }

  /** The webhook path wrote row `id` for the triple. */
  ghost predicate BornFor(s: State, id: RowId, t: Triple) {
    id in s.born && s.born[id].delivered && s.born[id].row.event.triple == t
  }

  /** The mark of a triple has at most one owner: a delivery, or the row it wrote. */
  ghost predicate OwnedOnce(s: State, t: Triple) {
    && s.nextRow !in s.born && (forall id :: id in s.born ==> id < s.nextRow)
    && (forall i :: MarkedFor(s, i, t) ==> t in s.dedup)
    && (forall id: RowId :: BornFor(s, id, t) ==> t in s.dedup)
    && (forall i, j :: MarkedFor(s, i, t) && MarkedFor(s, j, t) ==> i == j)
    && (forall a: RowId, b: RowId :: BornFor(s, a, t) && BornFor(s, b, t) ==> a == b)
    && (forall i, id: RowId :: MarkedFor(s, i, t) ==> !BornFor(s, id, t))
  }

  lemma MarkedChange(s: State, step: Step, i: nat, t: Triple)
    ensures MarkedFor(Next(s, step), i, t) <==>
      || (MarkedFor(s, i, t) && step != Crash && step != Throw(i) && !(step.WriteRow? && step.i == i))
      || (step == Mark(i) && AnswersNew(s, step, t))
  {
    hide Q.Enqueue, Q.Complete;
  }

  lemma BornOfReplay(s: State)
    requires s.mode.Booting? && |s.mode.todo| > 0
    ensures Replay(s).born == s.born && Replay(s).nextRow == s.nextRow
  {
    hide Q.Enqueue;
  }

  /** Only these steps write rows. */
  lemma BornOnlyGrows(s: State, step: Step)
    ensures var s' := Next(s, step);
      || (s'.born == s.born && s'.nextRow == s.nextRow)
      || (s'.born.Keys == s.born.Keys + {s.nextRow} && s'.nextRow == s.nextRow + 1)
  {
    hide Q.Enqueue, Q.Complete, Replay, Lists;
    if step.BootNext? && s.mode.Booting? && |s.mode.todo| > 0 { BornOfReplay(s); }
  }

  lemma BornChange(s: State, step: Step, id: RowId, t: Triple)
    requires s.nextRow !in s.born
    ensures BornFor(Next(s, step), id, t) <==>
      || BornFor(s, id, t)
      || (step.WriteRow? && MarkedFor(s, step.i, t) && id == s.nextRow)
  {
    hide Q.Enqueue, Q.Complete;
  }

  lemma NextFresh(s: State, step: Step)
    requires s.nextRow !in s.born && forall id :: id in s.born ==> id < s.nextRow
    ensures var s' := Next(s, step);
      s'.nextRow !in s'.born && forall id :: id in s'.born ==> id < s'.nextRow
  {
    hide Next;
    BornOnlyGrows(s, step);
  }

  lemma NextOwnedOnce(s: State, step: Step, t: Triple)
    requires OwnedOnce(s, t)
    ensures OwnedOnce(Next(s, step), t)
  {
    hide Next, MarkedFor, BornFor;
    NextFresh(s, step);
    NextDedup(s, step, t);
    AnswersNewFirst(s, step, t);
    forall i ensures MarkedFor(Next(s, step), i, t) <==>
      || (MarkedFor(s, i, t) && step != Crash && step != Throw(i) && !(step.WriteRow? && step.i == i))
      || (step == Mark(i) && AnswersNew(s, step, t))
    { MarkedChange(s, step, i, t); }
    forall id: RowId ensures BornFor(Next(s, step), id, t) <==>
      BornFor(s, id, t) || (step.WriteRow? && MarkedFor(s, step.i, t) && id == s.nextRow)
    { BornChange(s, step, id, t); }
  }

  lemma {:induction false} RunOwnedOnce(s: State, steps: seq<Step>, t: Triple)
    requires OwnedOnce(s, t)
    ensures OwnedOnce(Run(s, steps), t)
    decreases |steps|
  {
    hide OwnedOnce, Next;
    if steps != [] {
      NextOwnedOnce(s, steps[0], t);
      RunOwnedOnce(Next(s, steps[0]), steps[1..], t);
    }
  }

  /** However deliveries interleave and crash, the webhook path writes at most one row for a triple. */
  lemma OneRowPerTriple(capacity: nat, steps: seq<Step>, t: Triple, a: RowId, b: RowId)
    requires BornFor(Run(Init(capacity), steps), a, t) && BornFor(Run(Init(capacity), steps), b, t)
    ensures a == b
  {
    hide BornFor;
    assert OwnedOnce(Init(capacity), t) by { InitOwnedOnce(capacity, t); }
    RunOwnedOnce(Init(capacity), steps, t);
  }

  lemma InitOwnedOnce(capacity: nat, t: Triple)
    ensures OwnedOnce(Init(capacity), t)
  {
  }

  /** This step completes a `checkAndMarkSeen` that answers "new" for the triple. */
  predicate AnswersNew(s: State, step: Step, t: Triple) {
    step.Mark? && step.i < |s.threads| && s.threads[step.i].Inserting?
    && s.threads[step.i].ev.triple == t && t !in s.dedup
  }

  function NewAnswers(s: State, steps: seq<Step>, t: Triple): nat
    decreases |steps|
  {
    if steps == [] then 0
    else (if AnswersNew(s, steps[0], t) then 1 else 0) + NewAnswers(Next(s, steps[0]), steps[1..], t)
  }

  lemma NextDedup(s: State, step: Step, t: Triple)
    ensures t in Next(s, step).dedup <==> t in s.dedup || AnswersNew(s, step, t)
  {
    hide Q.Enqueue, Q.Complete;
  }

  /** Over every run a triple is answered "new" once if it ends up marked, and never otherwise. */
  lemma {:induction false} NewAnsweredOnce(s: State, steps: seq<Step>, t: Triple)
    ensures NewAnswers(s, steps, t) == if t in Run(s, steps).dedup && t !in s.dedup then 1 else 0
    ensures t in s.dedup ==> t in Run(s, steps).dedup
    decreases |steps|
  {
    hide Next, AnswersNew;
    if steps != [] {
      NextDedup(s, steps[0], t);
      assert AnswersNew(s, steps[0], t) ==> t !in s.dedup by { AnswersNewFirst(s, steps[0], t); }
      NewAnsweredOnce(Next(s, steps[0]), steps[1..], t);
    }
  }

  lemma AnswersNewFirst(s: State, step: Step, t: Triple)
    ensures AnswersNew(s, step, t) ==> t !in s.dedup
  {
  }

  // ---------------------------------------------------------------------------
  // Events that are lost
  // ---------------------------------------------------------------------------

  /** Marked as seen, with no delivery and no row to carry it on. */
  ghost predicate Lost(s: State, t: Triple) {
    t in s.dedup && (forall i :: !MarkedFor(s, i, t)) && forall id: RowId :: !BornFor(s, id, t)
  }

  /** An event becomes lost exactly when a crash or a failed insert hits its delivery between mark and row. */
  lemma LostExactly(s: State, step: Step, t: Triple)
    requires OwnedOnce(s, t) && !Lost(s, t)
    ensures Lost(Next(s, step), t) <==> exists i :: MarkedFor(s, i, t) && (step == Crash || step == Throw(i))
  {
    hide Next, MarkedFor, BornFor;
    var s' := Next(s, step);
    NextDedup(s, step, t);
    AnswersNewFirst(s, step, t);
    if i :| MarkedFor(s, i, t) {
      forall j ensures MarkedFor(s', j, t) ==> j == i { MarkedChange(s, step, j, t); }
      forall id: RowId ensures BornFor(s', id, t) <==> step.WriteRow? && MarkedFor(s, step.i, t) && id == s.nextRow {
        BornChange(s, step, id, t);
      }
      MarkedChange(s, step, i, t);
      if step.WriteRow? && step.i == i { assert BornFor(s', s.nextRow, t); }
    } else if id: RowId :| BornFor(s, id, t) {
      BornChange(s, step, id, t);
    } else if AnswersNew(s, step, t) {
      MarkedChange(s, step, step.i, t);
    }
  }

  lemma LostStays(s: State, step: Step, t: Triple)
    requires Lost(s, t)
    ensures Lost(Next(s, step), t)
  {
    hide MarkedFor, BornFor, Next;
    NextDedup(s, step, t);
    AnswersNewFirst(s, step, t);
    forall i ensures !MarkedFor(Next(s, step), i, t) { MarkedChange(s, step, i, t); }
    forall id: RowId ensures !BornFor(Next(s, step), id, t) { NotBorn(s, step, id, t); }
  }

  lemma NotBorn(s: State, step: Step, id: RowId, t: Triple)
    requires !BornFor(s, id, t) && forall i :: !MarkedFor(s, i, t)
    ensures !BornFor(Next(s, step), id, t)
  {
    hide Q.Enqueue, Q.Complete;
    if step.WriteRow? { assert !MarkedFor(s, step.i, t); }
  }

  /** A lost event stays lost: redeliveries are dropped as duplicates in every continuation. */
  lemma {:induction false} LostForever(s: State, steps: seq<Step>, t: Triple)
    requires Lost(s, t)
    ensures Lost(Run(s, steps), t)
    decreases |steps|
  {
    hide Lost, Next;
    if steps != [] {
      LostStays(s, steps[0], t);
      LostForever(Next(s, steps[0]), steps[1..], t);
    }
  }
}
