/**
 * Notes that arrive before their parent: the routing and deferral in src/sync/notes.ts and
 * src/sync/mr-review.ts, with the flag helper of src/sync/deferred-parent.ts.
 *
 * A delivered note is dispatched to the note manager, which may hand it on to the review
 * manager; each of them may put it back on the queue once. Every dispatch that gets that far
 * asks once whether the parent is mirrored, and the answers may be anything.
 */
module Deferral {
  import opened Options

  // ---------------------------------------------------------------------------
  // Routing
  // ---------------------------------------------------------------------------

  datatype Position = Position(positionType: Option<string>, headSha: Option<string>, baseSha: Option<string>, startSha: Option<string>)

  /** A field that is not there, not a string, or a string. */
  datatype Named = Absent | IllTyped | Named(name: string)

  /** The parts of a note hook that decide its route; elsewhere a part that is missing or ill-typed is `None`. */
  datatype Payload = Payload(noteId: Option<int>, noteableType: Named, issueIid: Option<int>,
                             mergeRequestIid: Option<int>, position: Option<Position>, system: bool)

  datatype Shape = Unparsable | Malformed | ReviewNote | PlainNote(system: bool)

  predicate HasShas(p: Position) {
    p.headSha.Some? && p.baseSha.Some? && p.startSha.Some?
  }

  /** `parseWebhookPayload`, as far as it decides the route. */
  function Parse(p: Payload): (shape: Shape)
    ensures shape.ReviewNote? <==>
      p.noteId.Some? && p.noteableType == Named("MergeRequest") && p.mergeRequestIid.Some?
      && p.position.Some? && p.position.value.positionType == Some("text") && HasShas(p.position.value)
    ensures shape.PlainNote? <==>
      p.noteId.Some?
      && ( || ((p.noteableType == Absent || p.noteableType == Named("Issue")) && p.issueIid.Some?)
           || (p.noteableType == Named("MergeRequest") && p.mergeRequestIid.Some?
               && (p.position == None || p.position.value.positionType != Some("text"))))
    ensures shape.PlainNote? ==> shape.system == p.system
    ensures shape.Malformed? <==>
      p.noteId.Some? && p.noteableType == Named("MergeRequest") && p.mergeRequestIid.Some?
      && p.position.Some? && p.position.value.positionType == Some("text")
      && (p.position.value.headSha == None || p.position.value.baseSha == None || p.position.value.startSha == None)
  {
    if p.noteId == None then Unparsable
    else if p.noteableType == Absent || p.noteableType == Named("Issue") then
      if p.issueIid == None then Unparsable else PlainNote(p.system)
    else if p.noteableType == Named("MergeRequest") then
      if p.mergeRequestIid == None then Unparsable
      else if p.position.Some? && p.position.value.positionType == Some("text") then
        if HasShas(p.position.value) then ReviewNote else Malformed
      else PlainNote(p.system)
    else Unparsable
  }

  /** A record of kind note is an envelope made by a backfill, or a raw webhook payload. */
  datatype Body = Envelope(system: bool) | Webhook(payload: Payload) | Thread

  function ShapeOf(body: Body): Shape
    requires !body.Thread?
  {
    match body
    case Envelope(system) => PlainNote(system)
    case Webhook(payload) => Parse(payload)
  }

  // ---------------------------------------------------------------------------
  // One dispatch
  // ---------------------------------------------------------------------------

  /** A queued record: a thread belongs to the review manager, anything else to the note manager. */
  datatype Task = Task(body: Body, noteRetried: bool, reviewRetried: bool)

  /** `Duplicate`: the engine had seen the event id of the record that was put back. */
  datatype Outcome = Applied | Skipped | Dropped | Duplicate | Again(task: Task)

  /** What a dispatch does with a task when the parent is found or not. */
  function Dispatch(t: Task, found: bool): Outcome {
    if t.body.Thread? then
      if found then Applied
      else if t.reviewRetried then Dropped
      else Again(t.(reviewRetried := true))
    else
      match ShapeOf(t.body)
      case Unparsable => Dropped
      case Malformed => Dropped
      case ReviewNote =>
        if found then Again(Task(Thread, false, t.reviewRetried || t.noteRetried))
        else if t.reviewRetried || t.noteRetried then Dropped
        else Again(t.(reviewRetried := true))
      case PlainNote(system) =>
        if system then Skipped
        else if found then Applied
        else if t.noteRetried then Dropped
        else Again(t.(noteRetried := true))
  }

  /** How many dispatches a task can still cause. */
  function Measure(t: Task): (n: nat)
    ensures 1 <= n <= 3
  {
    if t.body.Thread? then if t.reviewRetried then 1 else 2
    else
      match ShapeOf(t.body)
      case Unparsable => 1
      case Malformed => 1
      case ReviewNote => if t.reviewRetried || t.noteRetried then 2 else 3
      case PlainNote(system) => if system || t.noteRetried then 1 else 2
  }

  /** Whatever the lookup says, a re-enqueued task is closer to its end. */
  lemma DispatchDecreases(t: Task, found: bool)
    ensures Dispatch(t, found).Again? ==> Measure(Dispatch(t, found).task) < Measure(t)
  {
  }

  // ---------------------------------------------------------------------------
  // The cascade of one delivery
  // ---------------------------------------------------------------------------

  /**
   * What the event ids of one delivery are made of: the note, its discussion, and either's
   * version at the i-th dispatch (a note without a date is parsed with the current one).
   */
  datatype Subject = Subject(note: string, noteVersion: nat -> string, discussion: string, threadVersion: nat -> string)

  /** The (event id, version) pairs under which a record is put back; its project and parent are fixed. */
  datatype EventKey =
    | Deferred(id: string, version: string)
    | DeferredReview(id: string, version: string)
    | Review(id: string, version: string)

  /** The pair for the record that the i-th dispatch, of `t`, puts back. */
  function KeyFor(t: Task, found: bool, sub: Subject, i: nat): EventKey {
    if t.body.Thread? then DeferredReview(sub.discussion, sub.threadVersion(i))
    else if !ShapeOf(t.body).ReviewNote? then Deferred(sub.note, sub.noteVersion(i))
    else if found then Review(sub.note, sub.noteVersion(i))
    else DeferredReview(sub.note, sub.noteVersion(i))
  }

  /** One dispatch and the deduplication of what it puts back. */
  function Settle(t: Task, found: bool, sub: Subject, seen: set<EventKey>, i: nat): Outcome {
    var o := Dispatch(t, found);
    if o.Again? && KeyFor(t, found, sub, i) in seen then Duplicate else o
  }

  /** The number of dispatches, when the i-th one finds what `answers(i)` says. */
  function Dispatches(t: Task, answers: nat -> bool, i: nat, sub: Subject, seen: set<EventKey>): nat
    decreases Measure(t)
  {
    var o := Settle(t, answers(i), sub, seen, i);
    DispatchDecreases(t, answers(i));
    1 + if o.Again? then Dispatches(o.task, answers, i + 1, sub, seen + {KeyFor(t, answers(i), sub, i)}) else 0
  }

  function Final(t: Task, answers: nat -> bool, i: nat, sub: Subject, seen: set<EventKey>): (o: Outcome)
    ensures !o.Again?
    decreases Measure(t)
  {
    var o := Settle(t, answers(i), sub, seen, i);
    DispatchDecreases(t, answers(i));
    if o.Again? then Final(o.task, answers, i + 1, sub, seen + {KeyFor(t, answers(i), sub, i)}) else o
  }

  lemma {:induction false} DispatchesBounded(t: Task, answers: nat -> bool, i: nat, sub: Subject, seen: set<EventKey>)
    ensures 1 <= Dispatches(t, answers, i, sub, seen) <= Measure(t)
    decreases Measure(t)
  {
    var o := Settle(t, answers(i), sub, seen, i);
    DispatchDecreases(t, answers(i));
    if o.Again? { DispatchesBounded(o.task, answers, i + 1, sub, seen + {KeyFor(t, answers(i), sub, i)}); }
  }

  /** A delivery causes at most three dispatches, whatever the lookups answer and whatever was seen before. */
  lemma AtMostThree(t: Task, answers: nat -> bool, sub: Subject, seen: set<EventKey>)
    ensures Dispatches(t, answers, 0, sub, seen) <= 3
  {
    DispatchesBounded(t, answers, 0, sub, seen);
  }

  const NOTHING_SEEN: set<EventKey> := {}

  /** The measure is the exact maximum: some answers reach it. */
  lemma MeasureReached(t: Task, sub: Subject) returns (answers: nat -> bool)
    ensures Dispatches(t, answers, 0, sub, NOTHING_SEEN) == Measure(t)
  {
    var review := !t.body.Thread? && ShapeOf(t.body).ReviewNote?;
    answers := (i: nat) => review && i == 0;
    var o, key := Dispatch(t, answers(0)), KeyFor(t, answers(0), sub, 0);
    if o.Again? {
      var o1, key1 := Dispatch(o.task, answers(1)), KeyFor(o.task, answers(1), sub, 1);
      assert key1 in {key} ==> !o1.Again?;
      assert Dispatches(o.task, answers, 1, sub, NOTHING_SEEN + {key})
        == 1 + if o1.Again? then Dispatches(o1.task, answers, 2, sub, NOTHING_SEEN + {key} + {key1}) else 0;
    }
  }

  /** A task that nobody has put back yet. */
  predicate Fresh(t: Task) {
    !t.noteRetried && !t.reviewRetried
  }

  predicate Lost(o: Outcome) {
    o == Dropped || o == Duplicate
  }

  /**
   * A fresh line comment is lost exactly when two of the first three lookups miss, or a pair
   * under which it is put back was seen before.
   */
  lemma LineCommentLostExactly(t: Task, answers: nat -> bool, sub: Subject, seen: set<EventKey>)
    requires Fresh(t) && !t.body.Thread? && ShapeOf(t.body).ReviewNote?
    ensures Lost(Final(t, answers, 0, sub, seen)) <==>
      || (!answers(0) && !answers(1)) || (!answers(0) && !answers(2)) || (!answers(1) && !answers(2))
      || (!answers(0) && DeferredReview(sub.note, sub.noteVersion(0)) in seen)
      || (answers(0) && Review(sub.note, sub.noteVersion(0)) in seen)
      || (!answers(0) && answers(1) && Review(sub.note, sub.noteVersion(1)) in seen)
      || (answers(0) && !answers(1) && DeferredReview(sub.discussion, sub.threadVersion(1)) in seen)
    ensures !Lost(Final(t, answers, 0, sub, seen)) ==> Final(t, answers, 0, sub, seen) == Applied
  {
    var o, key := Settle(t, answers(0), sub, seen, 0), KeyFor(t, answers(0), sub, 0);
    if o.Again? {
      var seen1 := seen + {key};
      var o1, key1 := Settle(o.task, answers(1), sub, seen1, 1), KeyFor(o.task, answers(1), sub, 1);
      assert Final(t, answers, 0, sub, seen) == Final(o.task, answers, 1, sub, seen1);
      assert Final(o.task, answers, 1, sub, seen1)
        == if o1.Again? then Final(o1.task, answers, 2, sub, seen1 + {key1}) else o1;
      if o1.Again? { assert Final(o1.task, answers, 2, sub, seen1 + {key1}) == Settle(o1.task, answers(2), sub, seen1 + {key1}, 2); }
    }
  }

  /** Any other fresh note or thread is lost exactly when the first lookup misses and the retry does too or was seen before. */
  lemma OthersLostExactly(t: Task, answers: nat -> bool, sub: Subject, seen: set<EventKey>)
    requires Fresh(t)
    requires match t.body
      case Thread => true
      case Envelope(system) => !system
      case Webhook(payload) => Parse(payload) == PlainNote(false)
    ensures var key := if t.body.Thread? then DeferredReview(sub.discussion, sub.threadVersion(0)) else Deferred(sub.note, sub.noteVersion(0));
      Lost(Final(t, answers, 0, sub, seen)) <==> !answers(0) && (!answers(1) || key in seen)
    ensures !Lost(Final(t, answers, 0, sub, seen)) ==> Final(t, answers, 0, sub, seen) == Applied
  {
    var o, seen1 := Settle(t, answers(0), sub, seen, 0), seen + {KeyFor(t, answers(0), sub, 0)};
    if o.Again? { assert Final(o.task, answers, 1, sub, seen1) == Settle(o.task, answers(1), sub, seen1, 1); }
  }

  /** A system note is skipped, and a hook that cannot be read is dropped, at once and whatever the flags. */
  lemma EndsAtOnce(t: Task, answers: nat -> bool, sub: Subject, seen: set<EventKey>)
    requires !t.body.Thread?
    ensures t.body == Envelope(true) ==> ShapeOf(t.body) == PlainNote(true)
    ensures ShapeOf(t.body) == PlainNote(true) ==> Final(t, answers, 0, sub, seen) == Skipped
    ensures ShapeOf(t.body).Unparsable? || ShapeOf(t.body).Malformed? ==> Final(t, answers, 0, sub, seen) == Dropped
    ensures ShapeOf(t.body) == PlainNote(true) || ShapeOf(t.body).Unparsable? || ShapeOf(t.body).Malformed? ==>
      Dispatches(t, answers, 0, sub, seen) == 1
  {
  }

  // ---------------------------------------------------------------------------
  // The managers, on records that they mark in place
  // ---------------------------------------------------------------------------

  datatype Flag = NOTE_RETRY_FLAG | REVIEW_RETRY_FLAG

  class Record {
    const body: Body
    var flags: set<Flag>

    constructor (body: Body, flags: set<Flag>)
      ensures this.body == body && this.flags == flags
    {
      this.body, this.flags := body, flags;
    }

    function View(): Task
      reads this
    {
      Task(body, NOTE_RETRY_FLAG in flags, REVIEW_RETRY_FLAG in flags)
    }
  }

  datatype Verdict = Finished(outcome: Outcome) | Enqueued(record: Record)

  function Meaning(v: Verdict): Outcome
    reads if v.Enqueued? then {v.record} else {}
  {
    if v.Enqueued? then Again(v.record.View()) else v.outcome
  }

  /** True exactly the first time; the record itself remembers. */
  method MarkAndRetry(record: Record, flag: Flag) returns (first: bool)
    modifies record
    ensures first <==> flag !in old(record.flags)
    ensures record.flags == old(record.flags) + {flag}
  {
    if flag in record.flags { return false; }
    record.flags := record.flags + {flag};
    return true;
  }

  /** The note manager's `applyRemote`, up to the write of the note. */
  method ApplyNote(record: Record, found: bool) returns (verdict: Verdict)
    requires !record.body.Thread?
    modifies record
    ensures Meaning(verdict) == Dispatch(old(record.View()), found)
    ensures if verdict.Enqueued? then fresh(verdict.record) else !verdict.outcome.Again?
    ensures old(record.flags) <= record.flags
  {
    var shape := ShapeOf(record.body);
    if shape.Unparsable? || shape.Malformed? { return Finished(Dropped); }
    if shape.ReviewNote? {
      if !found {
        if NOTE_RETRY_FLAG in record.flags { record.flags := record.flags + {REVIEW_RETRY_FLAG}; }
        var first := MarkAndRetry(record, REVIEW_RETRY_FLAG);
        if !first { return Finished(Dropped); }
        var copy := new Record(record.body, record.flags);
        return Enqueued(copy);
      }
      var envelope := new Record(Thread, {});
      if REVIEW_RETRY_FLAG in record.flags || NOTE_RETRY_FLAG in record.flags {
        envelope.flags := envelope.flags + {REVIEW_RETRY_FLAG};
      }
      return Enqueued(envelope);
    }
    if shape.system { return Finished(Skipped); }
    if !found {
      var first := MarkAndRetry(record, NOTE_RETRY_FLAG);
      if !first { return Finished(Dropped); }
      var copy := new Record(record.body, record.flags);
      return Enqueued(copy);
    }
    return Finished(Applied);
  }

  /** The review manager's `applyRemote`, up to the write of the thread. */
  method ApplyThread(record: Record, found: bool) returns (verdict: Verdict)
    requires record.body.Thread?
    modifies record
    ensures Meaning(verdict) == Dispatch(old(record.View()), found)
    ensures if verdict.Enqueued? then fresh(verdict.record) else !verdict.outcome.Again?
  {
    if !found {
      var first := MarkAndRetry(record, REVIEW_RETRY_FLAG);
      if !first { return Finished(Dropped); }
      var copy := new Record(record.body, record.flags);
      return Enqueued(copy);
    }
    return Finished(Applied);
  }

  /** A delivery run to its end: the engine deduplicates each record put back and hands it to the manager of its kind. */
  method RunDelivery(record: Record, answers: nat -> bool, sub: Subject, seen: set<EventKey>)
    returns (outcome: Outcome, dispatches: nat)
    modifies record
    ensures outcome == Final(old(record.View()), answers, 0, sub, seen)
    ensures dispatches == Dispatches(old(record.View()), answers, 0, sub, seen) <= 3
  {
    var current, known := record, seen;
    ghost var start := record.View();
    dispatches := 0;
    DispatchesBounded(start, answers, 0, sub, seen);
    while true
      invariant current == record || fresh(current)
      invariant Final(start, answers, 0, sub, seen) == Final(current.View(), answers, dispatches, sub, known)
      invariant Dispatches(start, answers, 0, sub, seen) == dispatches + Dispatches(current.View(), answers, dispatches, sub, known)
      decreases Measure(current.View())
    {
      var verdict;
      var found := answers(dispatches);
      var key := KeyFor(current.View(), found, sub, dispatches);
      DispatchDecreases(current.View(), found);
      if current.body.Thread? {
        verdict := ApplyThread(current, found);
      } else {
        verdict := ApplyNote(current, found);
      }
      dispatches := dispatches + 1;
      if verdict.Finished? { return verdict.outcome, dispatches; }
      if key in known { return Duplicate, dispatches; }
      current, known := verdict.record, known + {key};
    }
  }
}
