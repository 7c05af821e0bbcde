/**
 * The subscriber that turns platform transactions into local sync events:
 * src/sync/tx-subscription.ts, with the marker of src/sync/originated-marker.ts.
 */
module TxSubscriber {
  import opened Options

  const BUFFER_MAX: nat := 1024

  const TX_CREATE := "core:class:TxCreateDoc"
  const TX_UPDATE := "core:class:TxUpdateDoc"
  const TX_REMOVE := "core:class:TxRemoveDoc"
  const TX_MIXIN := "core:class:TxMixin"
  const ISSUE := "tracker:class:Issue"
  const CHAT_MESSAGE := "chunter:class:ChatMessage"
  const MR_MIXIN := "gitlab-mr"
  const MR_REVIEW_THREAD_MIXIN := "gitlab-review"

  const MARKER_KEY := "_originated"
  const MARKER_VALUE: Json := Text("gitlab")

  datatype Json = Null | Text(text: string) | Number(number: int) | Bool(truth: bool) | Obj(fields: Payload)

  type Payload = map<string, Json>

  /** A transaction as it comes off the wire: any of the payloads may be missing. */
  datatype Tx = Tx(txClass: string, modifiedBy: string, objectId: string, objectClass: string, mixin: string,
                   attributes: Option<Payload>, operations: Option<Payload>)

  // ---------------------------------------------------------------------------
  // The marker
  // ---------------------------------------------------------------------------

  function WithOriginatedMarker(attrs: Payload): Payload {
    attrs[MARKER_KEY := MARKER_VALUE]
  }

  function WithOriginatedMarkerForOperators(ops: Payload): Payload {
    if "$set" in ops && ops["$set"].Obj?
    then ops["$set" := Obj(ops["$set"].fields[MARKER_KEY := MARKER_VALUE])]
    else ops[MARKER_KEY := MARKER_VALUE]
  }

  predicate Marked(p: Payload) {
    MARKER_KEY in p && p[MARKER_KEY] == MARKER_VALUE
  }

  predicate IsGitlabOriginated(tx: Tx) {
    && tx.txClass != TX_REMOVE
    && ( || (tx.attributes.Some? && Marked(tx.attributes.value))
         || (tx.operations.Some? && Marked(tx.operations.value))
         || (tx.operations.Some? && "$set" in tx.operations.value && tx.operations.value["$set"].Obj?
             && Marked(tx.operations.value["$set"].fields)))
  }

  /** Either helper marks an update; the plain one also marks creates and mixins. Removes carry no mark. */
  lemma MarkedIsOriginated(tx: Tx, p: Payload)
    requires
      || tx.attributes == Some(WithOriginatedMarker(p))
      || tx.operations == Some(WithOriginatedMarker(p))
      || tx.operations == Some(WithOriginatedMarkerForOperators(p))
    ensures IsGitlabOriginated(tx) <==> tx.txClass != TX_REMOVE
  {
    assert "$set" != MARKER_KEY;
  }

  /** The operator helper is for updates only: on a create or a mixin its mark under $set goes unseen. */
  lemma OperatorMarkOnAttributes(tx: Tx, p: Payload)
    requires tx.txClass != TX_REMOVE && tx.operations == None
    requires tx.attributes == Some(WithOriginatedMarkerForOperators(p))
    ensures IsGitlabOriginated(tx) <==> Marked(p) || !("$set" in p && p["$set"].Obj?)
  {
    assert "$set" != MARKER_KEY;
  }

  // ---------------------------------------------------------------------------
  // Classification and binding
  // ---------------------------------------------------------------------------

  datatype Kind = MergeRequest | Review | Issue | Note

  datatype Classified = Classified(kind: Kind, doc: string, change: Payload, objectClass: string)

  function OrEmpty(p: Option<Payload>): Payload {
    if p.Some? then p.value else map[]
  }

  function ByObjectClass(tx: Tx, change: Payload): Option<Classified> {
    if tx.objectClass == ISSUE then Some(Classified(Issue, tx.objectId, change, tx.objectClass))
    else if tx.objectClass == CHAT_MESSAGE then Some(Classified(Note, tx.objectId, change, tx.objectClass))
    else None
  }

  function Classify(tx: Tx): Option<Classified> {
    if tx.txClass == TX_MIXIN then
      if tx.mixin == MR_MIXIN then Some(Classified(MergeRequest, tx.objectId, OrEmpty(tx.attributes), tx.objectClass))
      else if tx.mixin == MR_REVIEW_THREAD_MIXIN then Some(Classified(Review, tx.objectId, OrEmpty(tx.attributes), tx.objectClass))
      else None
    else if tx.txClass == TX_UPDATE then ByObjectClass(tx, OrEmpty(tx.operations))
    else if tx.txClass == TX_CREATE then ByObjectClass(tx, OrEmpty(tx.attributes))
    else if tx.txClass == TX_REMOVE then ByObjectClass(tx, map["_removed" := Bool(true)])
    else None
  }

  /** What the outside answers while a transaction is handled: the resolver, if there is one, and the bindings. */
  datatype Env = Env(resolver: Option<Option<string>>, bindings: map<string, string>)

  /** `resolveBinding`: the resolver's answer, else the one binding of a map with one entry. */
  ghost function Resolve(env: Env): Option<string> {
    if env.resolver.Some? then env.resolver.value
    else if |env.bindings| == 1 then
      assert env.bindings.Keys != {};
      var k :| k in env.bindings; Some(env.bindings[k])
    else None
  }

  lemma OneKey(m: map<string, string>, a: string, b: string)
    requires |m| == 1 && a in m && b in m
    ensures a == b
  {
    assert |m.Keys - {a}| == 0;
    assert b in (m.Keys - {a}) + {a};
  }

  datatype Entry = Entry(binding: string, kind: Kind, doc: string, change: Payload)

  /** The local event a transaction amounts to, if it is accepted. */
  ghost function Accept(tx: Tx, self: string, env: Env): Option<Entry> {
    if tx.modifiedBy == self || IsGitlabOriginated(tx) then None
    else
      match Classify(tx)
      case None => None
      case Some(c) =>
        var binding := Resolve(env);
        if binding == None then None else Some(Entry(binding.value, c.kind, c.doc, c.change))
  }

  // ---------------------------------------------------------------------------
  // What is accepted, and as what: the translation table written out
  // ---------------------------------------------------------------------------

  ghost predicate CarriesMark(p: Option<Payload>) {
    p.Some? && "_originated" in p.value && p.value["_originated"] == Text("gitlab")
  }

  /** Made by the program itself, or marked by it: on an update also under $set. */
  ghost predicate IsEcho(tx: Tx, self: string) {
    || tx.modifiedBy == self
    || (tx.txClass != "core:class:TxRemoveDoc" && (
          || CarriesMark(tx.attributes) || CarriesMark(tx.operations)
          || (tx.operations.Some? && "$set" in tx.operations.value && tx.operations.value["$set"].Obj?
              && CarriesMark(Some(tx.operations.value["$set"].fields)))))
  }

  lemma EchoExactly(tx: Tx, self: string)
    ensures tx.modifiedBy == self || IsGitlabOriginated(tx) <==> IsEcho(tx, self)
  {
  }

  /** The payload, or nothing at all if it is missing. */
  ghost predicate PayloadOr(p: Option<Payload>, change: Payload) {
    if p.Some? then change == p.value else change == map[]
  }

  /** The manager of the object's class. */
  ghost predicate OfClass(tx: Tx, kind: Kind) {
    || (tx.objectClass == "tracker:class:Issue" && kind == Issue)
    || (tx.objectClass == "chunter:class:ChatMessage" && kind == Note)
  }

  /** A mixin of either kind, or a create, an update or a remove of an issue or a chat message. */
  ghost predicate Translates(tx: Tx, kind: Kind, change: Payload) {
    || (tx.txClass == "core:class:TxMixin" && tx.mixin == "gitlab-mr" && kind == MergeRequest && PayloadOr(tx.attributes, change))
    || (tx.txClass == "core:class:TxMixin" && tx.mixin == "gitlab-review" && kind == Review && PayloadOr(tx.attributes, change))
    || (tx.txClass == "core:class:TxCreateDoc" && OfClass(tx, kind) && PayloadOr(tx.attributes, change))
    || (tx.txClass == "core:class:TxUpdateDoc" && OfClass(tx, kind) && PayloadOr(tx.operations, change))
    || (tx.txClass == "core:class:TxRemoveDoc" && OfClass(tx, kind) && change == map["_removed" := Bool(true)])
  }

  /** The resolver's answer; without a resolver, the binding of a map with one entry. */
  ghost predicate BindsTo(env: Env, binding: string) {
    || env.resolver == Some(Some(binding))
    || (env.resolver == None && exists project :: env.bindings == map[project := binding])
  }

  ghost predicate AcceptedAs(tx: Tx, self: string, env: Env, entry: Entry) {
    && !IsEcho(tx, self) && Translates(tx, entry.kind, entry.change)
    && entry.doc == tx.objectId && BindsTo(env, entry.binding)
  }

  lemma ResolveExactly(env: Env, binding: string)
    ensures Resolve(env) == Some(binding) <==> BindsTo(env, binding)
  {
    if env.resolver.None? {
      if |env.bindings| == 1 {
        assert env.bindings.Keys != {};
        var k :| k in env.bindings;
        forall b | b in env.bindings ensures b == k { OneKey(env.bindings, b, k); }
        assert env.bindings == map[k := env.bindings[k]];
        if project :| env.bindings == map[project := binding] { assert project in env.bindings; }
      } else {
        forall project ensures env.bindings != map[project := binding] {
          assert |map[project := binding]| == 1;
        }
      }
    }
  }

  lemma ClassifyExactly(tx: Tx, kind: Kind, doc: string, change: Payload)
    ensures (Classify(tx).Some? && Classify(tx).value.kind == kind && Classify(tx).value.doc == doc && Classify(tx).value.change == change)
       <==> Translates(tx, kind, change) && doc == tx.objectId
  {
  }

  /** A transaction is accepted exactly as the table says. */
  lemma AcceptExactly(tx: Tx, self: string, env: Env, entry: Entry)
    ensures Accept(tx, self, env) == Some(entry) <==> AcceptedAs(tx, self, env, entry)
  {
    hide IsGitlabOriginated, Classify, Resolve, IsEcho, Translates, BindsTo;
    EchoExactly(tx, self);
    ClassifyExactly(tx, entry.kind, entry.doc, entry.change);
    ResolveExactly(env, entry.binding);
  }

  // ---------------------------------------------------------------------------
  // Runs
  // ---------------------------------------------------------------------------

  datatype Op = Start | MarkStarted | Stop | Notify(tx: Tx, env: Env)

  datatype State = State(buffer: seq<Entry>, engineStarted: bool, attached: bool, dispatched: seq<Entry>)

  const INITIAL: State := State([], false, false, [])

  ghost function Next(s: State, self: string, op: Op): State {
    match op
    case Start => s.(attached := true)
    case MarkStarted => State([], true, s.attached, s.dispatched + s.buffer)
    case Stop => s.(attached := false, buffer := [])
    case Notify(tx, env) =>
      var entry := Accept(tx, self, env);
      if !s.attached || entry == None then s
      else if s.engineStarted then s.(dispatched := s.dispatched + [entry.value])
      else if |s.buffer| >= BUFFER_MAX then s
      else s.(buffer := s.buffer + [entry.value])
  }

  ghost function Run(s: State, self: string, ops: seq<Op>): State {
    if ops == [] then s else Next(Run(s, self, ops[..|ops| - 1]), self, ops[|ops| - 1])
  }

  /** The accepted transactions of a run, in order of arrival. */
  ghost function Accepted(self: string, ops: seq<Op>): seq<Entry> {
    if ops == [] then []
    else
      var before, last := Accepted(self, ops[..|ops| - 1]), ops[|ops| - 1];
      if last.Notify? && Accept(last.tx, self, last.env).Some?
      then before + [Accept(last.tx, self, last.env).value] else before
  }

  function Capped(entries: seq<Entry>): seq<Entry> {
    if |entries| <= 1024 then entries else entries[..1024]
  }

  ghost predicate Without(ops: seq<Op>, op: Op) {
    op !in ops
  }

  lemma {:induction false} ColdRun(s: State, self: string, ops: seq<Op>)
    requires Without(ops, Stop) && Without(ops, MarkStarted)
    requires s.attached && !s.engineStarted && s.buffer == []
    ensures Run(s, self, ops) == s.(buffer := Capped(Accepted(self, ops)))
  {
    if ops != [] { ColdRun(s, self, ops[..|ops| - 1]); }
  }

  lemma {:induction false} WarmRun(s: State, self: string, ops: seq<Op>)
    requires Without(ops, Stop)
    requires s.attached && s.engineStarted && s.buffer == []
    ensures Run(s, self, ops) == s.(dispatched := s.dispatched + Accepted(self, ops))
  {
    if ops == [] {
      assert s.dispatched + Accepted(self, ops) == s.dispatched;
    } else {
      WarmRun(s, self, ops[..|ops| - 1]);
    }
  }

  lemma {:induction false} RunInTwo(s: State, self: string, a: seq<Op>, b: seq<Op>)
    ensures Run(s, self, a + b) == Run(Run(s, self, a), self, b)
    decreases |b|
  {
    if b == [] {
      assert a + b == a;
    } else {
      assert (a + b)[..|a + b| - 1] == a + b[..|b| - 1];
      RunInTwo(s, self, a, b[..|b| - 1]);
    }
  }

  /**
   * Without a stop, the engine gets exactly the accepted transactions in order of arrival,
   * minus those past the first 1024 before the engine was marked started.
   */
  lemma DispatchesAcceptedInOrder(self: string, cold: seq<Op>, warm: seq<Op>)
    requires Without(cold, Stop) && Without(cold, MarkStarted) && Without(warm, Stop)
    ensures Run(INITIAL, self, [Start] + cold + [MarkStarted] + warm).dispatched
         == Capped(Accepted(self, cold)) + Accepted(self, warm)
    ensures Run(INITIAL, self, [Start] + cold).dispatched == []
  {
    hide Run, Accepted, Accept;
    var s0 := INITIAL.(attached := true);
    RunOne(INITIAL, self, Start);
    RunInTwo(INITIAL, self, [Start], cold);
    ColdRun(s0, self, cold);
    var s1 := s0.(buffer := Capped(Accepted(self, cold)));
    RunInTwo(INITIAL, self, [Start] + cold, [MarkStarted]);
    RunOne(s1, self, MarkStarted);
    RunInTwo(INITIAL, self, [Start] + cold + [MarkStarted], warm);
    WarmRun(Next(s1, self, MarkStarted), self, warm);
  }

  lemma RunOne(s: State, self: string, op: Op)
    ensures Run(s, self, [op]) == Next(s, self, op)
  {
    assert Run(s, self, [op]) == Next(Run(s, self, [op][..0]), self, op);
  }

  /** From a stop until the next start nothing is dispatched, and what was buffered is gone. */
  lemma {:induction false} StoppedIsSilent(s: State, self: string, ops: seq<Op>)
    requires Without(ops, Start)
    ensures var stopped := Run(Next(s, self, Stop), self, ops);
      stopped.dispatched == s.dispatched && stopped.buffer == [] && !stopped.attached
  {
    if ops != [] { StoppedIsSilent(s, self, ops[..|ops| - 1]); }
    assert s.dispatched + [] == s.dispatched;
  }

  ghost predicate Echo(op: Op, self: string) {
    op.Notify? && (op.tx.modifiedBy == self || IsGitlabOriginated(op.tx))
  }

  /** The run without its echoes. */
  ghost function Silenced(self: string, ops: seq<Op>): seq<Op> {
    if ops == [] then []
    else
      var before, last := Silenced(self, ops[..|ops| - 1]), ops[|ops| - 1];
      if Echo(last, self) then before else before + [last]
  }

  lemma EchoIsNoStep(s: State, self: string, op: Op)
    requires Echo(op, self)
    ensures Next(s, self, op) == s
  {
  }

  /** In any run, with stops or not, the echoes of the program's own writes make no difference. */
  lemma {:induction false} EchoesInvisible(s: State, self: string, ops: seq<Op>)
    ensures Run(s, self, ops) == Run(s, self, Silenced(self, ops))
  {
    hide Next, Echo;
    if ops != [] {
      EchoesInvisible(s, self, ops[..|ops| - 1]);
      var before, last := Silenced(self, ops[..|ops| - 1]), ops[|ops| - 1];
      if Echo(last, self) {
        EchoIsNoStep(Run(s, self, ops[..|ops| - 1]), self, last);
      } else {
        assert (before + [last])[..|before|] == before;
      }
    }
  }

  // ---------------------------------------------------------------------------
  // The subscriber as the object it is
  // ---------------------------------------------------------------------------

  class Subscriber {
    const serviceAccount: string
    var buffer: seq<Entry>
    var engineStarted: bool
    var stopped: bool
    /** Whether the client's notify hook is this subscriber's handler. */
    var handlerSet: bool
    /** The calls of `enqueueLocalEvent`, in order. */
    ghost var dispatched: seq<Entry>

    ghost predicate Valid()
      reads this
    {
      handlerSet ==> !stopped
    }

    ghost function View(): State
      reads this
    {
      State(buffer, engineStarted, handlerSet, dispatched)
    }

    constructor (serviceAccount: string)
      ensures Valid() && View() == INITIAL && this.serviceAccount == serviceAccount
    {
      this.serviceAccount := serviceAccount;
      buffer, engineStarted, stopped, handlerSet, dispatched := [], false, false, false, [];
    }

    method StartListening()
      modifies this
      ensures Valid() && View() == Next(old(View()), serviceAccount, Start)
    {
      stopped := false;
      handlerSet := true;
    }

    method MarkEngineStarted()
      requires Valid()
      modifies this
      ensures Valid() && View() == Next(old(View()), serviceAccount, MarkStarted)
    {
      engineStarted := true;
      var drained := buffer;
      buffer := [];
      for i := 0 to |drained|
        invariant engineStarted && buffer == [] && handlerSet == old(handlerSet) && stopped == old(stopped)
        invariant dispatched == old(dispatched) + drained[..i]
      {
        EnqueueLocalEvent(drained[i]);
      }
      assert drained[..|drained|] == drained;
    }

    method StopListening()
      modifies this
      ensures Valid() && View() == Next(old(View()), serviceAccount, Stop)
    {
      stopped := true;
      handlerSet := false;
      buffer := [];
    }

    method EnqueueLocalEvent(entry: Entry)
      modifies this`dispatched
      ensures dispatched == old(dispatched) + [entry]
    {
      dispatched := dispatched + [entry];
    }

    static method ResolveBinding(env: Env) returns (binding: Option<string>)
      ensures binding == Resolve(env)
      ensures forall b :: binding == Some(b) <==> BindsTo(env, b)
    {
      forall b ensures Resolve(env) == Some(b) <==> BindsTo(env, b) { ResolveExactly(env, b); }
      if env.resolver.Some? { return env.resolver.value; }
      if |env.bindings| == 1 {
        assert env.bindings.Keys != {};
        var k :| k in env.bindings;
        forall b | b in env.bindings ensures b == k { OneKey(env.bindings, b, k); }
        return Some(env.bindings[k]);
      }
      return None;
    }

    /** One transaction through the handler. */
    method OnTx(tx: Tx, env: Env)
      requires Valid() && handlerSet
      modifies this
      ensures Valid() && View() == Next(old(View()), serviceAccount, Notify(tx, env))
      ensures forall entry :: AcceptedAs(tx, serviceAccount, env, entry) ==>
        if old(engineStarted) then dispatched == old(dispatched) + [entry] && buffer == old(buffer)
        else dispatched == old(dispatched) && buffer == if |old(buffer)| < 1024 then old(buffer) + [entry] else old(buffer)
      ensures (forall entry :: !AcceptedAs(tx, serviceAccount, env, entry)) ==>
        dispatched == old(dispatched) && buffer == old(buffer)
      ensures engineStarted == old(engineStarted) && handlerSet
    {
      hide IsGitlabOriginated, Classify, Resolve, AcceptedAs;
      forall entry ensures Accept(tx, serviceAccount, env) == Some(entry) <==> AcceptedAs(tx, serviceAccount, env, entry) {
        AcceptExactly(tx, serviceAccount, env, entry);
      }
      if stopped { return; }
      if tx.modifiedBy == serviceAccount { return; }
      if IsGitlabOriginated(tx) { return; }
      var classified := Classify(tx);
      if classified == None { return; }
      var binding := ResolveBinding(env);
      if binding == None { return; }
      var entry := Entry(binding.value, classified.value.kind, classified.value.doc, classified.value.change);
      if !engineStarted {
        if |buffer| >= BUFFER_MAX { return; }
        buffer := buffer + [entry];
        return;
      }
      EnqueueLocalEvent(entry);
    }

    /** The notify hook: a batch in one go, the outside asked anew for each transaction. */
    method HandleNotify(txes: seq<Tx>, envs: seq<Env>)
      requires Valid() && handlerSet && |envs| == |txes|
      modifies this
      ensures Valid() && View() == Run(old(View()), serviceAccount, Batch(txes, envs))
    {
      hide Next;
      for i := 0 to |txes|
        invariant Valid() && handlerSet == old(handlerSet)
        invariant View() == Run(old(View()), serviceAccount, Batch(txes[..i], envs[..i]))
      {
        BatchNext(old(View()), serviceAccount, txes, envs, i);
        NotifyKeepsHandler(View(), serviceAccount, Notify(txes[i], envs[i]));
        OnTx(txes[i], envs[i]);
      }
      assert txes[..|txes|] == txes && envs[..|txes|] == envs;
    }
  }

  ghost function Batch(txes: seq<Tx>, envs: seq<Env>): seq<Op>
    requires |envs| == |txes|
  {
    seq(|txes|, i requires 0 <= i < |txes| => Notify(txes[i], envs[i]))
  }

  lemma BatchNext(s: State, self: string, txes: seq<Tx>, envs: seq<Env>, i: nat)
    requires i < |txes| == |envs|
    ensures Run(s, self, Batch(txes[..i + 1], envs[..i + 1]))
         == Next(Run(s, self, Batch(txes[..i], envs[..i])), self, Notify(txes[i], envs[i]))
  {
    assert Batch(txes[..i + 1], envs[..i + 1])[..i] == Batch(txes[..i], envs[..i]);
  }

  lemma NotifyKeepsHandler(s: State, self: string, op: Op)
    requires op.Notify?
    ensures Next(s, self, op).attached == s.attached
  {
  }
}
