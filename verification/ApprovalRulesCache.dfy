/**
 * The approval-rules cache of src/adapter/gitlab-client.ts: an insertion-ordered map with a
 * ten-second lifetime and room for 256 entries, the least recently used leaving first.
 *
 * The reference is a plain map from a key to the latest value set and not invalidated.
 */
module ApprovalRulesCache {
  import opened Options

  const TTL_MS: int := 10 * 1000
  const CAPACITY: nat := 256

  datatype Slot<V> = Slot(key: string, value: V, expiresAt: int)

  datatype Op<V> =
    | Get(key: string, now: int)
    | Set(key: string, value: V, now: int)
    | Invalidate(key: string, now: int)

  ghost predicate Monotone<V>(ops: seq<Op<V>>) {
    forall i, j :: 0 <= i < j < |ops| ==> ops[i].now <= ops[j].now
  }

  ghost predicate NotBefore<V>(ops: seq<Op<V>>, now: int) {
    forall i :: 0 <= i < |ops| ==> ops[i].now <= now
  }

  // ---------------------------------------------------------------------------
  // The ordered map
  // ---------------------------------------------------------------------------

  function Keys<V>(c: seq<Slot<V>>): set<string> {
    if c == [] then {} else {c[0].key} + Keys(c[1..])
  }

  predicate Distinct<V>(c: seq<Slot<V>>) {
    c == [] || (c[0].key !in Keys(c[1..]) && Distinct(c[1..]))
  }

  function Lookup<V>(c: seq<Slot<V>>, key: string): Option<Slot<V>> {
    if c == [] then None else if c[0].key == key then Some(c[0]) else Lookup(c[1..], key)
  }

  function Remove<V>(c: seq<Slot<V>>, key: string): seq<Slot<V>> {
    if c == [] then []
    else if c[0].key == key then Remove(c[1..], key)
    else [c[0]] + Remove(c[1..], key)
  }

  /** The keys in the slots behind the slot of `key`: those used more recently. */
  function Behind<V>(c: seq<Slot<V>>, key: string): set<string> {
    if c == [] then {} else if c[0].key == key then Keys(c[1..]) else Behind(c[1..], key)
  }

  predicate Expired<V>(slot: Slot<V>, now: int) {
    now >= slot.expiresAt
  }

  function Answer<V>(c: seq<Slot<V>>, key: string, now: int): Option<V> {
    var found := Lookup(c, key);
    if found.Some? && !Expired(found.value, now) then Some(found.value.value) else None
  }

  function MoveToBack<V>(c: seq<Slot<V>>, slot: Slot<V>): seq<Slot<V>> {
    Remove(c, slot.key) + [slot]
  }

  function Trim<V>(c: seq<Slot<V>>): seq<Slot<V>> {
    if |c| > CAPACITY then c[|c| - CAPACITY..] else c
  }

  function Next<V>(c: seq<Slot<V>>, op: Op<V>): seq<Slot<V>> {
    match op
    case Get(key, now) =>
      var found := Lookup(c, key);
      if found == None then c
      else if Expired(found.value, now) then Remove(c, key)
      else MoveToBack(c, found.value)
    case Set(key, value, now) => Trim(MoveToBack(c, Slot(key, value, now + TTL_MS)))
    case Invalidate(key, _) => Remove(c, key)
  }

  function Run<V>(ops: seq<Op<V>>): seq<Slot<V>> {
    if ops == [] then [] else Next(Run(ops[..|ops| - 1]), ops[|ops| - 1])
  }

  // ---------------------------------------------------------------------------
  // The plain map, and who was used since
  // ---------------------------------------------------------------------------

  datatype Entry<V> = Entry(value: V, setAt: int)

  /** The latest value set for the key, unless it was invalidated since. */
  function Latest<V>(ops: seq<Op<V>>, key: string): Option<Entry<V>> {
    if ops == [] then None
    else
      match ops[|ops| - 1]
      case Set(k, value, now) => if k == key then Some(Entry(value, now)) else Latest(ops[..|ops| - 1], key)
      case Invalidate(k, _) => if k == key then None else Latest(ops[..|ops| - 1], key)
      case Get(_, _) => Latest(ops[..|ops| - 1], key)
  }

  /** A call uses its key when it sets it, or finds it unexpired. */
  predicate Uses<V>(c: seq<Slot<V>>, op: Op<V>) {
    op.Set? || (op.Get? && Answer(c, op.key, op.now).Some?)
  }

  /** The distinct other keys used since the key itself was last used. */
  function UsedSince<V>(ops: seq<Op<V>>, key: string): set<string> {
    if ops == [] then {}
    else
      var before, last := ops[..|ops| - 1], ops[|ops| - 1];
      if !Uses(Run(before), last) then UsedSince(before, key)
      else if last.key == key then {}
      else UsedSince(before, key) + {last.key}
  }

  /** Since the key was last used, no entry was invalidated or found to be expired. */
  predicate NothingRemovedSince<V>(ops: seq<Op<V>>, key: string) {
    ops == [] ||
    var before, last := ops[..|ops| - 1], ops[|ops| - 1];
    if Uses(Run(before), last) then last.key == key || NothingRemovedSince(before, key)
    else Lookup(Run(before), last.key) == None && NothingRemovedSince(before, key)
  }

  // ---------------------------------------------------------------------------
  // The ordered map, one call at a time
  // ---------------------------------------------------------------------------

  lemma {:induction false} RemoveFacts<V>(c: seq<Slot<V>>, gone: string, key: string)
    requires Distinct(c)
    ensures Distinct(Remove(c, gone)) && Keys(Remove(c, gone)) == Keys(c) - {gone}
    ensures |Remove(c, gone)| == |c| - if gone in Keys(c) then 1 else 0
    ensures key != gone ==> Lookup(Remove(c, gone), key) == Lookup(c, key)
    ensures key != gone ==> Behind(Remove(c, gone), key) == Behind(c, key) - {gone}
    ensures Lookup(Remove(c, gone), gone) == None
  {
    if c != [] {
      RemoveFacts(c[1..], gone, key);
      var r := Remove(c[1..], gone);
      if c[0].key != gone { assert ([c[0]] + r)[1..] == r; }
    }
  }

  lemma {:induction false} LookupFacts<V>(c: seq<Slot<V>>, key: string)
    requires Distinct(c)
    ensures Lookup(c, key).Some? <==> key in Keys(c)
    ensures Lookup(c, key).Some? ==> Lookup(c, key).value.key == key
    ensures |Keys(c)| == |c| && Behind(c, key) <= Keys(c) && key !in Behind(c, key)
  {
    if c != [] { LookupFacts(c[1..], key); }
  }

  lemma {:induction false} AppendFacts<V>(c: seq<Slot<V>>, slot: Slot<V>, key: string)
    requires Distinct(c) && slot.key !in Keys(c)
    ensures Distinct(c + [slot]) && Keys(c + [slot]) == Keys(c) + {slot.key}
    ensures Lookup(c + [slot], slot.key) == Some(slot) && Behind(c + [slot], slot.key) == {}
    ensures key != slot.key ==> Lookup(c + [slot], key) == Lookup(c, key)
    ensures key in Keys(c) ==> Behind(c + [slot], key) == Behind(c, key) + {slot.key}
  {
    if c == [] {
      assert c + [slot] == [slot];
    } else {
      assert (c + [slot])[1..] == c[1..] + [slot];
      AppendFacts(c[1..], slot, key);
    }
  }

  lemma MoveFacts<V>(c: seq<Slot<V>>, slot: Slot<V>, key: string)
    requires Distinct(c)
    ensures var m := MoveToBack(c, slot);
      && Distinct(m) && |m| == |c| + (if slot.key in Keys(c) then 0 else 1)
      && Lookup(m, slot.key) == Some(slot) && Behind(m, slot.key) == {}
      && (key != slot.key ==> Lookup(m, key) == Lookup(c, key))
      && (key != slot.key && key in Keys(c) ==> Behind(m, key) == Behind(c, key) + {slot.key})
  {
    RemoveFacts(c, slot.key, key);
    AppendFacts(Remove(c, slot.key), slot, key);
  }

  /** Dropping the oldest slot takes a key away only if all the others are behind it. */
  lemma DropOldest<V>(c: seq<Slot<V>>, key: string)
    requires Distinct(c) && |c| > 0
    ensures Distinct(c[1..])
    ensures c[0].key != key ==> Lookup(c[1..], key) == Lookup(c, key) && Behind(c[1..], key) == Behind(c, key)
    ensures c[0].key == key ==> Lookup(c[1..], key) == None && |Behind(c, key)| == |c| - 1
  {
    LookupFacts(c[1..], key);
  }

  // ---------------------------------------------------------------------------
  // The cache against the plain map, over every run
  // ---------------------------------------------------------------------------

  ghost predicate Bounded<V>(c: seq<Slot<V>>) {
    Distinct(c) && |c| <= CAPACITY
  }

  /** What a slot list says about one key, given the plain map's entry and the keys used since. */
  ghost predicate Tracks<V>(c: seq<Slot<V>>, key: string, e: Option<Entry<V>>, used: set<string>, exact: bool, now: int) {
    match e
    case None => Lookup(c, key) == None
    case Some(entry) =>
      if Lookup(c, key) == None then now >= entry.setAt + TTL_MS || |used| >= CAPACITY
      else
        && Lookup(c, key) == Some(Slot(key, entry.value, entry.setAt + TTL_MS))
        && Behind(c, key) <= used && (exact ==> Behind(c, key) == used)
  }

  ghost predicate Inv<V>(ops: seq<Op<V>>, key: string, now: int) {
    && Bounded(Run(ops))
    && Tracks(Run(ops), key, Latest(ops, key), UsedSince(ops, key), NothingRemovedSince(ops, key), now)
  }

  lemma {:induction false} SubsetCard(a: set<string>, b: set<string>)
    requires a <= b
    ensures |a| <= |b|
  {
    if a != {} {
      var x :| x in a;
      SubsetCard(a - {x}, b - {x});
    }
  }

  /** A key moves to the back: itself fresh, every other key with one more behind it. */
  lemma TracksMove<V>(c: seq<Slot<V>>, slot: Slot<V>, key: string, e: Option<Entry<V>>, used: set<string>, exact: bool, now: int)
    requires Bounded(c) && Tracks(c, key, e, used, exact, now) && slot.key != key
    ensures Tracks(MoveToBack(c, slot), key, e, used + {slot.key}, exact, now)
  {
    hide Lookup, Behind, Keys, MoveToBack;
    MoveFacts(c, slot, key);
    LookupFacts(c, key);
    SubsetCard(used, used + {slot.key});
  }

  lemma TracksRemove<V>(c: seq<Slot<V>>, gone: string, key: string, e: Option<Entry<V>>, used: set<string>, exact: bool, now: int)
    requires Bounded(c) && Tracks(c, key, e, used, exact, now) && gone != key
    ensures Tracks(Remove(c, gone), key, e, used, exact && Lookup(c, gone) == None, now)
  {
    hide Lookup, Behind, Keys;
    RemoveFacts(c, gone, key);
    LookupFacts(c, key);
    LookupFacts(c, gone);
  }

  lemma TracksTrim<V>(c: seq<Slot<V>>, key: string, e: Option<Entry<V>>, used: set<string>, exact: bool, now: int)
    requires Distinct(c) && |c| <= CAPACITY + 1 && Tracks(c, key, e, used, exact, now)
    ensures Bounded(Trim(c)) && Tracks(Trim(c), key, e, used, exact, now)
  {
    hide Lookup, Behind, Keys, Distinct;
    if |c| > CAPACITY {
      DropOldest(c, key);
      SubsetCard(Behind(c, key), if Behind(c, key) <= used then used else Behind(c, key));
    }
  }

  lemma TracksSet<V>(c: seq<Slot<V>>, k: string, value: V, key: string, e: Option<Entry<V>>, used: set<string>, exact: bool, now: int)
    requires Bounded(c) && Tracks(c, key, e, used, exact, now)
    ensures var c' := Next(c, Set(k, value, now));
      && Bounded(c')
      && if k == key then Tracks(c', key, Some(Entry(value, now)), {}, true, now)
         else Tracks(c', key, e, used + {k}, exact, now)
  {
    hide Lookup, Behind, Keys, Distinct, Trim, MoveToBack;
    var slot := Slot(k, value, now + TTL_MS);
    MoveFacts(c, slot, key);
    if k == key {
      TracksTrim(MoveToBack(c, slot), key, Some(Entry(value, now)), {}, true, now);
    } else {
      TracksMove(c, slot, key, e, used, exact, now);
      TracksTrim(MoveToBack(c, slot), key, e, used + {k}, exact, now);
    }
  }

  lemma TracksGet<V>(c: seq<Slot<V>>, k: string, key: string, e: Option<Entry<V>>, used: set<string>, exact: bool, now: int)
    requires Bounded(c) && Tracks(c, key, e, used, exact, now)
    ensures var c' := Next(c, Get(k, now));
      && Bounded(c')
      && if Answer(c, k, now) == None then Tracks(c', key, e, used, exact && Lookup(c, k) == None, now)
         else if k == key then Tracks(c', key, e, {}, true, now)
         else Tracks(c', key, e, used + {k}, exact, now)
  {
    hide Lookup, Behind, Keys, Distinct, Remove, MoveToBack;
    LookupFacts(c, k);
    RemoveFacts(c, k, key);
    if Lookup(c, k).Some? {
      var slot := Lookup(c, k).value;
      MoveFacts(c, slot, key);
      if k != key {
        TracksRemove(c, k, key, e, used, exact, now);
        TracksMove(c, slot, key, e, used, exact, now);
      }
    }
  }

  lemma TracksInvalidate<V>(c: seq<Slot<V>>, k: string, key: string, e: Option<Entry<V>>, used: set<string>, exact: bool, now: int)
    requires Bounded(c) && Tracks(c, key, e, used, exact, now)
    ensures var c' := Next(c, Invalidate(k, now));
      && Bounded(c')
      && if k == key then Lookup(c', key) == None
         else Tracks(c', key, e, used, exact && Lookup(c, k) == None, now)
  {
    hide Lookup, Behind, Keys, Distinct, Remove;
    RemoveFacts(c, k, key);
    LookupFacts(c, k);
    if k != key { TracksRemove(c, k, key, e, used, exact, now); }
  }

  lemma NextInv<V>(ops: seq<Op<V>>, key: string)
    requires |ops| > 0 && Inv(ops[..|ops| - 1], key, ops[|ops| - 1].now)
    ensures Inv(ops, key, ops[|ops| - 1].now)
  {
    hide Lookup, Behind, Keys, Bounded, Next, Answer;
    var before, last := ops[..|ops| - 1], ops[|ops| - 1];
    var c, e, used := Run(before), Latest(before, key), UsedSince(before, key);
    var exact, now := NothingRemovedSince(before, key), last.now;
    match last
    case Set(k, value, _) => TracksSet(c, k, value, key, e, used, exact, now);
    case Get(k, _) => TracksGet(c, k, key, e, used, exact, now);
    case Invalidate(k, _) => TracksInvalidate(c, k, key, e, used, exact, now);
  }

  lemma {:induction false} RunInv<V>(ops: seq<Op<V>>, key: string, now: int)
    requires Monotone(ops) && NotBefore(ops, now)
    ensures Inv(ops, key, now)
  {
    if ops != [] {
      hide Run, Latest, UsedSince, NothingRemovedSince, Lookup, Behind;
      RunInv(ops[..|ops| - 1], key, ops[|ops| - 1].now);
      NextInv(ops, key);
    }
  }

  /** The cache never holds more than 256 entries, one per key. */
  lemma {:induction false} NeverOverfull<V>(ops: seq<Op<V>>)
    requires Monotone(ops)
    ensures |Run(ops)| <= 256 && Distinct(Run(ops))
  {
    if ops != [] { RunInv(ops, "", ops[|ops| - 1].now); }
  }

  /** A hit is the latest value set for the key, less than ten seconds old and not invalidated since. */
  lemma HitIsLatest<V>(ops: seq<Op<V>>, key: string, now: int)
    requires Monotone(ops) && NotBefore(ops, now)
    requires Answer(Run(ops), key, now).Some?
    ensures var e := Latest(ops, key);
      e.Some? && Answer(Run(ops), key, now) == Some(e.value.value) && now < e.value.setAt + 10000
  {
    RunInv(ops, key, now);
  }

  /** A live value is missed only after 256 other keys were used since its own last use. */
  lemma MissNeeds256Others<V>(ops: seq<Op<V>>, key: string, now: int)
    requires Monotone(ops) && NotBefore(ops, now)
    requires Latest(ops, key).Some? && now < Latest(ops, key).value.setAt + 10000
    requires Answer(Run(ops), key, now) == None
    ensures |UsedSince(ops, key)| >= 256
  {
    RunInv(ops, key, now);
  }

  /** When nothing was removed in between, a live value is answered exactly until 256 others were used. */
  lemma PresentExactly<V>(ops: seq<Op<V>>, key: string, now: int)
    requires Monotone(ops) && NotBefore(ops, now)
    requires Latest(ops, key).Some? && now < Latest(ops, key).value.setAt + 10000
    requires NothingRemovedSince(ops, key)
    ensures Answer(Run(ops), key, now).Some? <==> |UsedSince(ops, key)| < 256
  {
    RunInv(ops, key, now);
    if Lookup(Run(ops), key).Some? { BehindIsShort(Run(ops), key); }
  }

  lemma {:induction false} BehindIsShort<V>(c: seq<Slot<V>>, key: string)
    requires Distinct(c) && Lookup(c, key).Some?
    ensures |Behind(c, key)| < |c|
  {
    if c[0].key == key { LookupFacts(c[1..], key); } else { BehindIsShort(c[1..], key); }
  }

  // ---------------------------------------------------------------------------
  // The cache as the object it is
  // ---------------------------------------------------------------------------

  class Cache<V> {
    var entries: seq<Slot<V>>
    ghost var history: seq<Op<V>>

    ghost predicate Valid()
      reads this
    {
      Monotone(history) && entries == Run(history)
    }

    constructor ()
      ensures Valid() && history == []
    {
      entries, history := [], [];
    }

    ghost method Log(op: Op<V>)
      requires NotBefore(history, op.now) && Monotone(history)
      requires entries == Next(Run(history), op)
      modifies this`history
      ensures Valid() && history == old(history) + [op]
    {
      var past := history;
      history := history + [op];
      assert history[..|past|] == past;
    }

    /** `approvalRulesCacheGet`: never answers anything but the plain map's value. */
    method CacheGet(key: string, now: int) returns (r: Option<V>)
      requires Valid() && NotBefore(history, now)
      modifies this
      ensures Valid() && history == old(history) + [Get(key, now)]
      ensures r == Answer(Run(old(history)), key, now)
      ensures r.Some? ==> Latest(old(history), key).Some? && r.value == Latest(old(history), key).value.value
    {
      hide Run, Latest, Lookup, Remove;
      if Answer(Run(history), key, now).Some? { HitIsLatest(history, key, now); }
      NeverOverfull(history);
      LookupFacts(entries, key);
      var found := Lookup(entries, key);
      if found == None {
        r := None;
      } else if now >= found.value.expiresAt {
        entries := Remove(entries, key);
        r := None;
      } else {
        entries := Remove(entries, key);
        entries := entries + [found.value];
        r := Some(found.value.value);
      }
      Log(Get(key, now));
    }

    /** The eviction loop of `approvalRulesCacheSet`. */
    method EvictOldest()
      modifies this`entries
      ensures entries == Trim(old(entries))
    {
      while |entries| > CAPACITY
        invariant |old(entries)| <= CAPACITY ==> entries == old(entries)
        invariant |old(entries)| > CAPACITY ==>
          CAPACITY <= |entries| <= |old(entries)| && entries == old(entries)[|old(entries)| - |entries|..]
      {
        entries := entries[1..];
      }
    }

    /** `approvalRulesCacheSet`. */
    method CacheSet(key: string, value: V, now: int)
      requires Valid() && NotBefore(history, now)
      modifies this
      ensures Valid() && history == old(history) + [Set(key, value, now)]
      ensures |entries| <= 256
    {
      hide Run, Lookup, Remove;
      if Lookup(entries, key) != None {
        entries := Remove(entries, key);
      } else {
        RemoveAbsent(entries, key);
      }
      entries := entries + [Slot(key, value, now + TTL_MS)];
      EvictOldest();
      Log(Set(key, value, now));
    }

    /** `invalidateApprovalRulesCache`. */
    method CacheInvalidate(key: string, now: int)
      requires Valid() && NotBefore(history, now)
      modifies this
      ensures Valid() && history == old(history) + [Invalidate(key, now)]
    {
      entries := Remove(entries, key);
      Log(Invalidate(key, now));
    }
  }

  lemma {:induction false} RemoveAbsent<V>(c: seq<Slot<V>>, key: string)
    requires Lookup(c, key) == None
    ensures Remove(c, key) == c
  {
    if c != [] { RemoveAbsent(c[1..], key); }
  }
}
