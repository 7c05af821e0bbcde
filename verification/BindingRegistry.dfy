/**
 * The registry from GitLab projects to bindings: src/sync/binding-loader.ts with the keys of
 * src/sync/multi-instance.ts.
 *
 * A workspace that talks to one GitLab instance is keyed by project number. When a second
 * base URL shows up, the shared map is re-keyed in place with a hash prefix. The hash is any
 * function to strings of eight characters.
 */
module BindingRegistry {
  import opened Options

  type Hash = h: string -> string | forall u :: |h(u)| == 8 witness (u => "00000000")

  datatype Registration = Registration(url: string, projectId: nat, bindingId: string)

  datatype Meta = Meta(projectId: nat, url: string)

  // ---------------------------------------------------------------------------
  // Keys
  // ---------------------------------------------------------------------------

  const DIGITS: string := "0123456789"

  function Decimal(n: nat): (s: string)
    ensures |s| > 0
  {
    if n < 10 then [DIGITS[n]] else Decimal(n / 10) + [DIGITS[n % 10]]
  }

  lemma DigitsDiffer(a: nat, b: nat)
    requires a < 10 && b < 10 && DIGITS[a] == DIGITS[b]
    ensures a == b
  {
  }

  lemma {:induction false} DecimalInjective(a: nat, b: nat)
    requires Decimal(a) == Decimal(b)
    ensures a == b
  {
    var s, t := Decimal(a), Decimal(b);
    assert s[|s| - 1] == DIGITS[a % 10] && t[|t| - 1] == DIGITS[b % 10];
    DigitsDiffer(a % 10, b % 10);
    if a >= 10 && b >= 10 {
      assert s[..|s| - 1] == Decimal(a / 10) && t[..|t| - 1] == Decimal(b / 10);
      DecimalInjective(a / 10, b / 10);
    }
  }

  /** `bindingsByProjectKey`. */
  function KeyOf(hash: Hash, multi: bool, url: string, projectId: nat): string {
    if !multi then Decimal(projectId) else hash(url) + ":" + Decimal(projectId)
  }

  /** The number a string of decimal digits stands for. */
  function Value(s: string): int {
    if s == "" then 0 else 10 * Value(s[..|s| - 1]) + (s[|s| - 1] as int - '0' as int)
  }

  /** The decimal form: digits only, no leading zero, and the right value. */
  lemma {:induction false} DecimalExactly(n: nat)
    ensures var s := Decimal(n);
      && Value(s) == n && (forall i :: 0 <= i < |s| ==> '0' <= s[i] <= '9')
      && (|s| > 1 ==> s[0] != '0')
  {
    DigitExactly(n % 10);
    if n < 10 {
      assert Decimal(n)[..0] == "";
    } else {
      DecimalExactly(n / 10);
      var most := Decimal(n / 10);
      assert Decimal(n)[..|most|] == most;
      if |most| == 1 { ValueOfDigit(most); }
    }
  }

  lemma ValueOfDigit(s: string)
    requires |s| == 1
    ensures Value(s) == s[0] as int - '0' as int
  {
    assert s[..0] == "";
  }

  lemma DigitExactly(d: nat)
    requires d < 10
    ensures DIGITS[d] as int == '0' as int + d
  {
  }

  /** Composite keys are equal exactly when the prefixes and the project numbers are. */
  lemma KeysEqualExactly(hash: Hash, multi: bool, u: string, p: nat, v: string, q: nat)
    ensures KeyOf(hash, multi, u, p) == KeyOf(hash, multi, v, q) <==> p == q && (multi ==> hash(u) == hash(v))
  {
    var a, b := KeyOf(hash, multi, u, p), KeyOf(hash, multi, v, q);
    if a == b {
      if multi {
        assert a[..8] == hash(u) && b[..8] == hash(v);
        assert a[9..] == Decimal(p) && b[9..] == Decimal(q);
      }
      DecimalInjective(p, q);
    }
  }

  // ---------------------------------------------------------------------------
  // The reference: what a history of registrations amounts to
  // ---------------------------------------------------------------------------

  function Urls(h: seq<Registration>): set<string> {
    set r | r in h :: r.url
  }

  predicate Multi(h: seq<Registration>) {
    |Urls(h)| >= 2
  }

  /** There are two instances exactly when two registrations differ in their URL. */
  lemma MultiExactly(h: seq<Registration>)
    ensures Multi(h) <==> exists r, s :: r in h && s in h && r.url != s.url
  {
    if r, s :| r in h && s in h && r.url != s.url { PairCard(r.url, s.url, Urls(h)); }
    if Multi(h) {
      var u :| u in Urls(h);
      assert |Urls(h) - {u}| == |Urls(h)| - 1;
      var v :| v in Urls(h) - {u};
    }
  }

  /** The keys in use: the plain project number with one instance, the prefix, a colon and the number with more. */
  lemma KeyForm(hash: Hash, h: seq<Registration>, url: string, projectId: nat)
    ensures KeyOf(hash, Multi(h), url, projectId) ==
      if exists r, s :: r in h && s in h && r.url != s.url then hash(url) + ":" + Decimal(projectId) else Decimal(projectId)
  {
    MultiExactly(h);
  }

  /** Each key with the registration made last under it. */
  function ByKey(hash: Hash, multi: bool, h: seq<Registration>): map<string, Registration> {
    if h == [] then map[]
    else
      var last := h[|h| - 1];
      ByKey(hash, multi, h[..|h| - 1])[KeyOf(hash, multi, last.url, last.projectId) := last]
  }

  /** The binding registered last for a project of an instance, whatever its key. */
  function LastBinding(h: seq<Registration>, url: string, projectId: nat): Option<string> {
    if h == [] then None
    else
      var last := h[|h| - 1];
      if last.url == url && last.projectId == projectId then Some(last.bindingId)
      else LastBinding(h[..|h| - 1], url, projectId)
  }

  /** The registry answers a registered project of an instance with its own binding. */
  ghost predicate Answers(hash: Hash, h: seq<Registration>, url: string, projectId: nat) {
    var key := KeyOf(hash, Multi(h), url, projectId);
    LastBinding(h, url, projectId).Some? ==>
      && key in ByKey(hash, Multi(h), h)
      && ByKey(hash, Multi(h), h)[key].bindingId == LastBinding(h, url, projectId).value
  }

  ghost predicate AnswersAll(hash: Hash, h: seq<Registration>) {
    forall u, p: nat :: Answers(hash, h, u, p)
  }

  /** Two instances with the same prefix hold different bindings for one project number. */
  predicate Clash(hash: Hash, h: seq<Registration>, u: string, v: string, p: nat) {
    && hash(u) == hash(v)
    && LastBinding(h, u, p).Some? && LastBinding(h, v, p).Some?
    && LastBinding(h, u, p) != LastBinding(h, v, p)
  }

  ghost predicate NoClash(hash: Hash, h: seq<Registration>) {
    forall u, v, p: nat :: !Clash(hash, h, u, v, p)
  }

  lemma UrlsGrow(h: seq<Registration>)
    requires |h| > 0
    ensures Urls(h) == Urls(h[..|h| - 1]) + {h[|h| - 1].url}
  {
    var before, last := h[..|h| - 1], h[|h| - 1];
    assert h == before + [last];
    assert last in h;
  }

  /** In the reference map, a key stands for the pair that registered last under it. */
  lemma {:induction false} KeyMeans(hash: Hash, multi: bool, h: seq<Registration>, key: string)
    ensures key in ByKey(hash, multi, h) ==>
      var r := ByKey(hash, multi, h)[key];
      && key == KeyOf(hash, multi, r.url, r.projectId) && r.url in Urls(h)
      && LastBinding(h, r.url, r.projectId) == Some(r.bindingId)
  {
    hide KeyOf, Urls;
    if h != [] {
      UrlsGrow(h);
      KeyMeans(hash, multi, h[..|h| - 1], key);
    }
  }

  lemma {:induction false} RegisteredHasKey(hash: Hash, multi: bool, h: seq<Registration>, u: string, p: nat)
    ensures LastBinding(h, u, p).Some? ==> KeyOf(hash, multi, u, p) in ByKey(hash, multi, h) && u in Urls(h)
  {
    hide KeyOf, Urls;
    if h != [] {
      UrlsGrow(h);
      RegisteredHasKey(hash, multi, h[..|h| - 1], u, p);
    }
  }

  lemma OneUrl(h: seq<Registration>, u: string, v: string)
    requires !Multi(h) && u in Urls(h) && v in Urls(h)
    ensures u == v
  {
    if u != v {
      PairCard(u, v, Urls(h));
    }
  }

  lemma PairCard(u: string, v: string, s: set<string>)
    requires u in s && v in s && u != v
    ensures |s| >= 2
  {
    assert |s - {u}| == |s| - 1 && v in s - {u};
  }

  /** Whatever a registered pair is answered with belongs to a pair with the same project number. */
  lemma AnsweredBy(hash: Hash, h: seq<Registration>, u: string, p: nat) returns (v: string)
    requires LastBinding(h, u, p).Some?
    ensures var key := KeyOf(hash, Multi(h), u, p);
      && key in ByKey(hash, Multi(h), h)
      && LastBinding(h, v, p) == Some(ByKey(hash, Multi(h), h)[key].bindingId)
      && (if Multi(h) then hash(u) == hash(v) else u == v)
  {
    hide ByKey, LastBinding, Urls, KeyOf;
    var multi := Multi(h);
    var key := KeyOf(hash, multi, u, p);
    RegisteredHasKey(hash, multi, h, u, p);
    KeyMeans(hash, multi, h, key);
    var m := ByKey(hash, multi, h)[key];
    KeysEqualExactly(hash, multi, u, p, m.url, m.projectId);
    v := m.url;
    if !multi { OneUrl(h, u, v); }
  }

  lemma SameKeyAnswers(hash: Hash, h: seq<Registration>, u: string, v: string, p: nat)
    requires Multi(h) && Answers(hash, h, u, p) && Answers(hash, h, v, p)
    ensures !Clash(hash, h, u, v, p)
  {
    hide ByKey, LastBinding, Urls;
  }

  /** Nothing is lost or merged exactly when no two instances clash. */
  lemma AnswersAllExactly(hash: Hash, h: seq<Registration>)
    ensures AnswersAll(hash, h) <==> (Multi(h) ==> NoClash(hash, h))
  {
    hide ByKey, LastBinding, Urls, KeyOf, Multi, Clash, Answers;
    if Multi(h) ==> NoClash(hash, h) {
      forall u, p: nat ensures Answers(hash, h, u, p) { AnswersWithoutClash(hash, h, u, p); }
    } else if AnswersAll(hash, h) {
      forall u, v, p: nat ensures !Clash(hash, h, u, v, p) { SameKeyAnswers(hash, h, u, v, p); }
    }
  }

  lemma AnswersWithoutClash(hash: Hash, h: seq<Registration>, u: string, p: nat)
    requires Multi(h) ==> NoClash(hash, h)
    ensures Answers(hash, h, u, p)
  {
    hide ByKey, LastBinding, Urls, KeyOf;
    if LastBinding(h, u, p).Some? {
      var v := AnsweredBy(hash, h, u, p);
      assert Multi(h) ==> !Clash(hash, h, u, v, p);
    }
  }

  lemma ClashingPair(hash: Hash, u: string, v: string) returns (h: seq<Registration>)
    requires hash(u) == hash(v) && u != v
    ensures Multi(h) && Clash(hash, h, u, v, 1) && Urls(h) == {u, v}
  {
    hide KeyOf, ByKey;
    var a, b := Registration(u, 1, "a"), Registration(v, 1, "b");
    h := [a, b];
    assert h[..1] == [a];
    assert a in h && b in h;
    PairCard(u, v, Urls(h));
    assert LastBinding([a], u, 1) == Some("a");
  }

  /** No two of these instances have the same prefix. */
  ghost predicate InjectiveOn(hash: Hash, urls: set<string>) {
    forall u, v :: u in urls && v in urls && hash(u) == hash(v) ==> u == v
  }

  lemma RegisteredUrl(h: seq<Registration>, u: string, p: nat)
    requires LastBinding(h, u, p).Some?
    ensures u in Urls(h)
  {
    RegisteredHasKey(_ => "00000000", false, h, u, p);
  }

  lemma InjectiveHasNoClash(hash: Hash, urls: set<string>, h: seq<Registration>)
    requires InjectiveOn(hash, urls) && Urls(h) <= urls
    ensures NoClash(hash, h)
  {
    hide LastBinding, Urls;
    forall u, v, p: nat ensures !Clash(hash, h, u, v, p) {
      if Clash(hash, h, u, v, p) {
        RegisteredUrl(h, u, p);
        RegisteredUrl(h, v, p);
      }
    }
  }

  ghost predicate AnswersOver(hash: Hash, urls: set<string>) {
    forall h: seq<Registration> :: Urls(h) <= urls ==> AnswersAll(hash, h)
  }

  lemma InjectiveAnswers(hash: Hash, urls: set<string>, h: seq<Registration>)
    requires InjectiveOn(hash, urls) && Urls(h) <= urls
    ensures AnswersAll(hash, h)
  {
    hide AnswersAll, NoClash, Multi, Urls, InjectiveOn;
    InjectiveHasNoClash(hash, urls, h);
    AnswersAllExactly(hash, h);
  }

  lemma ClashAnswersWrongly(hash: Hash, u: string, v: string) returns (h: seq<Registration>)
    requires hash(u) == hash(v) && u != v
    ensures Urls(h) == {u, v} && !AnswersAll(hash, h)
  {
    hide AnswersAll, Multi, Urls, Clash;
    h := ClashingPair(hash, u, v);
    AnswersAllExactly(hash, h);
  }

  /**
   * The registry answers in every history over the given instances exactly when no two of
   * them have the same prefix.
   */
  lemma InjectiveExactly(hash: Hash, urls: set<string>)
    ensures AnswersOver(hash, urls) <==> InjectiveOn(hash, urls)
  {
    hide AnswersAll, Urls;
    if InjectiveOn(hash, urls) {
      forall h: seq<Registration> | Urls(h) <= urls ensures AnswersAll(hash, h) { InjectiveAnswers(hash, urls, h); }
    } else {
      var u, v :| u in urls && v in urls && hash(u) == hash(v) && u != v;
      var h := ClashAnswersWrongly(hash, u, v);
      assert Urls(h) <= urls;
    }
  }

  // ---------------------------------------------------------------------------
  // Re-keying
  // ---------------------------------------------------------------------------

  function NewKey(hash: Hash, r: Registration): string {
    KeyOf(hash, true, r.url, r.projectId)
  }

  function OldKey(hash: Hash, multi: bool, r: Registration): string {
    KeyOf(hash, multi, r.url, r.projectId)
  }

  /** `after` holds under composite keys what `before` holds under keys of either form. */
  ghost predicate Rekeys(hash: Hash, multi: bool, before: map<string, Registration>, after: map<string, Registration>) {
    && (forall k :: k in before ==> NewKey(hash, before[k]) in after && after[NewKey(hash, before[k])] == before[k])
    && (forall k :: k in after ==> NewKey(hash, after[k]) == k && OldKey(hash, multi, after[k]) in before
                                   && before[OldKey(hash, multi, after[k])] == after[k])
  }

  /** With one instance, both key forms hold the same bindings. */
  lemma OneInstanceRekeys(hash: Hash, h: seq<Registration>, from: bool, to: bool, key: string)
    requires !Multi(h) && key in ByKey(hash, from, h)
    ensures var r := ByKey(hash, from, h)[key];
      var key' := KeyOf(hash, to, r.url, r.projectId);
      && key' in ByKey(hash, to, h) && ByKey(hash, to, h)[key'] == r
  {
    hide ByKey, LastBinding, Urls, KeyOf, Multi;
    KeyMeans(hash, from, h, key);
    var r := ByKey(hash, from, h)[key];
    var key' := KeyOf(hash, to, r.url, r.projectId);
    RegisteredHasKey(hash, to, h, r.url, r.projectId);
    KeyMeans(hash, to, h, key');
    var r' := ByKey(hash, to, h)[key'];
    KeysEqualExactly(hash, to, r.url, r.projectId, r'.url, r'.projectId);
    OneUrl(h, r.url, r'.url);
  }

  /** The first re-keying takes the plain reference to the composite one; a later one changes nothing. */
  lemma RekeyIsReference(hash: Hash, h: seq<Registration>)
    ensures Rekeys(hash, Multi(h), ByKey(hash, Multi(h), h), ByKey(hash, true, h))
  {
    hide ByKey, LastBinding, Urls, KeyOf, Multi;
    var multi := Multi(h);
    var before, after := ByKey(hash, multi, h), ByKey(hash, true, h);
    forall k | k in before
      ensures NewKey(hash, before[k]) in after && after[NewKey(hash, before[k])] == before[k]
    {
      KeyMeans(hash, multi, h, k);
      if !multi { OneInstanceRekeys(hash, h, false, true, k); }
    }
    forall k | k in after
      ensures NewKey(hash, after[k]) == k
      ensures OldKey(hash, multi, after[k]) in before && before[OldKey(hash, multi, after[k])] == after[k]
    {
      KeyMeans(hash, true, h, k);
      if !multi { OneInstanceRekeys(hash, h, true, false, k); }
    }
  }

  // ---------------------------------------------------------------------------
  // The registry as the object it is
  // ---------------------------------------------------------------------------

  function Ids(m: map<string, Registration>): map<string, string> {
    map k | k in m :: m[k].bindingId
  }

  function Metas(m: map<string, Registration>): map<string, Meta> {
    map k | k in m :: Meta(m[k].projectId, m[k].url)
  }

  lemma Projections(m: map<string, Registration>, key: string, r: Registration)
    ensures Ids(m).Keys == m.Keys == Metas(m).Keys
    ensures Ids(m[key := r]) == Ids(m)[key := r.bindingId]
    ensures Metas(m[key := r]) == Metas(m)[key := Meta(r.projectId, r.url)]
    ensures key in m ==> Ids(m)[key] == m[key].bindingId && Metas(m)[key] == Meta(m[key].projectId, m[key].url)
  {
  }

  /** `built` is part of the re-keyed map. */
  ghost predicate PartOf(built: map<string, Registration>, after: map<string, Registration>) {
    forall k :: k in built ==> k in after && after[k] == built[k]
  }

  /** The entries outside `todo` are accounted for, under the same keys if none was renamed. */
  ghost predicate Covers(hash: Hash, before: map<string, Registration>, todo: set<string>, built: map<string, Registration>, same: bool) {
    forall k :: k in before && k !in todo ==> NewKey(hash, before[k]) in built && (same ==> NewKey(hash, before[k]) == k)
  }

  ghost predicate Partial(hash: Hash, before: map<string, Registration>, after: map<string, Registration>,
                          todo: set<string>, built: map<string, Registration>, same: bool) {
    todo <= before.Keys && PartOf(built, after) && Covers(hash, before, todo, built, same)
  }

  lemma PartialNext(hash: Hash, multi: bool, before: map<string, Registration>, after: map<string, Registration>,
                    todo: set<string>, built: map<string, Registration>, same: bool, key: string)
    requires Rekeys(hash, multi, before, after) && Partial(hash, before, after, todo, built, same) && key in todo
    ensures var newKey := NewKey(hash, before[key]);
      Partial(hash, before, after, todo - {key}, built[newKey := before[key]], same && newKey == key)
  {
    hide NewKey, OldKey, Rekeys;
    Renamed(hash, multi, before, after, key);
    var built' := built[NewKey(hash, before[key]) := before[key]];
    assert PartOf(built', after);
  }

  lemma Renamed(hash: Hash, multi: bool, before: map<string, Registration>, after: map<string, Registration>, key: string)
    requires Rekeys(hash, multi, before, after) && key in before
    ensures NewKey(hash, before[key]) in after && after[NewKey(hash, before[key])] == before[key]
  {
    hide NewKey, OldKey;
  }

  lemma MapsEqual(a: map<string, Registration>, b: map<string, Registration>)
    requires forall k :: k in a ==> k in b && a[k] == b[k]
    requires forall k :: k in b ==> k in a
    ensures a == b
  {
  }

  lemma PartialDone(hash: Hash, multi: bool, before: map<string, Registration>, after: map<string, Registration>,
                    built: map<string, Registration>, same: bool)
    requires Rekeys(hash, multi, before, after) && Partial(hash, before, after, {}, built, same)
    ensures built == after
    ensures same ==> before == after
  {
    hide NewKey;
    MapsEqual(built, after);
    if same {
      forall k | k in before ensures k in after && before[k] == after[k] {
        assert NewKey(hash, before[k]) == k;
      }
      MapsEqual(before, after);
    }
  }

  /** The map handed out to the rest of the program, which keeps a reference to it. */
  class BindingMap {
    var entries: map<string, string>

    constructor ()
      ensures entries == map[]
    {
      entries := map[];
    }

    /** The loop of `registerBinding` over the entries, in any order. */
    method Collect(hash: Hash, meta: map<string, Meta>,
                   ghost multi: bool, ghost before: map<string, Registration>, ghost after: map<string, Registration>)
      returns (rekeyed: map<string, string>, rekeyedMeta: map<string, Meta>, needsRekey: bool)
      requires entries == Ids(before) && meta == Metas(before) && Rekeys(hash, multi, before, after)
      ensures rekeyed == Ids(after) && rekeyedMeta == Metas(after)
      ensures !needsRekey ==> before == after
    {
      hide KeyOf, Ids, Metas, Rekeys, Partial;
      rekeyed, rekeyedMeta, needsRekey := map[], map[], false;
      ghost var built: map<string, Registration> := map[];
      Projections(before, "", Registration("", 0, ""));
      var todo := entries.Keys;
      PartialInit(hash, before, after);
      while todo != {}
        invariant todo <= before.Keys
        invariant rekeyed == Ids(built) && rekeyedMeta == Metas(built)
        invariant Partial(hash, before, after, todo, built, !needsRekey)
        decreases todo
      {
        var oldKey :| oldKey in todo;
        Projections(before, oldKey, before[oldKey]);
        Projections(built, NewKey(hash, before[oldKey]), before[oldKey]);
        PartialNext(hash, multi, before, after, todo, built, !needsRekey, oldKey);
        var newKey := KeyOf(hash, true, meta[oldKey].url, meta[oldKey].projectId);
        if newKey != oldKey { needsRekey := true; }
        rekeyed := rekeyed[newKey := entries[oldKey]];
        rekeyedMeta := rekeyedMeta[newKey := meta[oldKey]];
        built := built[newKey := before[oldKey]];
        todo := todo - {oldKey};
      }
      PartialDone(hash, multi, before, after, built, !needsRekey);
    }

    /** Re-keying in place: whoever holds this map sees the new keys. */
    method Rekey(hash: Hash, meta: map<string, Meta>,
                 ghost multi: bool, ghost before: map<string, Registration>, ghost after: map<string, Registration>)
      returns (newMeta: map<string, Meta>)
      requires entries == Ids(before) && meta == Metas(before) && Rekeys(hash, multi, before, after)
      modifies this
      ensures entries == Ids(after) && newMeta == Metas(after)
    {
      var rekeyed, rekeyedMeta, needsRekey := Collect(hash, meta, multi, before, after);
      newMeta := meta;
      if needsRekey {
        entries := rekeyed;
        newMeta := rekeyedMeta;
      }
    }
  }

  lemma PartialInit(hash: Hash, before: map<string, Registration>, after: map<string, Registration>)
    ensures Partial(hash, before, after, before.Keys, map[], true)
    ensures Ids(map[]) == map[] && Metas(map[]) == map[]
  {
  }

  lemma NoRegistrations(hash: Hash)
    ensures Ids(ByKey(hash, Multi([]), [])) == map[] && Metas(ByKey(hash, Multi([]), [])) == map[] && Urls([]) == {}
  {
  }

  /** The loader's fields for one workspace. */
  class WorkspaceRegistry {
    const hash: Hash
    const bindings: BindingMap
    var meta: map<string, Meta>
    var baseUrls: set<string>
    ghost var history: seq<Registration>

    /** The shared map is the reference of the registrations so far, under the current key form. */
    ghost predicate Agrees()
      reads this, bindings
    {
      var last := ByKey(hash, Multi(history), history);
      bindings.entries == Ids(last) && meta == Metas(last)
    }

    ghost predicate Valid()
      reads this, bindings
    {
      Agrees() && baseUrls == Urls(history)
    }

    constructor (hash: Hash)
      ensures Valid() && history == [] && this.hash == hash && fresh(bindings)
    {
      this.hash := hash;
      bindings := new BindingMap();
      meta, baseUrls, history := map[], {}, [];
      new;
      NoRegistrations(hash);
    }

    method RegisterBaseUrl(url: string)
      modifies this`baseUrls
      ensures baseUrls == old(baseUrls) + {url}
    {
      baseUrls := baseUrls + {url};
    }

    method RegisterBinding(projectId: nat, bindingId: string, url: string)
      requires Agrees() && baseUrls == Urls(history) + {url}
      modifies this, bindings
      ensures Valid() && history == old(history) + [Registration(url, projectId, bindingId)]
      ensures var key :=
          if exists r, s :: r in history && s in history && r.url != s.url then hash(url) + ":" + Decimal(projectId)
          else Decimal(projectId);
        key in bindings.entries && bindings.entries[key] == bindingId && key in meta && meta[key] == Meta(projectId, url)
    {
      hide ByKey, Ids, Metas, Urls, KeyOf, Rekeys;
      var multi := |baseUrls| >= 2;
      MultiNext(history, Registration(url, projectId, bindingId));
      if multi {
        RekeyIsReference(hash, history);
        meta := bindings.Rekey(hash, meta, Multi(history), ByKey(hash, Multi(history), history), ByKey(hash, true, history));
      }
      var key := KeyOf(hash, multi, url, projectId);
      ReferenceNext(hash, multi, history, Registration(url, projectId, bindingId));
      bindings.entries := bindings.entries[key := bindingId];
      meta := meta[key := Meta(projectId, url)];
      history := history + [Registration(url, projectId, bindingId)];
      KeyForm(hash, history, url, projectId);
    }

    /** What every loader does once it has resolved a credential. */
    method Register(projectId: nat, bindingId: string, url: string)
      requires Valid()
      modifies this, bindings
      ensures Valid() && history == old(history) + [Registration(url, projectId, bindingId)]
    {
      hide ByKey, Ids, Metas, Urls;
      RegisterBaseUrl(url);
      RegisterBinding(projectId, bindingId, url);
    }
  }

  lemma MultiNext(h: seq<Registration>, r: Registration)
    ensures Urls(h + [r]) == Urls(h) + {r.url}
    ensures Multi(h) ==> |Urls(h) + {r.url}| >= 2
  {
    assert (h + [r])[..|h|] == h;
    UrlsGrow(h + [r]);
    if r.url !in Urls(h) { assert |Urls(h) + {r.url}| == |Urls(h)| + 1; } else { assert Urls(h) + {r.url} == Urls(h); }
  }

  lemma ReferenceNext(hash: Hash, multi: bool, h: seq<Registration>, r: Registration)
    ensures var key := KeyOf(hash, multi, r.url, r.projectId);
      && Ids(ByKey(hash, multi, h + [r])) == Ids(ByKey(hash, multi, h))[key := r.bindingId]
      && Metas(ByKey(hash, multi, h + [r])) == Metas(ByKey(hash, multi, h))[key := Meta(r.projectId, r.url)]
  {
    assert (h + [r])[..|h|] == h;
    Projections(ByKey(hash, multi, h), KeyOf(hash, multi, r.url, r.projectId), r);
  }
}
