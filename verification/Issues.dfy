/**
 * The last-write-wins mirror of one GitLab issue: `applyRemote` in src/sync/issues.ts over
 * the resolver of src/sync/conflict.ts.
 *
 * Every field is compared against one timestamp of the whole document, and that timestamp
 * moves only when some field changed. When this converges, and when it does not, is proved
 * below for all finite sets of versions delivered in any order with any repetitions.
 */
module Issues {
  import opened Options

  datatype Field = Title | Description | Status | Assignee | Milestone | Labels

  const FIELDS: seq<Field> := [Title, Description, Status, Assignee, Milestone, Labels]

  datatype Value = Null | Text(text: string) | Refs(refs: seq<string>)

  /** The mirrored fields of a document; an undefined field is not in the map. */
  type Fields = map<Field, Value>

  datatype Doc = Doc(fields: Fields, modifiedOn: int)

  /** A version of the issue as the adapter translated it; a status that maps to nothing is absent. */
  datatype Version = Version(fields: Fields, ts: int)

  ghost predicate Full(fields: Fields) {
    forall f: Field :: f in fields
  }

  // ---------------------------------------------------------------------------
  // Equality of values
  // ---------------------------------------------------------------------------

  function SetOf(xs: seq<string>): set<string> {
    set x | x in xs
  }

  predicate AreEqual(a: Value, b: Value) {
    a == b || (a.Refs? && b.Refs? && |a.refs| == |b.refs| && SetOf(a.refs) == SetOf(b.refs))
  }

  ghost predicate SameContent(a: Fields, b: Fields) {
    forall f: Field :: f in a && f in b && AreEqual(a[f], b[f])
  }

  lemma SameContentIsEquivalence(a: Fields, b: Fields, c: Fields)
    ensures Full(a) ==> SameContent(a, a)
    ensures SameContent(a, b) ==> SameContent(b, a)
    ensures SameContent(a, b) && SameContent(b, c) ==> SameContent(a, c)
  {
  }

  /** One value and the same: lists of references by length and members, anything else literally. */
  ghost predicate SameValue(x: Value, y: Value) {
    if y.Refs? then x.Refs? && |x.refs| == |y.refs| && forall s :: s in x.refs <==> s in y.refs
    else x == y
  }

  lemma AreEqualExactly(x: Value, y: Value)
    ensures AreEqual(x, y) <==> SameValue(x, y)
  {
    if x.Refs? && y.Refs? {
      if SetOf(x.refs) == SetOf(y.refs) {
        forall s ensures s in x.refs <==> s in y.refs { assert s in SetOf(x.refs) <==> s in SetOf(y.refs); }
      }
    }
  }

  /** Every field has the wanted value. */
  ghost predicate Copies(fields: Fields, wanted: Fields) {
    forall f: Field :: f in fields && f in wanted && SameValue(fields[f], wanted[f])
  }

  lemma SameContentExactly(a: Fields, b: Fields)
    ensures SameContent(a, b) <==> Copies(a, b)
  {
    hide AreEqual, SameValue;
    forall f: Field | f in a && f in b ensures AreEqual(a[f], b[f]) <==> SameValue(a[f], b[f]) { AreEqualExactly(a[f], b[f]); }
  }

  // ---------------------------------------------------------------------------
  // The resolver
  // ---------------------------------------------------------------------------

  datatype FieldVersion = FieldVersion(value: Option<Value>, ts: Option<int>)

  datatype Decision = Local | Remote | Noop

  predicate Missing(v: FieldVersion) {
    v.value == None || v.ts == None
  }

  /** `resolveLww`: the side that is present and not older wins, the remote one on a tie. */
  function ResolveLww(local: FieldVersion, remote: FieldVersion): (winner: Decision)
    ensures winner == Noop <==> Missing(local) && Missing(remote)
    ensures winner == Remote ==> !Missing(remote) && (!Missing(local) ==> local.ts.value <= remote.ts.value)
    ensures winner == Local ==> !Missing(local) && (!Missing(remote) ==> remote.ts.value < local.ts.value)
  {
    if Missing(local) && Missing(remote) then Noop
    else if Missing(local) then Remote
    else if Missing(remote) then Local
    else if remote.ts.value > local.ts.value then Remote
    else if local.ts.value > remote.ts.value then Local
    else Remote
  }

  const ABSENT: FieldVersion := FieldVersion(None, None)

  function VersionOf(m: map<Field, FieldVersion>, f: Field): FieldVersion {
    if f in m then m[f] else ABSENT
  }

  function Decisions(local: map<Field, FieldVersion>, remote: map<Field, FieldVersion>): map<Field, Decision> {
    map f | f in local.Keys + remote.Keys :: ResolveLww(VersionOf(local, f), VersionOf(remote, f))
  }

  method ApplyLwwFieldByField(local: map<Field, FieldVersion>, remote: map<Field, FieldVersion>)
    returns (result: map<Field, Decision>)
    ensures result == Decisions(local, remote)
  {
    result := map[];
    var todo := local.Keys + remote.Keys;
    while todo != {}
      invariant todo <= local.Keys + remote.Keys
      invariant result == map f | f in local.Keys + remote.Keys && f !in todo :: ResolveLww(VersionOf(local, f), VersionOf(remote, f))
      decreases todo
    {
      var field :| field in todo;
      result := result[field := ResolveLww(VersionOf(local, field), VersionOf(remote, field))];
      todo := todo - {field};
    }
  }

  // ---------------------------------------------------------------------------
  // One delivery
  // ---------------------------------------------------------------------------

  function LocalValue(d: Doc, f: Field): Option<Value> {
    if f in d.fields then Some(d.fields[f])
    else if f == Milestone then Some(Null)
    else if f == Labels then Some(Refs([]))
    else None
  }

  function LocalTs(d: Doc): Option<int> {
    if d.modifiedOn > 0 then Some(d.modifiedOn) else None
  }

  /** The fields whose remote value wins and differs. */
  predicate Takes(d: Doc, v: Version, f: Field)
    requires f in v.fields
  {
    && ResolveLww(FieldVersion(LocalValue(d, f), LocalTs(d)), FieldVersion(Some(v.fields[f]), Some(v.ts))) == Remote
    && !(LocalValue(d, f).Some? && AreEqual(v.fields[f], LocalValue(d, f).value))
  }

  function Taken(d: Doc, v: Version): Fields {
    map f | f in v.fields && Takes(d, v, f) :: v.fields[f]
  }

  /** The update branch. */
  function Update(d: Doc, v: Version): Doc {
    if Taken(d, v) == map[] then d else Doc(d.fields + Taken(d, v), v.ts)
  }

  datatype Mirror = Unmapped | Dangling | Mirrored(doc: Doc)

  function Deliver(m: Mirror, v: Version): Mirror {
    if Status !in v.fields then m
    else
      match m
      case Unmapped => Mirrored(Doc(v.fields, v.ts))
      case Dangling => Dangling
      case Mirrored(d) => Mirrored(Update(d, v))
  }

  /** The binding's issues cursor after one delivery; `setCursor` overwrites it. */
  function CursorAfter(m: Mirror, cursor: Option<int>, v: Version): Option<int> {
    if Status !in v.fields then cursor
    else
      match m
      case Unmapped => Some(v.ts)
      case Dangling => cursor
      case Mirrored(d) => if LocalTs(d) == None || v.ts > LocalTs(d).value then Some(v.ts) else cursor
  }

  /** What a document is read as: a missing milestone is none, a missing label list is empty. */
  ghost predicate ReadsAs(d: Doc, f: Field, y: Value) {
    if f in d.fields then SameValue(d.fields[f], y)
    else (f == Milestone && y == Null) || (f == Labels && y == Refs([]))
  }

  ghost predicate Unread(d: Doc, f: Field) {
    f !in d.fields && f != Milestone && f != Labels
  }

  lemma TakesPlainly(d: Doc, v: Version, f: Field)
    requires f in v.fields
    ensures Takes(d, v, f) <==> !ReadsAs(d, f, v.fields[f]) && (v.ts >= d.modifiedOn || d.modifiedOn <= 0 || Unread(d, f))
  {
    hide AreEqual, SameValue;
    AreEqualExactly(v.fields[f], v.fields[f]);
    if f in d.fields {
      AreEqualExactly(d.fields[f], v.fields[f]);
      AreEqualSymmetric(v.fields[f], d.fields[f]);
    } else if f == Milestone {
      AreEqualNull(v.fields[f]);
    } else if f == Labels {
      AreEqualNoRefs(v.fields[f]);
    }
  }

  lemma AreEqualNull(y: Value)
    ensures AreEqual(y, Null) <==> y == Null
  {
  }

  lemma AreEqualNoRefs(y: Value)
    ensures AreEqual(y, Refs([])) <==> y == Refs([])
  {
  }

  /**
   * The update, field by field. A version not older than the document gives it every value
   * that differs; an older one only fills in what the document lacks. The timestamp follows
   * if anything changed.
   */
  lemma UpdateExactly(d: Doc, v: Version)
    ensures var d' := Update(d, v);
      && (forall f :: f in d'.fields ==> f in d.fields || f in v.fields)
      && (forall f :: f in d.fields && f !in v.fields ==> f in d'.fields && d'.fields[f] == d.fields[f])
      && (v.ts >= d.modifiedOn || d.modifiedOn <= 0 ==> forall f :: f in v.fields ==> ReadsAs(d', f, v.fields[f]))
      && (v.ts < d.modifiedOn && d.modifiedOn > 0 ==> forall f :: f in v.fields ==>
            if Unread(d, f) then f in d'.fields && d'.fields[f] == v.fields[f]
            else if f in d.fields then f in d'.fields && d'.fields[f] == d.fields[f]
            else f !in d'.fields)
      && d'.modifiedOn == (if d'.fields == d.fields then d.modifiedOn else v.ts)
  {
    hide Takes, SameValue, AreEqual;
    forall f | f in v.fields ensures f in Taken(d, v) <==> Takes(d, v, f) { }
    forall f | f in v.fields
      ensures Takes(d, v, f) <==> !ReadsAs(d, f, v.fields[f]) && (v.ts >= d.modifiedOn || d.modifiedOn <= 0 || Unread(d, f))
      ensures SameValue(v.fields[f], v.fields[f])
    {
      TakesPlainly(d, v, f);
      AreEqualSymmetric(v.fields[f], v.fields[f]);
      AreEqualExactly(v.fields[f], v.fields[f]);
    }
    if Taken(d, v) == map[] {
      assert forall f :: f in v.fields ==> !Takes(d, v, f);
    } else {
      var f :| f in Taken(d, v);
      var d' := Update(d, v);
      assert d'.fields[f] == v.fields[f] && !ReadsAs(d, f, v.fields[f]);
      assert f in d.fields ==> d.fields[f] != v.fields[f];
    }
  }

  function DeliverFrom(m: Mirror, vs: seq<Version>): Mirror {
    if vs == [] then m else Deliver(DeliverFrom(m, vs[..|vs| - 1]), vs[|vs| - 1])
  }

  function DeliverAll(vs: seq<Version>): Mirror {
    DeliverFrom(Unmapped, vs)
  }

  // ---------------------------------------------------------------------------
  // What one update does to a full document
  // ---------------------------------------------------------------------------

  ghost predicate Proper(v: Version) {
    Full(v.fields) && v.ts > 0
  }

  ghost predicate Shows(m: Mirror, v: Version) {
    m.Mirrored? && SameContent(m.doc.fields, v.fields)
  }

  lemma AreEqualSymmetric(a: Value, b: Value)
    ensures AreEqual(a, b) <==> AreEqual(b, a)
    ensures AreEqual(a, a)
  {
  }

  lemma TakesExactly(d: Doc, v: Version, f: Field)
    requires f in d.fields && d.modifiedOn > 0 && f in v.fields
    ensures Takes(d, v, f) <==> v.ts >= d.modifiedOn && !AreEqual(d.fields[f], v.fields[f])
  {
    AreEqualSymmetric(d.fields[f], v.fields[f]);
  }

  /** Older versions and versions with the same content change nothing; any other version replaces everything. */
  lemma UpdateCases(d: Doc, v: Version)
    requires Full(d.fields) && d.modifiedOn > 0 && Proper(v)
    ensures v.ts < d.modifiedOn || SameContent(d.fields, v.fields) ==> Update(d, v) == d
    ensures v.ts >= d.modifiedOn && !SameContent(d.fields, v.fields) ==>
      Update(d, v).modifiedOn == v.ts && SameContent(Update(d, v).fields, v.fields)
    ensures Full(Update(d, v).fields)
  {
    hide Takes, AreEqual;
    forall f: Field
      ensures f in v.fields && f in d.fields
      ensures Takes(d, v, f) <==> v.ts >= d.modifiedOn && !AreEqual(d.fields[f], v.fields[f])
      ensures AreEqual(v.fields[f], v.fields[f])
    {
      TakesExactly(d, v, f);
      AreEqualSymmetric(v.fields[f], v.fields[f]);
    }
    var taken := Taken(d, v);
    if v.ts < d.modifiedOn || SameContent(d.fields, v.fields) {
      assert taken == map[];
    } else {
      var f :| !(f in d.fields && f in v.fields && AreEqual(d.fields[f], v.fields[f]));
      assert f in taken;
    }
  }

  // ---------------------------------------------------------------------------
  // Convergence
  // ---------------------------------------------------------------------------

  lemma DeliverFirst(v: Version)
    requires Proper(v)
    ensures DeliverAll([v]) == Mirrored(Doc(v.fields, v.ts))
    ensures SameContent(v.fields, v.fields)
  {
    assert [v][..0] == [];
    assert DeliverFrom(Unmapped, [v]) == Deliver(DeliverFrom(Unmapped, [v][..0]), v);
  }

  lemma DeliverNext(m: Mirror, vs: seq<Version>, v: Version)
    ensures DeliverFrom(m, vs + [v]) == Deliver(DeliverFrom(m, vs), v)
  {
    assert (vs + [v])[..|vs|] == vs;
  }

  /** The newest among the versions. */
  ghost predicate Newest(vs: seq<Version>, n: Version) {
    n in vs && forall v :: v in vs ==> v.ts <= n.ts
  }

  ghost predicate Distinct(vs: seq<Version>) {
    forall a, b :: a in vs && b in vs && a.ts == b.ts ==> a == b
  }

  ghost predicate AllProper(vs: seq<Version>) {
    forall v :: v in vs ==> Proper(v)
  }

  lemma {:induction false} NewestExists(vs: seq<Version>) returns (n: Version)
    requires vs != []
    ensures Newest(vs, n)
  {
    var last := vs[|vs| - 1];
    if |vs| == 1 {
      n := last;
    } else {
      n := NewestExists(vs[..|vs| - 1]);
      if last.ts > n.ts { n := last; }
      forall v | v in vs ensures v == last || v in vs[..|vs| - 1] {}
    }
  }

  /**
   * Versions with distinct positive timestamps and pairwise different contents, in any order
   * with any repetitions, leave the newest content and its timestamp.
   */
  lemma {:induction false} Converges(vs: seq<Version>, n: Version)
    requires AllProper(vs) && Distinct(vs) && Newest(vs, n)
    requires forall a, b :: a in vs && b in vs && SameContent(a.fields, b.fields) ==> a == b
    ensures Shows(DeliverAll(vs), n) && DeliverAll(vs).doc.modifiedOn == n.ts && Full(DeliverAll(vs).doc.fields)
  {
    hide Update, DeliverFrom, SameContent, AllProper, Full;
    var before, last := vs[..|vs| - 1], vs[|vs| - 1];
    assert vs == before + [last];
    ProperIn(vs, last);
    DeliverNext(Unmapped, before, last);
    if before == [] {
      DeliverFirst(last);
    } else {
      var m := NewestExists(before);
      ProperSubset(vs, before);
      ProperIn(vs, m);
      Converges(before, m);
      ConvergesNext(DeliverAll(before).doc, m, last);
    }
  }

  /** The same in plain terms: afterwards the document holds each value of the newest version. */
  lemma ConvergesPlainly(vs: seq<Version>, n: Version)
    requires AllProper(vs) && Distinct(vs) && Newest(vs, n)
    requires forall a, b :: a in vs && b in vs && Copies(a.fields, b.fields) ==> a == b
    ensures DeliverAll(vs).Mirrored? && DeliverAll(vs).doc.modifiedOn == n.ts
    ensures var fields := DeliverAll(vs).doc.fields;
      forall f: Field ::
        && f in fields && f in n.fields
        && (n.fields[f].Refs? ==> fields[f].Refs? && |fields[f].refs| == |n.fields[f].refs|)
        && (n.fields[f].Refs? ==> forall s :: s in fields[f].refs <==> s in n.fields[f].refs)
        && (!n.fields[f].Refs? ==> fields[f] == n.fields[f])
  {
    hide DeliverFrom, SameContent, AllProper, Copies, SameValue;
    forall a, b | a in vs && b in vs && SameContent(a.fields, b.fields) ensures a == b { SameContentExactly(a.fields, b.fields); }
    Converges(vs, n);
    SameContentExactly(DeliverAll(vs).doc.fields, n.fields);
    CopiesMeans(DeliverAll(vs).doc.fields, n.fields);
  }

  lemma CopiesMeans(fields: Fields, wanted: Fields)
    requires Copies(fields, wanted)
    ensures forall f: Field ::
      && f in fields && f in wanted
      && (wanted[f].Refs? ==> fields[f].Refs? && |fields[f].refs| == |wanted[f].refs|)
      && (wanted[f].Refs? ==> forall s :: s in fields[f].refs <==> s in wanted[f].refs)
      && (!wanted[f].Refs? ==> fields[f] == wanted[f])
  {
  }

  /** One more version on top of the newest so far. */
  lemma ConvergesNext(d: Doc, m: Version, v: Version)
    requires Proper(m) && Proper(v) && Full(d.fields) && SameContent(d.fields, m.fields) && d.modifiedOn == m.ts
    requires SameContent(m.fields, v.fields) || m.ts == v.ts ==> m == v
    ensures Deliver(Mirrored(d), v) == Mirrored(Update(d, v))
    ensures var newest := if v.ts > m.ts then v else m;
      SameContent(Update(d, v).fields, newest.fields) && Update(d, v).modifiedOn == newest.ts && Full(Update(d, v).fields)
  {
    hide Update;
    UpdateCases(d, v);
    SameContentIsEquivalence(d.fields, m.fields, v.fields);
    SameContentIsEquivalence(m.fields, d.fields, v.fields);
  }

  // ---------------------------------------------------------------------------
  // Exactly when the order does not matter
  // ---------------------------------------------------------------------------

  /** The newest content was there before, and some other content in between. */
  ghost predicate Reverts(vs: seq<Version>, n: Version) {
    exists b, c :: b in vs && c in vs && b.ts < c.ts && SameContent(b.fields, n.fields) && !SameContent(c.fields, n.fields)
  }

  ghost predicate SameElements(a: seq<Version>, b: seq<Version>) {
    forall v :: v in a <==> v in b
  }

  ghost predicate AnyOrderConverges(vs: seq<Version>, n: Version) {
    forall order :: SameElements(order, vs) ==> Shows(DeliverAll(order), n)
  }

  /** The mirror shows the delivered version whose timestamp it carries, and the newest one once that came by. */
  ghost predicate Carries(m: Mirror, vs: seq<Version>, b: Version, n: Version) {
    && m.Mirrored? && Full(m.doc.fields)
    && b in vs && m.doc.modifiedOn == b.ts && SameContent(m.doc.fields, b.fields)
    && (n in vs ==> SameContent(m.doc.fields, n.fields))
  }

  lemma CarriesNext(d: Doc, before: seq<Version>, v: Version, all: seq<Version>, b: Version, n: Version) returns (b': Version)
    requires AllProper(all) && Distinct(all) && Newest(all, n) && !Reverts(all, n)
    requires v in all && b in all && Carries(Mirrored(d), before, b, n)
    ensures b' in all && Carries(Mirrored(Update(d, v)), before + [v], b', n)
  {
    hide Update, Full;
    assert Proper(b) && Proper(v) && Proper(n) by { hide Full; }
    ProperMeans(b);
    ProperMeans(v);
    UpdateCases(d, v);
    SameContentIsEquivalence(d.fields, v.fields, n.fields);
    SameContentIsEquivalence(v.fields, d.fields, b.fields);
    SameContentIsEquivalence(b.fields, d.fields, n.fields);
    SameContentIsEquivalence(d.fields, b.fields, v.fields);
    SameContentIsEquivalence(v.fields, v.fields, v.fields);
    if v.ts < d.modifiedOn || SameContent(d.fields, v.fields) {
      b' := b;
    } else {
      b' := v;
      SameContentIsEquivalence(Update(d, v).fields, v.fields, n.fields);
    }
  }

  lemma ProperMeans(v: Version)
    requires Proper(v)
    ensures v.ts > 0 && Status in v.fields && SameContent(v.fields, v.fields)
  {
  }

  lemma {:induction false} CarriesAll(vs: seq<Version>, all: seq<Version>, n: Version) returns (b: Version)
    requires AllProper(all) && Distinct(all) && Newest(all, n) && !Reverts(all, n)
    requires vs != [] && forall v :: v in vs ==> v in all
    ensures b in all && Carries(DeliverAll(vs), vs, b, n)
  {
    hide Update, Reverts, Distinct, Newest, AllProper, SameContent, Full, DeliverFrom;
    var before, last := vs[..|vs| - 1], vs[|vs| - 1];
    assert vs == before + [last];
    assert last in all;
    ProperIn(all, last);
    DeliverNext(Unmapped, before, last);
    if before == [] {
      CarriesFirst(last, n);
      b := last;
    } else {
      b := CarriesAll(before, all, n);
      ProperMeans(last);
      b := CarriesNext(DeliverAll(before).doc, before, last, all, b, n);
    }
  }

  lemma CarriesFirst(v: Version, n: Version)
    requires Proper(v)
    ensures Carries(DeliverAll([v]), [v], v, n)
  {
    DeliverFirst(v);
  }

  ghost function Filter(vs: seq<Version>, n: Version, like: bool): (r: seq<Version>)
    ensures forall v :: v in r <==> v in vs && (SameContent(v.fields, n.fields) <==> like)
  {
    if vs == [] then []
    else
      var rest := Filter(vs[1..], n, like);
      assert forall v :: v in vs <==> v == vs[0] || v in vs[1..];
      if SameContent(vs[0].fields, n.fields) <==> like then [vs[0]] + rest else rest
  }

  lemma {:induction false} DeliverInTwo(m: Mirror, a: seq<Version>, b: seq<Version>)
    ensures DeliverFrom(m, a + b) == DeliverFrom(DeliverFrom(m, a), b)
    decreases |b|
  {
    if b == [] {
      assert a + b == a;
    } else {
      assert (a + b)[..|a + b| - 1] == a + b[..|b| - 1];
      DeliverInTwo(m, a, b[..|b| - 1]);
    }
  }

  /** Versions with the content that is shown already leave the document alone. */
  lemma {:induction false} LikeLeaves(d: Doc, vs: seq<Version>)
    requires Full(d.fields) && d.modifiedOn > 0 && AllProper(vs)
    requires forall v :: v in vs ==> SameContent(d.fields, v.fields)
    ensures DeliverFrom(Mirrored(d), vs) == Mirrored(d)
  {
    hide Update;
    if vs != [] {
      LikeLeaves(d, vs[..|vs| - 1]);
      var last := vs[|vs| - 1];
      assert last in vs && Proper(last);
      UpdateCases(d, last);
    }
  }

  /** Versions with another content than n never bring the content of n. */
  lemma {:induction false} UnlikeStays(d: Doc, vs: seq<Version>, n: Version)
    requires Full(d.fields) && d.modifiedOn > 0 && AllProper(vs) && !SameContent(d.fields, n.fields)
    requires forall v :: v in vs ==> !SameContent(v.fields, n.fields)
    ensures var m := DeliverFrom(Mirrored(d), vs);
      m.Mirrored? && Full(m.doc.fields) && m.doc.modifiedOn > 0 && !SameContent(m.doc.fields, n.fields)
  {
    hide Update;
    if vs != [] {
      UnlikeStays(d, vs[..|vs| - 1], n);
      var e, last := DeliverFrom(Mirrored(d), vs[..|vs| - 1]).doc, vs[|vs| - 1];
      assert last in vs && Proper(last);
      UpdateCases(e, last);
      var after := Update(e, last);
      SameContentIsEquivalence(after.fields, last.fields, n.fields);
      SameContentIsEquivalence(last.fields, after.fields, n.fields);
    }
  }

  /** Oldest copy of the newest content first, then the rest of that content, then the content in between. */
  lemma RevertingOrder(all: seq<Version>, b: Version, c: Version, n: Version) returns (order: seq<Version>)
    requires AllProper(all) && b in all && c in all && b.ts < c.ts
    requires SameContent(b.fields, n.fields) && !SameContent(c.fields, n.fields)
    ensures SameElements(order, all) && !Shows(DeliverAll(order), n)
  {
    hide Update, DeliverFrom, SameContent, AllProper;
    var like, unlike := Filter(all, n, true), Filter(all, n, false);
    order := [b] + like + ([c] + unlike);
    ProperIn(all, b);
    ProperIn(all, c);
    var d := Doc(b.fields, b.ts);
    DeliverFirst(b);
    DeliverInTwo(Unmapped, [b], like);
    DeliverInTwo(Unmapped, [b] + like, [c] + unlike);
    DeliverInTwo(Mirrored(d), [c], unlike);
    forall v | v in like ensures SameContent(d.fields, v.fields) {
      SameContentIsEquivalence(v.fields, n.fields, n.fields);
      SameContentIsEquivalence(d.fields, n.fields, v.fields);
    }
    ProperSubset(all, like);
    ProperSubset(all, unlike);
    LikeLeaves(d, like);
    Replaces(d, c, n);
    DeliverNext(Mirrored(d), [], c);
    assert [] + [c] == [c];
    DeliverNothing(Mirrored(d));
    UnlikeStays(Update(d, c), unlike, n);
  }

  lemma DeliverNothing(m: Mirror)
    ensures DeliverFrom(m, []) == m
  {
  }

  lemma ProperIn(vs: seq<Version>, v: Version)
    requires AllProper(vs) && v in vs
    ensures Proper(v) && Full(v.fields) && v.ts > 0
  {
  }

  lemma ProperSubset(vs: seq<Version>, part: seq<Version>)
    requires AllProper(vs) && forall v :: v in part ==> v in vs
    ensures AllProper(part)
  {
  }

  lemma Replaces(d: Doc, c: Version, n: Version)
    requires Full(d.fields) && d.modifiedOn > 0 && Proper(c) && d.modifiedOn < c.ts
    requires SameContent(d.fields, n.fields) && !SameContent(c.fields, n.fields)
    ensures Deliver(Mirrored(d), c) == Mirrored(Update(d, c))
    ensures Full(Update(d, c).fields) && Update(d, c).modifiedOn == c.ts && !SameContent(Update(d, c).fields, n.fields)
  {
    hide Update;
    ProperMeans(c);
    UpdateCases(d, c);
    SameContentIsEquivalence(d.fields, c.fields, n.fields);
    SameContentIsEquivalence(c.fields, d.fields, n.fields);
    SameContentIsEquivalence(Update(d, c).fields, c.fields, n.fields);
    SameContentIsEquivalence(c.fields, Update(d, c).fields, n.fields);
  }

  /** Every order of delivery ends with the newest content exactly when the issue never came back to it. */
  lemma ConvergesExactly(all: seq<Version>, n: Version)
    requires AllProper(all) && Distinct(all) && Newest(all, n)
    ensures AnyOrderConverges(all, n) <==> !Reverts(all, n)
  {
    if Reverts(all, n) {
      var b, c :| b in all && c in all && b.ts < c.ts && SameContent(b.fields, n.fields) && !SameContent(c.fields, n.fields);
      var order := RevertingOrder(all, b, c, n);
    } else {
      hide Reverts, AllProper, Distinct, DeliverAll;
      forall order | SameElements(order, all) ensures Shows(DeliverAll(order), n) {
        assert n in order;
        var b := CarriesAll(order, all, n);
      }
    }
  }

  /** The smallest case: content a at 1 and 3, content b at 2, delivered last, wins over the newer a. */
  lemma RevertLosesNewest(a: Fields, b: Fields)
    requires Full(a) && Full(b) && !SameContent(a, b)
    ensures var m := DeliverAll([Version(a, 1), Version(a, 3), Version(b, 2)]);
      Shows(m, Version(b, 2)) && !Shows(m, Version(a, 3)) && m.doc.modifiedOn == 2
  {
    hide Update;
    var v1, v3, v2 := Version(a, 1), Version(a, 3), Version(b, 2);
    SameContentIsEquivalence(a, a, a);
    var d := Doc(a, 1);
    DeliverFirst(v1);
    DeliverNext(Unmapped, [v1], v3);
    DeliverNext(Unmapped, [v1, v3], v2);
    assert [v1] + [v3] == [v1, v3] && [v1, v3] + [v2] == [v1, v3, v2];
    UpdateCases(d, v3);
    UpdateCases(d, v2);
    Replaces(d, v2, Version(a, 3)) by { SameContentIsEquivalence(b, a, a); }
  }

  // ---------------------------------------------------------------------------
  // `applyRemote` on the stores it writes
  // ---------------------------------------------------------------------------

  class IssuesSyncManager {
    var idmap: map<string, string>
    var docs: map<string, Doc>
    var cursor: Option<int>

    /** No two GitLab issues share a document. */
    ghost predicate Valid()
      reads this
    {
      forall a, b :: a in idmap && b in idmap && idmap[a] == idmap[b] ==> a == b
    }

    function View(gitlabId: string): Mirror
      reads this
    {
      if gitlabId !in idmap then Unmapped
      else if idmap[gitlabId] !in docs then Dangling
      else Mirrored(docs[idmap[gitlabId]])
    }

    constructor ()
      ensures Valid() && cursor == None && forall id :: View(id) == Unmapped
    {
      idmap, docs, cursor := map[], map[], None;
    }

    /** The closure `take`. */
    static method Take(field: Field, local: map<Field, FieldVersion>, remote: map<Field, FieldVersion>,
                       decisions: map<Field, Decision>, update: Fields,
                       ghost d: Doc, ghost v: Version, ghost done: set<Field>)
      returns (newUpdate: Fields)
      requires Full(v.fields) && local == LocalMap(d) && remote == RemoteMap(v) && decisions == Decisions(local, remote)
      requires update == TakenIn(d, v, done)
      ensures newUpdate == TakenIn(d, v, done + {field})
    {
      hide ResolveLww, AreEqual, LocalValue, TakenIn, Takes, Decisions, LocalMap, RemoteMap, Full;
      TakesDecided(d, v, field);
      TakenInNext(d, v, done, field);
      newUpdate := update;
      if decisions[field] != Remote { return; }
      var localVal := local[field].value;
      if localVal.Some? && AreEqual(remote[field].value.value, localVal.value) { return; }
      newUpdate := update[field := remote[field].value.value];
    }

    /** The six calls of `take`. */
    static method CollectUpdate(d: Doc, v: Version) returns (update: Fields)
      requires Full(v.fields)
      ensures update == Taken(d, v)
    {
      hide ResolveLww, AreEqual, LocalValue, Takes, Taken, TakenIn, Decisions, LocalMap, RemoteMap;
      var local, remote := LocalMap(d), RemoteMap(v);
      var decisions := ApplyLwwFieldByField(local, remote);
      TakenInAll(d, v, {Title, Description, Status, Assignee, Milestone, Labels});
      ghost var done: set<Field> := {};
      update := map[];
      update := Take(Title, local, remote, decisions, update, d, v, done);
      done := done + {Title};
      update := Take(Description, local, remote, decisions, update, d, v, done);
      done := done + {Description};
      update := Take(Status, local, remote, decisions, update, d, v, done);
      done := done + {Status};
      update := Take(Assignee, local, remote, decisions, update, d, v, done);
      done := done + {Assignee};
      update := Take(Milestone, local, remote, decisions, update, d, v, done);
      done := done + {Milestone};
      update := Take(Labels, local, remote, decisions, update, d, v, done);
      done := done + {Labels};
      assert done == {Title, Description, Status, Assignee, Milestone, Labels};
    }

    method ApplyRemote(gitlabId: string, v: Version, newRef: string)
      requires Valid()
      requires newRef !in docs && newRef !in idmap.Values
      requires forall f: Field :: f == Status || f in v.fields
      modifies this
      ensures Valid()
      ensures View(gitlabId) == Deliver(old(View(gitlabId)), v)
      ensures Status !in v.fields || old(View(gitlabId)).Dangling? ==>
        View(gitlabId) == old(View(gitlabId)) && cursor == old(cursor)
      ensures Status in v.fields && old(View(gitlabId)).Unmapped? ==>
        View(gitlabId) == Mirrored(Doc(v.fields, v.ts)) && cursor == Some(v.ts)
      // A version not older than the document leaves each of its values there.
      ensures var before := old(View(gitlabId));
        Status in v.fields && (before.Unmapped? || (before.Mirrored? && before.doc.modifiedOn <= v.ts)) ==>
        View(gitlabId).Mirrored? && forall f :: f in v.fields ==> ReadsAs(View(gitlabId).doc, f, v.fields[f])
      ensures forall id :: id != gitlabId ==> View(id) == old(View(id))
      ensures cursor == CursorAfter(old(View(gitlabId)), old(cursor), v)
    {
      hide ReadsAs, Taken, LocalTs;
      if Status !in v.fields { return; }
      if View(gitlabId).Mirrored? ==> View(gitlabId).doc.modifiedOn <= v.ts { DeliverPlainly(View(gitlabId), v); }
      if gitlabId !in idmap {
        docs := docs[newRef := Doc(v.fields, v.ts)];
        idmap := idmap[gitlabId := newRef];
        cursor := Some(v.ts);
        return;
      }
      var ref := idmap[gitlabId];
      if ref !in docs { return; }
      var localTs := LocalTs(docs[ref]);
      var update := CollectUpdate(docs[ref], v);
      var dirty := update != map[];
      if dirty {
        docs := docs[ref := Doc(docs[ref].fields + update, v.ts)];
      }
      if localTs == None || v.ts > localTs.value { cursor := Some(v.ts); }
    }
  }

  lemma DeliverPlainly(m: Mirror, v: Version)
    requires Status in v.fields && (m.Mirrored? ==> m.doc.modifiedOn <= v.ts)
    ensures !m.Dangling? ==>
      Deliver(m, v).Mirrored? && forall f :: f in v.fields ==> ReadsAs(Deliver(m, v).doc, f, v.fields[f])
  {
    hide Update, SameValue, AreEqual;
    if m.Mirrored? { UpdateExactly(m.doc, v); }
    forall f | f in v.fields ensures SameValue(v.fields[f], v.fields[f]) {
      AreEqualSymmetric(v.fields[f], v.fields[f]);
      AreEqualExactly(v.fields[f], v.fields[f]);
    }
  }

  function LocalMap(d: Doc): map<Field, FieldVersion> {
    map f: Field | f in FIELDS :: FieldVersion(LocalValue(d, f), LocalTs(d))
  }

  function RemoteMap(v: Version): map<Field, FieldVersion> {
    map f: Field | f in FIELDS && f in v.fields :: FieldVersion(Some(v.fields[f]), Some(v.ts))
  }

  function TakenIn(d: Doc, v: Version, done: set<Field>): Fields {
    map f | f in v.fields && f in done && Takes(d, v, f) :: v.fields[f]
  }

  lemma TakenInNext(d: Doc, v: Version, done: set<Field>, f: Field)
    requires f in v.fields
    ensures TakenIn(d, v, done + {f}) ==
      if Takes(d, v, f) then TakenIn(d, v, done)[f := v.fields[f]] else TakenIn(d, v, done)
  {
    hide Takes;
  }

  lemma TakesDecided(d: Doc, v: Version, f: Field)
    requires Full(v.fields)
    ensures var local, remote := LocalMap(d), RemoteMap(v);
      && f in v.fields && f in local && f in remote && f in Decisions(local, remote)
      && local[f].value == LocalValue(d, f) && remote[f].value == Some(v.fields[f])
      && (Takes(d, v, f) <==> Decisions(local, remote)[f] == Remote
                              && !(LocalValue(d, f).Some? && AreEqual(v.fields[f], LocalValue(d, f).value)))
  {
    hide ResolveLww, AreEqual, LocalValue;
    AllFields(f);
  }

  lemma TakenInAll(d: Doc, v: Version, done: set<Field>)
    requires done == {Title, Description, Status, Assignee, Milestone, Labels}
    ensures TakenIn(d, v, {}) == map[]
    ensures TakenIn(d, v, done) == Taken(d, v)
  {
    hide Takes;
    forall f: Field ensures f in done {
      match f case Title => case Description => case Status => case Assignee => case Milestone => case Labels =>
    }
  }

  lemma AllFields(f: Field)
    ensures f in FIELDS
  {
    assert FIELDS[0] == Title && FIELDS[1] == Description && FIELDS[2] == Status;
    assert FIELDS[3] == Assignee && FIELDS[4] == Milestone && FIELDS[5] == Labels;
  }
}
