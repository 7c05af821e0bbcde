/**
 * The cursor that all issues of a binding share (src/sync/issues.ts). Every delivery that
 * creates its issue, or is newer than its issue's document, overwrites it. When the cursor
 * still ends at the newest timestamp, whatever the order of delivery, is proved below for all
 * finite sets of deliveries.
 */
module IssueCursor {
  import opened Options
  import opened Issues

  datatype Delivery = Delivery(issue: string, version: Version)

  datatype World = World(mirrors: map<string, Mirror>, cursor: Option<int>)

  const FRESH: World := World(map[], None)

  function MirrorOf(w: World, issue: string): Mirror {
    if issue in w.mirrors then w.mirrors[issue] else Unmapped
  }

  function Receive(w: World, x: Delivery): World {
    var m := MirrorOf(w, x.issue);
    World(w.mirrors[x.issue := Deliver(m, x.version)], CursorAfter(m, w.cursor, x.version))
  }

  function ReceiveFrom(w: World, xs: seq<Delivery>): World {
    if xs == [] then w else Receive(ReceiveFrom(w, xs[..|xs| - 1]), xs[|xs| - 1])
  }

  /** The guard of the two branches that write the cursor. */
  predicate Moves(w: World, x: Delivery) {
    var m := MirrorOf(w, x.issue);
    Status in x.version.fields
    && (m.Unmapped? || (m.Mirrored? && (m.doc.modifiedOn <= 0 || m.doc.modifiedOn < x.version.ts)))
  }

  // ---------------------------------------------------------------------------
  // Runs
  // ---------------------------------------------------------------------------

  lemma ReceiveNext(w: World, xs: seq<Delivery>, x: Delivery)
    ensures ReceiveFrom(w, xs + [x]) == Receive(ReceiveFrom(w, xs), x)
  {
    assert (xs + [x])[..|xs|] == xs;
  }

  lemma CursorMoves(w: World, x: Delivery)
    ensures Receive(w, x).cursor == if Moves(w, x) then Some(x.version.ts) else w.cursor
  {
  }

  function OfIssue(xs: seq<Delivery>, issue: string): seq<Version> {
    if xs == [] then []
    else
      var before, last := OfIssue(xs[..|xs| - 1], issue), xs[|xs| - 1];
      if last.issue == issue then before + [last.version] else before
  }

  /** An issue's mirror depends on its own deliveries only. */
  lemma {:induction false} IssuesAreApart(xs: seq<Delivery>, issue: string)
    ensures MirrorOf(ReceiveFrom(FRESH, xs), issue) == DeliverAll(OfIssue(xs, issue))
  {
    hide Deliver, CursorAfter;
    if xs != [] {
      var before, last := xs[..|xs| - 1], xs[|xs| - 1];
      IssuesAreApart(before, issue);
      if last.issue == issue { DeliverNext(Unmapped, OfIssue(before, issue), last.version); }
    }
  }

  /** Once a delivery moves the cursor, it ends at the timestamp of that one or of a later one. */
  lemma {:induction false} MovedSince(w: World, before: seq<Delivery>, x: Delivery, after: seq<Delivery>) returns (y: Delivery)
    requires Moves(ReceiveFrom(w, before), x)
    ensures y in [x] + after && ReceiveFrom(w, before + [x] + after).cursor == Some(y.version.ts)
    decreases |after|
  {
    hide Receive, Moves;
    if after == [] {
      assert before + [x] + after == before + [x];
      ReceiveNext(w, before, x);
      CursorMoves(ReceiveFrom(w, before), x);
      y := x;
    } else {
      var most, last := after[..|after| - 1], after[|after| - 1];
      y := MovedSince(w, before, x, most);
      assert before + [x] + after == before + [x] + most + [last];
      ReceiveNext(w, before + [x] + most, last);
      CursorMoves(ReceiveFrom(w, before + [x] + most), last);
      if Moves(ReceiveFrom(w, before + [x] + most), last) { y := last; }
    }
  }

  ghost predicate AllProper(xs: seq<Delivery>) {
    forall x :: x in xs ==> Proper(x.version)
  }

  lemma {:induction false} MirroredOnceDelivered(xs: seq<Delivery>, issue: string)
    requires AllProper(xs)
    ensures var m := DeliverAll(OfIssue(xs, issue));
      if OfIssue(xs, issue) == [] then m == Unmapped else m.Mirrored? && m.doc.modifiedOn > 0 && Full(m.doc.fields)
  {
    hide Update, Full;
    if xs != [] {
      var before, last := xs[..|xs| - 1], xs[|xs| - 1];
      MirroredOnceDelivered(before, issue);
      if last.issue == issue {
        assert last in xs && Proper(last.version);
        ProperMeans(last.version);
        ProperFull(last.version);
        var m := DeliverAll(OfIssue(before, issue));
        DeliverNext(Unmapped, OfIssue(before, issue), last.version);
        if m.Mirrored? { UpdateCases(m.doc, last.version); }
      }
    }
  }

  lemma ProperFull(v: Version)
    requires Proper(v)
    ensures Full(v.fields)
  {
  }

  /**
   * After any run over several issues, one more delivery moves the shared cursor back exactly
   * when it is older than the cursor and is the first of its issue, or newer than what the
   * deliveries of its issue alone leave in the document.
   */
  lemma CursorFallsExactly(xs: seq<Delivery>, x: Delivery, cursor: int)
    requires AllProper(xs) && Proper(x.version) && ReceiveFrom(FRESH, xs).cursor == Some(cursor)
    ensures ReceiveFrom(FRESH, xs + [x]).cursor.Some?
    ensures OfIssue(xs, x.issue) != [] ==> DeliverAll(OfIssue(xs, x.issue)).Mirrored?
    ensures var own := OfIssue(xs, x.issue);
      ReceiveFrom(FRESH, xs + [x]).cursor.value < cursor <==>
        x.version.ts < cursor && (own == [] || DeliverAll(own).doc.modifiedOn < x.version.ts)
  {
    hide ReceiveFrom, DeliverAll, OfIssue, Full;
    ReceiveNext(FRESH, xs, x);
    IssuesAreApart(xs, x.issue);
    MirroredOnceDelivered(xs, x.issue);
    ProperMeans(x.version);
    CursorMoves(ReceiveFrom(FRESH, xs), x);
  }

  // ---------------------------------------------------------------------------
  // The newest timestamp
  // ---------------------------------------------------------------------------

  /** Versions with positive timestamps that tell the deliveries apart. */
  ghost predicate Timed(all: seq<Delivery>) {
    && AllProper(all)
    && forall x, y :: x in all && y in all && x.version.ts == y.version.ts ==> x == y
  }

  ghost predicate IsNewest(all: seq<Delivery>, n: Delivery) {
    n in all && forall x :: x in all ==> x.version.ts <= n.version.ts
  }

  ghost predicate SameDeliveries(a: seq<Delivery>, b: seq<Delivery>) {
    forall x :: x in a <==> x in b
  }

  /** However the deliveries are ordered and repeated, the cursor ends at the newest. */
  ghost predicate HighWater(all: seq<Delivery>, n: Delivery) {
    forall order :: SameDeliveries(order, all) ==> ReceiveFrom(FRESH, order).cursor == Some(n.version.ts)
  }

  ghost predicate OneIssue(all: seq<Delivery>, issue: string) {
    forall x :: x in all ==> x.issue == issue
  }

  /** The newest content was there before, and some other version came between. */
  ghost predicate ComesBack(all: seq<Delivery>, n: Delivery) {
    exists b, z :: b in all && z in all && BackAt(b, z, n)
  }

  ghost predicate BackAt(b: Delivery, z: Delivery, n: Delivery) {
    b.version.ts < z.version.ts < n.version.ts && SameContent(b.version.fields, n.version.fields)
  }

  /** The document carries the timestamp of b, and the cursor is the newest once that came by. */
  ghost predicate Tracks(w: World, before: seq<Delivery>, b: Delivery, n: Delivery) {
    var m := MirrorOf(w, n.issue);
    && b in before && m.Mirrored? && Full(m.doc.fields)
    && m.doc.modifiedOn == b.version.ts && SameContent(m.doc.fields, b.version.fields)
    && (n in before ==> w.cursor == Some(n.version.ts) && SameContent(b.version.fields, n.version.fields))
  }

  lemma TracksFirst(x: Delivery, n: Delivery)
    requires Proper(x.version) && x.issue == n.issue
    ensures Tracks(ReceiveFrom(FRESH, [x]), [x], x, n)
  {
    assert [x][..0] == [];
    assert ReceiveFrom(FRESH, [x]) == Receive(FRESH, x);
    SameContentIsEquivalence(x.version.fields, x.version.fields, x.version.fields);
  }

  lemma TracksNext(w: World, before: seq<Delivery>, x: Delivery, all: seq<Delivery>, b: Delivery, n: Delivery) returns (b': Delivery)
    requires Timed(all) && IsNewest(all, n) && OneIssue(all, n.issue) && !ComesBack(all, n)
    requires x in all && b in all && Tracks(w, before, b, n)
    ensures b' in all && Tracks(Receive(w, x), before + [x], b', n)
  {
    hide Update, Full, SameContent, ComesBack;
    var d, v := MirrorOf(w, n.issue).doc, x.version;
    assert Proper(v) && Proper(b.version) && Proper(n.version);
    ProperMeans(v);
    ProperMeans(b.version);
    UpdateCases(d, v) by { ProperFull(v); }
    SameContentIsEquivalence(d.fields, b.version.fields, n.version.fields);
    SameContentIsEquivalence(b.version.fields, d.fields, n.version.fields);
    SameContentIsEquivalence(d.fields, b.version.fields, v.fields);
    assert BackAt(b, x, n) ==> ComesBack(all, n) by { ComesBackBy(all, b, x, n); }
    assert Moves(w, x) <==> b.version.ts < v.ts;
    CursorMoves(w, x);
    b' := if v.ts < d.modifiedOn || SameContent(d.fields, v.fields) then b else x;
  }

  lemma ComesBackBy(all: seq<Delivery>, b: Delivery, z: Delivery, n: Delivery)
    requires b in all && z in all
    ensures BackAt(b, z, n) ==> ComesBack(all, n)
  {
  }

  lemma {:induction false} TracksAll(xs: seq<Delivery>, all: seq<Delivery>, n: Delivery) returns (b: Delivery)
    requires Timed(all) && IsNewest(all, n) && OneIssue(all, n.issue) && !ComesBack(all, n)
    requires xs != [] && forall x :: x in xs ==> x in all
    ensures b in all && Tracks(ReceiveFrom(FRESH, xs), xs, b, n)
  {
    hide Receive, Tracks, ComesBack;
    var before, last := xs[..|xs| - 1], xs[|xs| - 1];
    assert xs == before + [last];
    assert last in all && Proper(last.version);
    if before == [] {
      TracksFirst(last, n);
      b := last;
    } else {
      b := TracksAll(before, all, n);
      b := TracksNext(ReceiveFrom(FRESH, before), before, last, all, b, n);
    }
  }

  // ---------------------------------------------------------------------------
  // Orders that lower it
  // ---------------------------------------------------------------------------

  function Deliveries(xs: seq<Delivery>, issue: string, of: bool): (r: seq<Delivery>)
    ensures forall x :: x in r <==> x in xs && (x.issue == issue <==> of)
  {
    if xs == [] then []
    else
      var rest := Deliveries(xs[1..], issue, of);
      assert forall x :: x in xs <==> x == xs[0] || x in xs[1..];
      if xs[0].issue == issue <==> of then [xs[0]] + rest else rest
  }

  function WithoutDelivery(xs: seq<Delivery>, n: Delivery): (r: seq<Delivery>)
    ensures forall x :: x in r <==> x in xs && x != n
  {
    if xs == [] then []
    else
      var rest := WithoutDelivery(xs[1..], n);
      assert forall x :: x in xs <==> x == xs[0] || x in xs[1..];
      if xs[0] != n then [xs[0]] + rest else rest
  }

  lemma {:induction false} UntouchedIsUnmapped(xs: seq<Delivery>, issue: string)
    requires forall x :: x in xs ==> x.issue != issue
    ensures MirrorOf(ReceiveFrom(FRESH, xs), issue) == Unmapped
  {
    hide Deliver, CursorAfter;
    if xs != [] { UntouchedIsUnmapped(xs[..|xs| - 1], issue); }
  }

  /** Everything on the other issues first, then those of this one: its first delivery lowers the cursor. */
  lemma OtherIssueLowers(all: seq<Delivery>, n: Delivery, x: Delivery)
    requires Timed(all) && IsNewest(all, n) && x in all && x.issue != n.issue
    ensures !HighWater(all, n)
  {
    hide Receive, Moves, Proper;
    var others, own := Deliveries(all, x.issue, false), Deliveries(all, x.issue, true);
    UntouchedIsUnmapped(others, x.issue);
    assert own != [] by { assert x in own; }
    var first, rest := own[0], own[1..];
    assert own == [first] + rest;
    assert first in own && forall y :: y in rest ==> y in own;
    NewIssueMoves(ReceiveFrom(FRESH, others), first);
    var y := MovedSince(FRESH, others, first, rest);
    var order := others + [first] + rest;
    assert SameDeliveries(order, all);
    assert y in own && y != n;
  }

  lemma NewIssueMoves(w: World, x: Delivery)
    requires MirrorOf(w, x.issue).Unmapped? && Proper(x.version)
    ensures Moves(w, x)
  {
    ProperMeans(x.version);
  }

  /** The older copy of the newest content, the newest, then a version between the two. */
  lemma ComingBackLowers(all: seq<Delivery>, n: Delivery, b: Delivery, z: Delivery)
    requires Timed(all) && IsNewest(all, n) && OneIssue(all, n.issue)
    requires b in all && z in all && BackAt(b, z, n)
    ensures !HighWater(all, n)
  {
    hide Receive, Moves, Proper, SameContent;
    var rest := WithoutDelivery(all, n);
    StillOlder(b, n, z) by { assert Proper(b.version) && Proper(n.version) && Proper(z.version); }
    var y := MovedSince(FRESH, [b, n], z, rest);
    var order := [b, n] + [z] + rest;
    assert SameDeliveries(order, all);
    assert y in all && y != n;
  }

  /** An unchanged newer version leaves the document's timestamp, so the one between is new to it. */
  lemma StillOlder(b: Delivery, n: Delivery, z: Delivery)
    requires Proper(b.version) && Proper(n.version) && Proper(z.version)
    requires b.issue == n.issue == z.issue && BackAt(b, z, n)
    ensures Moves(ReceiveFrom(FRESH, [b, n]), z)
  {
    hide Update;
    var d := Doc(b.version.fields, b.version.ts);
    assert [b] + [n] == [b, n] && [b][..0] == [];
    ReceiveNext(FRESH, [b], n);
    assert ReceiveFrom(FRESH, [b]) == Receive(FRESH, b);
    assert MirrorOf(Receive(FRESH, b), b.issue) == Mirrored(d);
    UpdateCases(d, n.version);
  }

  /**
   * In every order of delivery the cursor ends at the newest timestamp if and only if all
   * deliveries are of one issue and no other version comes between two with the newest content.
   */
  lemma CursorHighWaterExactly(all: seq<Delivery>, n: Delivery)
    requires Timed(all) && IsNewest(all, n)
    ensures HighWater(all, n) <==> OneIssue(all, n.issue) && !ComesBack(all, n)
  {
    hide Timed, ReceiveFrom, BackAt;
    if !OneIssue(all, n.issue) {
      var x :| x in all && x.issue != n.issue;
      OtherIssueLowers(all, n, x);
    } else if ComesBack(all, n) {
      var b, z :| b in all && z in all && BackAt(b, z, n);
      ComingBackLowers(all, n, b, z);
    } else {
      forall order | SameDeliveries(order, all) ensures ReceiveFrom(FRESH, order).cursor == Some(n.version.ts) {
        assert n in order;
        var b := TracksAll(order, all, n);
      }
    }
  }
}
