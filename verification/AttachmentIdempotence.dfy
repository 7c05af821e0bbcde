/**
 * When rewriting the links of a body twice is rewriting them once, for every mapping the
 * rewriter of src/sync/attachment-links.ts can build, also with targets that are empty or
 * contain `)` and so are no longer one link when the body is scanned again.
 */
module AttachmentIdempotence {
  import opened Text
  import opened AttachmentLinks

  // ---------------------------------------------------------------------------
  // Texts that keep to themselves
  // ---------------------------------------------------------------------------

  /** Scanning the text comes to a `[` with no `]` behind it: a link could still begin there. */
  predicate LeavesOpen(s: string)
    decreases |s|
  {
    s != "" &&
    match LinkAt(s)
    case Match(_, rest) => LeavesOpen(rest)
    case NoMatch => (s[0] == '[' && ']' !in s[1..]) || LeavesOpen(s[1..])
  }

  /** The text ends with the parenthesis that ends a link. */
  predicate EndsClosed(s: string) {
    s != "" && s[|s| - 1] == ')'
  }

  lemma MatchExtends(s: string, x: string)
    requires LinkAt(s).Match?
    ensures LinkAt(s + x) == Match(LinkAt(s).link, LinkAt(s).rest + x)
  {
    hide LinkAt, Put;
    var Match(link, rest) := LinkAt(s);
    PutThen(link, rest);
    PutThen(link, rest + x);
    Assoc(Put(link, ""), rest, x);
    LinkAtIsThePattern(s + x, link, rest + x);
  }

  /** A `[` whose `]` is there, and that opens no link, opens none in front of more text either. */
  lemma ClosingExtends(r: string, x: string)
    requires Closing(r).Open? && ']' in r && EndsClosed(r)
    ensures Closing(r + x).Open?
  {
    hide SplitAt, UrlPart;
    var Split(alt, r1) := SplitAt(r, ']');
    RestEndsClosed(r, alt, r1);
    Assoc(alt, [']'] + r1, x);
    Assoc([']'], r1, x);
    SplitAtFirst(alt, ']', r1 + x);
    if r1[0] == '(' {
      assert (r1 + x)[1..] == r1[1..] + x;
      UrlPartExtends(r1[1..], x);
    }
  }

  lemma RestEndsClosed(r: string, alt: string, r1: string)
    requires EndsClosed(r) && r == alt + ([']'] + r1)
    ensures EndsClosed(r1)
    ensures r1[0] == '(' ==> ')' in r1[1..]
  {
    assert r[|r| - 1] == ([']'] + r1)[|r1|];
    if r1 != "" { assert ([']'] + r1)[|r1|] == r1[|r1| - 1]; }
    if r1 != "" && r1[0] == '(' { assert r1[1..][|r1| - 2] == ')'; }
  }

  lemma UrlPartExtends(r: string, x: string)
    requires UrlPart(r).Absent? && ')' in r
    ensures UrlPart(r + x).Absent?
  {
    assert SplitAt(r, ')').Split?;
    assert r[0] == ')';
    assert (r + x)[0] == ')';
  }

  lemma SuffixEndsClosed(s: string, k: nat)
    requires EndsClosed(s)
    ensures k < |s| ==> EndsClosed(s[k..])
    ensures |s| == 1 ==> s[0] == ')'
  {
  }

  lemma NoMatchExtends(s: string, x: string)
    requires s != "" && LinkAt(s).NoMatch? && EndsClosed(s)
    requires s[0] == '[' ==> ']' in s[1..]
    requires s[0] == '!' && |s| > 1 && s[1] == '[' ==> ']' in s[2..]
    ensures LinkAt(s + x).NoMatch?
  {
    hide LinkAt, Closing, EndsClosed;
    var c, r := s[0], s[1..];
    assert s == [c] + r;
    Assoc([c], r, x);
    LinkAtStart(c, r);
    LinkAtStart(c, r + x);
    SuffixEndsClosed(s, 1);
    if c == '[' {
      ClosingExtends(r, x);
    } else if c == '!' && r != "" && r[0] == '[' {
      assert (r + x)[1..] == r[1..] + x && r[1..] == s[2..];
      SuffixEndsClosed(s, 2);
      ClosingExtends(r[1..], x);
    }
  }

  lemma ClosedStep(s: string)
    requires s != "" && LinkAt(s).NoMatch? && !LeavesOpen(s)
    ensures !LeavesOpen(s[1..])
    ensures s[0] == '[' ==> ']' in s[1..]
    ensures s[0] == '!' && |s| > 1 && s[1] == '[' ==> ']' in s[2..]
  {
    hide Closing;
    if s[0] == '!' && |s| > 1 && s[1] == '[' {
      assert s[1..][1..] == s[2..];
      BangAndBracket(s);
    }
  }

  lemma BangAndBracket(s: string)
    requires |s| > 1 && s[0] == '!' && s[1] == '['
    ensures LinkAt(s).NoMatch? <==> LinkAt(s[1..]).NoMatch?
  {
    hide LinkAt, Closing;
    assert s == ['!'] + s[1..] && s[1..] == ['['] + s[2..] && s[1..][1..] == s[2..];
    LinkAtStart('!', s[1..]);
    LinkAtStart('[', s[2..]);
  }

  /** A closed text that leaves nothing open is rewritten on its own, whatever follows. */
  lemma {:induction false} RewriteApart(s: string, x: string, m: map<string, string>)
    requires s == "" || (EndsClosed(s) && !LeavesOpen(s))
    ensures Rewrite(s + x, m) == Rewrite(s, m) + Rewrite(x, m)
    decreases |s|
  {
    hide LinkAt, Put, Rewrite;
    RewriteStep(s, m);
    RewriteStep(s + x, m);
    if s == "" {
      assert s + x == x;
      assert "" + Rewrite(x, m) == Rewrite(x, m);
    } else {
      match LinkAt(s)
      case Match(link, rest) =>
        MatchExtends(s, x);
        RestIsSuffix(s, link, rest);
        RewriteApart(rest, x, m);
        Assoc(Put(SubstToken(link, m), ""), Rewrite(rest, m), Rewrite(x, m));
      case NoMatch =>
        ClosedStep(s);
        NoMatchExtends(s, x);
        assert (s + x)[1..] == s[1..] + x;
        RewriteApart(s[1..], x, m);
        Assoc([s[0]], Rewrite(s[1..], m), Rewrite(x, m));
    }
  }

  lemma RestIsSuffix(s: string, link: Token, rest: string)
    requires LinkAt(s) == Match(link, rest)
    ensures |rest| < |s| && (EndsClosed(s) && rest != "" ==> EndsClosed(rest))
    ensures !LeavesOpen(s) ==> !LeavesOpen(rest)
  {
    hide Put;
    PutThen(link, rest);
  }

  // ---------------------------------------------------------------------------
  // A rewritten link, scanned again
  // ---------------------------------------------------------------------------

  /** The text of one link, whatever its URL. */
  function Piece(bang: bool, alt: string, url: string): string {
    Put(Link(bang, alt, url), "")
  }

  /** A link without text: the one to look at for each target. */
  function Bare(url: string): string {
    Piece(false, "", url)
  }

  /** Scanning the rewritten link again changes nothing and leaves nothing open. */
  ghost predicate Stands(piece: string, m: map<string, string>) {
    Rewrite(piece, m) == piece && !LeavesOpen(piece)
  }

  function Front(bang: bool, alt: string): string {
    (if bang then ['!', '['] else ['[']) + alt
  }

  lemma PieceIs(bang: bool, alt: string, url: string)
    ensures Piece(bang, alt, url) == Front(bang, alt) + ("](" + (url + ")"))
    ensures EndsClosed(Piece(bang, alt, url))
  {
    assert "](" + (url + ")") == [']'] + (['('] + (url + ([')'] + "")));
    assert (['!'] + ['[']) + alt == ['!'] + (['['] + alt);
  }

  lemma FrontIsOpen(bang: bool, alt: string)
    requires ']' !in alt
    ensures ']' !in Front(bang, alt)
  {
  }

  lemma EmptyUrl(v: string)
    ensures UrlPart([')'] + v).Absent?
  {
    assert "" + ([')'] + v) == [')'] + v;
    SplitAtFirst("", ')', v);
  }

  lemma ClosingOfEmptyUrl(alt: string, v: string)
    requires ']' !in alt
    ensures Closing(alt + ("]()" + v)).Open?
  {
    hide SplitAt, UrlPart;
    var r1 := ['('] + ([')'] + v);
    assert "]()" + v == [']'] + r1;
    SplitAtFirst(alt, ']', r1);
    assert r1[1..] == [')'] + v;
    EmptyUrl(v);
  }

  /** `[text]()` is no link: what stands before the parentheses is copied. */
  lemma {:induction false} EmptyUrlIsText(front: string, v: string, m: map<string, string>)
    requires ']' !in front
    ensures Rewrite(front + ("]()" + v), m) == front + ("]()" + Rewrite(v, m))
    ensures LeavesOpen(front + ("]()" + v)) <==> LeavesOpen(v)
  {
    hide LinkAt, Put, Rewrite, Closing;
    var s := front + ("]()" + v);
    if front == "" {
      ThreeChars(v, m);
      assert s == "]()" + v && "" + ("]()" + Rewrite(v, m)) == "]()" + Rewrite(v, m);
    } else {
      var c, more := front[0], front[1..];
      assert s == [c] + (more + ("]()" + v));
      assert s[1..] == more + ("]()" + v);
      LinkAtStart(c, more + ("]()" + v));
      ClosingOfEmptyUrl(more, v);
      if c == '!' && more != "" {
        assert (more + ("]()" + v))[1..] == more[1..] + ("]()" + v);
        ClosingOfEmptyUrl(more[1..], v);
      }
      EmptyUrlIsText(more, v, m);
      RewriteStep(s, m);
      assert s[|more| + 1] == ']' && s[1..][|more|] == ']';
      assert front == [c] + more;
      Assoc([c], more, "]()" + Rewrite(v, m));
    }
  }

  lemma PlainChar(c: char, r: string, m: map<string, string>)
    requires c != '[' && c != '!'
    ensures Rewrite([c] + r, m) == [c] + Rewrite(r, m)
    ensures LeavesOpen([c] + r) <==> LeavesOpen(r)
  {
    hide Put, Rewrite, Closing;
    assert ([c] + r)[1..] == r;
    RewriteStep([c] + r, m);
  }

  lemma ThreeChars(v: string, m: map<string, string>)
    ensures Rewrite("]()" + v, m) == "]()" + Rewrite(v, m)
    ensures LeavesOpen("]()" + v) <==> LeavesOpen(v)
  {
    hide Rewrite, LeavesOpen;
    assert "]()" + v == [']'] + (['('] + ([')'] + v));
    PlainChar(')', v, m);
    PlainChar('(', [')'] + v, m);
    PlainChar(']', ['('] + ([')'] + v), m);
    assert "]()" + Rewrite(v, m) == [']'] + (['('] + ([')'] + Rewrite(v, m)));
  }

  lemma Cancel(a: string, x: string, y: string)
    requires a + x == a + y
    ensures x == y
  {
    assert x == (a + x)[|a|..] && y == (a + y)[|a|..];
  }

  function NewUrl(url: string, m: map<string, string>): string {
    if Trim(url) in m then m[Trim(url)] else url
  }

  /** What the pattern captures of a replaced URL, and the text that is left over. */
  function Captured(url: string): (r: Split)
    ensures r.Split? && ')' !in r.before && url + ")" == r.before + ([')'] + r.after)
    ensures r.after == "" || EndsClosed(r.after)
  {
    var r := SplitAt(url + ")", ')');
    assert (url + ")")[|url|] == ')';
    assert r.after != "" ==> (r.before + ([')'] + r.after))[|url|] == r.after[|r.after| - 1];
    r
  }

  lemma PieceCaptured(bang: bool, alt: string, url: string)
    ensures var Split(p, v) := Captured(url);
      && Piece(bang, alt, url) == Front(bang, alt) + ("](" + (p + ([')'] + v)))
      && Put(Link(bang, alt, p), v) == Piece(bang, alt, url)
      && (p == "" ==> Piece(bang, alt, url) == Front(bang, alt) + ("]()" + v))
  {
    hide Captured;
    var Split(p, v) := Captured(url);
    PieceIs(bang, alt, url);
    PieceIs(bang, alt, p);
    PutThen(Link(bang, alt, p), v);
    Assoc(Front(bang, alt), "](" + (p + ")"), v);
    Assoc("](", p + ")", v);
    Assoc(p, ")", v);
    if p == "" { assert "](" + ("" + ([')'] + v)) == "]()" + v; }
  }

  /** What scanning a rewritten link again makes of it. */
  lemma PieceAgain(bang: bool, alt: string, url: string, m: map<string, string>)
    requires ']' !in alt
    ensures var Split(p, v) := Captured(url);
      var piece := Piece(bang, alt, url);
      && (LeavesOpen(piece) <==> LeavesOpen(v))
      && Rewrite(piece, m) == Front(bang, alt)
           + (if p == "" then "]()" + Rewrite(v, m) else "](" + (NewUrl(p, m) + ([')'] + Rewrite(v, m))))
  {
    hide Captured, Rewrite, LinkAt, Put;
    var Split(p, v) := Captured(url);
    PieceCaptured(bang, alt, url);
    FrontIsOpen(bang, alt);
    if p == "" {
      EmptyUrlIsText(Front(bang, alt), v, m);
    } else {
      var link, piece := Link(bang, alt, p), Piece(bang, alt, url);
      LinkAtIsThePattern(piece, link, v);
      RewriteStep(piece, m);
      PieceIs(bang, alt, NewUrl(p, m));
      Assoc(Front(bang, alt), "](" + (NewUrl(p, m) + ")"), Rewrite(v, m));
      Assoc("](", NewUrl(p, m) + ")", Rewrite(v, m));
      Assoc(NewUrl(p, m), ")", Rewrite(v, m));
    }
  }

  /** Whether a rewritten link stands does not depend on its text. */
  lemma StandsWithAnyText(bang: bool, alt: string, url: string, m: map<string, string>)
    requires ']' !in alt && Stands(Bare(url), m)
    ensures Stands(Piece(bang, alt, url), m)
  {
    hide Captured, Rewrite, LeavesOpen, Piece;
    var Split(p, v) := Captured(url);
    PieceAgain(false, "", url, m);
    PieceCaptured(false, "", url);
    PieceAgain(bang, alt, url, m);
    PieceCaptured(bang, alt, url);
    if p == "" {
      Cancel(Front(false, ""), "]()" + Rewrite(v, m), "]()" + v);
    } else {
      Cancel(Front(false, ""), "](" + (NewUrl(p, m) + ([')'] + Rewrite(v, m))), "](" + (p + ([')'] + v)));
    }
  }

  // ---------------------------------------------------------------------------
  // Bodies whose rewritten links all stand
  // ---------------------------------------------------------------------------

  ghost predicate AllStand(m: map<string, string>) {
    forall s :: s in m && Reachable(s) ==> Stands(Bare(m[s]), m)
  }

  lemma LinkAgain(t: Token, rest: string, m: map<string, string>)
    requires t.Link? && GoodToken(t) && AllStand(m)
    ensures var t' := SubstToken(t, m);
      Rewrite(Put(t', rest), m) == Put(t', "") + Rewrite(rest, m)
  {
    hide Rewrite, Put, LinkAt, LeavesOpen;
    var t' := SubstToken(t, m);
    PutThen(t', rest);
    if Trim(t.url) in m {
      TrimIsTrimmed(t.url);
      StandsWithAnyText(t.bang, t.alt, t'.url, m);
      PieceIs(t.bang, t.alt, t'.url);
      RewriteApart(Put(t', ""), rest, m);
    } else {
      LinkAtIsThePattern(Put(t, rest), t, rest);
      RewriteStep(Put(t, rest), m);
    }
  }

  lemma {:induction false} RewriteAgain(ts: seq<Token>, m: map<string, string>)
    requires Canonical(ts) && AllStand(m)
    ensures Rewrite(Render(Subst(ts, m)), m) == Render(Subst(ts, m))
  {
    hide Rewrite, Put, LinkAt, AllStand, Trim;
    if ts == [] {
      RewriteStep("", m);
    } else {
      var rest := Render(Subst(ts[1..], m));
      assert Subst(ts, m)[1..] == Subst(ts[1..], m);
      CanonicalGood(ts[1..]);
      RewriteAgain(ts[1..], m);
      PutThen(SubstToken(ts[0], m), rest);
      match ts[0]
      case Link(_, _, _) => LinkAgain(ts[0], rest, m);
      case Ch(c) =>
        PutIsChar(c, Render(ts[1..]));
        PutIsChar(c, rest);
        CharStable(c, ts[1..], m);
        RewriteStep([c] + rest, m);
        assert ([c] + rest)[1..] == rest;
    }
  }

  lemma PutIsChar(c: char, rest: string)
    ensures Put(Ch(c), rest) == [c] + rest
  {
  }

  // ---------------------------------------------------------------------------
  // Bodies on which a rewritten link does not stand
  // ---------------------------------------------------------------------------

  lemma {:induction false} NoLinkIsText(s: string, m: map<string, string>)
    requires ']' !in s || '[' !in s
    ensures Rewrite(s, m) == s
    decreases |s|
  {
    hide Rewrite, LinkAt, Put;
    RewriteStep(s, m);
    if s != "" {
      if LinkAt(s).Match? {
        var Match(link, rest) := LinkAt(s);
        PutThen(link, rest);
        PieceIs(link.bang, link.alt, link.url);
        PieceHasBrackets(link.bang, link.alt, link.url, rest);
      }
      NoLinkIsText(s[1..], m);
      assert s == [s[0]] + s[1..];
    }
  }

  lemma PieceHasBrackets(bang: bool, alt: string, url: string, rest: string)
    ensures var s := Front(bang, alt) + ("](" + (url + ")")) + rest;
      '[' in s && ']' in s && |s| >= |url| + 4 + |rest|
  {
    var s := Front(bang, alt) + ("](" + (url + ")")) + rest;
    assert s[|Front(bang, alt)|] == ']';
    assert s[if bang then 1 else 0] == '[';
  }

  lemma TrimIsShorter(s: string)
    ensures |Trim(s)| <= |s|
  {
    TrimStartIsTrimmed(s);
    TrimEndIsTrimmed(TrimStart(s));
  }

  /** A text too short to link to any mapped URL is left as it is. */
  lemma {:induction false} ShortIsKept(s: string, m: map<string, string>, n: nat)
    requires (forall k :: k in m && Reachable(k) ==> |k| >= n) && |s| <= n + 3
    ensures Rewrite(s, m) == s
    decreases |s|
  {
    hide Rewrite, LinkAt, Put, Trim;
    RewriteStep(s, m);
    if s != "" {
      match LinkAt(s)
      case Match(link, rest) =>
        PutThen(link, rest);
        PieceIs(link.bang, link.alt, link.url);
        PieceHasBrackets(link.bang, link.alt, link.url, rest);
        TrimIsShorter(link.url);
        TrimIsTrimmed(link.url);
        ShortIsKept(rest, m, n);
      case NoMatch =>
        ShortIsKept(s[1..], m, n);
        assert s == [s[0]] + s[1..];
    }
  }

  lemma {:induction false} ShortestKey(keys: set<string>) returns (k: string)
    requires keys != {}
    ensures k in keys && forall s :: s in keys ==> |k| <= |s|
  {
    var s :| s in keys;
    if keys == {s} {
      k := s;
    } else {
      k := ShortestKey(keys - {s});
      if |s| < |k| { k := s; }
    }
  }

  /** What closes a bracket left open, and makes a link to `url` of it. */
  function Closer(url: string): string {
    "](" + (url + ")")
  }

  /** `s` is `a`, a bracket and `b`; behind `s` the closer makes a link of the bracket, and `a` is rewritten to `p`. */
  ghost predicate Binds(s: string, url: string, m: map<string, string>, p: string, a: string, b: string) {
    && s == a + (['['] + b) && Rewrite(s, m) == p + (['['] + b)
    && Rewrite(s + Closer(url), m) == p + (['['] + (b + Closer(NewUrl(url, m))))
  }

  lemma BindsBehindLink(s: string, url: string, m: map<string, string>, p: string, a: string, b: string)
    requires LinkAt(s).Match? && Binds(LinkAt(s).rest, url, m, p, a, b)
    ensures var Match(link, _) := LinkAt(s);
      Binds(s, url, m, Put(SubstToken(link, m), "") + p, Put(link, "") + a, b)
  {
    hide Rewrite, LinkAt, Put, Closer, NewUrl;
    var Match(link, rest) := LinkAt(s);
    var after := Put(SubstToken(link, m), "");
    RewriteStep(s, m);
    RewriteStep(s + Closer(url), m);
    MatchExtends(s, Closer(url));
    PutThen(link, rest);
    Assoc(Put(link, ""), a, ['['] + b);
    Assoc(after, p, ['['] + b);
    Assoc(after, p, ['['] + (b + Closer(NewUrl(url, m))));
  }

  lemma BindsBehindChar(s: string, url: string, m: map<string, string>, p: string, a: string, b: string)
    requires s != "" && LinkAt(s).NoMatch? && LinkAt(s + Closer(url)).NoMatch? && Binds(s[1..], url, m, p, a, b)
    ensures Binds(s, url, m, [s[0]] + p, [s[0]] + a, b)
  {
    hide Rewrite, LinkAt, Put, Closer, NewUrl;
    RewriteStep(s, m);
    RewriteStep(s + Closer(url), m);
    assert (s + Closer(url))[1..] == s[1..] + Closer(url);
    assert s == [s[0]] + s[1..];
    Assoc([s[0]], a, ['['] + b);
    Assoc([s[0]], p, ['['] + b);
    Assoc([s[0]], p, ['['] + (b + Closer(NewUrl(url, m))));
  }

  lemma BracketBinds(alt: string, url: string, m: map<string, string>)
    requires ']' !in alt && Capturable(url)
    ensures Binds(['['] + alt, url, m, "", "", alt)
    ensures Binds(['!'] + (['['] + alt), url, m, "!", "!", alt)
  {
    hide Rewrite, Closer, NewUrl;
    OpenBracketBinds(false, alt, url, m);
    OpenBracketBinds(true, alt, url, m);
    var after := Closer(NewUrl(url, m));
    Assoc(['['], alt, after);
    Assoc(['!'], ['['] + alt, after);
    assert "" + (['['] + alt) == ['['] + alt;
    assert "" + (['['] + (alt + after)) == ['['] + (alt + after);
    assert [] + (['['] + alt) == ['['] + alt;
  }

  /** Behind a text that leaves a bracket open, the closer becomes a link and is rewritten. */
  lemma {:induction false} OpenBinds(s: string, url: string, m: map<string, string>) returns (p: string, a: string, b: string)
    requires LeavesOpen(s) && EndsClosed(s) && Capturable(url)
    ensures Binds(s, url, m, p, a, b)
    decreases |s|
  {
    hide Rewrite, LinkAt, Put, Closing, Closer, Binds;
    match LinkAt(s)
    case Match(link, rest) =>
      RestIsClosed(s, link, rest);
      p, a, b := OpenBinds(rest, url, m);
      BindsBehindLink(s, url, m, p, a, b);
      p, a := Put(SubstToken(link, m), "") + p, Put(link, "") + a;
    case NoMatch =>
      if s[0] == '[' && ']' !in s[1..] {
        p, a, b := "", "", s[1..];
        assert s == ['['] + b;
        BracketBinds(b, url, m);
      } else if s[0] == '!' && |s| > 1 && s[1] == '[' && ']' !in s[2..] {
        p, a, b := "!", "!", s[2..];
        assert s == ['!'] + (['['] + b);
        BracketBinds(b, url, m);
      } else {
        NoMatchExtends(s, Closer(url));
        OpenIsClosedBehind(s);
        p, a, b := OpenBinds(s[1..], url, m);
        BindsBehindChar(s, url, m, p, a, b);
        p, a := [s[0]] + p, [s[0]] + a;
      }
  }

  lemma RestIsClosed(s: string, link: Token, rest: string)
    requires LinkAt(s) == Match(link, rest) && LeavesOpen(s) && EndsClosed(s)
    ensures LeavesOpen(rest) && EndsClosed(rest) && |rest| < |s|
  {
    RestIsSuffix(s, link, rest);
  }

  lemma OpenIsClosedBehind(s: string)
    requires LinkAt(s).NoMatch? && LeavesOpen(s) && EndsClosed(s)
    requires !(s[0] == '[' && ']' !in s[1..])
    ensures LeavesOpen(s[1..]) && EndsClosed(s[1..])
  {
  }

  lemma OpenBracketBinds(bang: bool, alt: string, url: string, m: map<string, string>)
    requires ']' !in alt && Capturable(url)
    ensures var open := Front(bang, alt);
      && Rewrite(open, m) == open
      && Rewrite(open + Closer(url), m) == open + Closer(NewUrl(url, m))
    ensures Front(bang, alt) == (if bang then ['!'] else []) + (['['] + alt)
  {
    hide Rewrite, LinkAt, Put;
    FrontIsOpen(bang, alt);
    NoLinkIsText(Front(bang, alt), m);
    PieceIs(bang, alt, url);
    PieceIs(bang, alt, NewUrl(url, m));
    var piece := Piece(bang, alt, url);
    LinkAtIsThePattern(piece, Link(bang, alt, url), "");
    RewriteStep(piece, m);
    RewriteStep("", m);
    assert piece == Front(bang, alt) + Closer(url);
    assert ['!', '['] + alt == ['!'] + (['['] + alt);
  }

  /** A URL that is looked up as the given key, and not what the key is mapped to. */
  function UrlFor(key: string, target: string): string {
    if key != "" then key else if target == " " then "  " else " "
  }

  lemma UrlForKey(key: string, target: string)
    requires Reachable(key) && target != key
    ensures var url := UrlFor(key, target);
      Capturable(url) && Trim(url) == key && url != target && (key == "" ==> '[' !in url)
  {
    TrimOfTrimmed(key);
    assert " "[1..] == "" && "  "[1..] == " ";
  }

  lemma CloserIsKept(key: string, target: string, m: map<string, string>)
    requires Reachable(key) && target != key && forall k :: k in m && Reachable(k) ==> |key| <= |k|
    ensures Rewrite(Closer(UrlFor(key, target)), m) == Closer(UrlFor(key, target))
  {
    hide Rewrite;
    if key == "" {
      NoLinkIsText(Closer(UrlFor(key, target)), m);
    } else {
      ShortIsKept(Closer(key), m, |key|);
    }
  }

  lemma OneLinkIsPiece(bang: bool, alt: string, url: string)
    ensures OneLink(Link(bang, alt, url)) == Piece(bang, alt, url)
  {
    hide Put;
    var t := Link(bang, alt, url);
    assert [t][1..] == [];
    assert Render([t]) == Put(t, Render([]));
  }

  lemma LinkLeavesNothingOpen(url: string)
    requires Capturable(url)
    ensures !LeavesOpen(Bare(url)) && EndsClosed(Bare(url))
  {
    hide LinkAt, Put;
    PieceIs(false, "", url);
    LinkAtIsThePattern(Bare(url), Link(false, "", url), "");
  }

  /** A link to `key` in front of a text is rewritten on its own. */
  lemma FirstPass(key: string, x: string, m: map<string, string>)
    requires Reachable(key) && key in m
    ensures Rewrite(OneLink(LinkTo(key)) + x, m) == Bare(m[key]) + Rewrite(x, m)
  {
    hide Rewrite, LeavesOpen, Render;
    OneLinkRewritten(key, m);
    var link := LinkTo(key);
    OneLinkIsPiece(false, "", link.url);
    OneLinkIsPiece(false, "", m[key]);
    LinkLeavesNothingOpen(link.url);
    RewriteApart(OneLink(link), x, m);
  }

  /** A target that leaves a bracket open is undone by what may follow it. */
  lemma OpenIsNotIdempotent(m: map<string, string>, s: string)
    requires (forall k :: k in m ==> m[k] != k) && s in m && Reachable(s)
    requires Rewrite(Bare(m[s]), m) == Bare(m[s]) && LeavesOpen(Bare(m[s]))
    ensures !Idempotent(m)
  {
    hide Rewrite, LeavesOpen, Closer, Reachable, UrlFor;
    var keys := set k | k in m && Reachable(k);
    assert s in keys;
    var key := ShortestKey(keys);
    var url, piece := UrlFor(key, m[key]), Bare(m[s]);
    UrlForKey(key, m[key]);
    CloserIsKept(key, m[key], m);
    var body := OneLink(LinkTo(s)) + Closer(url);
    FirstPass(s, Closer(url), m);
    PieceIs(false, "", m[s]);
    var p, a, b := OpenBinds(piece, url, m);
    SecondPassDiffers(piece, url, m, p, a, b);
    assert Rewrite(Rewrite(body, m), m) != Rewrite(body, m);
  }

  lemma SameCloser(a: string, b: string, x: string, y: string)
    requires a + (['['] + (b + Closer(x))) == a + (['['] + (b + Closer(y)))
    ensures x == y
  {
    Cancel(a, ['['] + (b + Closer(x)), ['['] + (b + Closer(y)));
    Cancel(['['], b + Closer(x), b + Closer(y));
    Cancel(b, Closer(x), Closer(y));
    Cancel("](", x + ")", y + ")");
    assert x == (x + ")")[..|x|] && y == (y + ")")[..|y|];
  }

  lemma SecondPassDiffers(s: string, url: string, m: map<string, string>, p: string, a: string, b: string)
    requires Binds(s, url, m, p, a, b) && Rewrite(s, m) == s && NewUrl(url, m) != url
    ensures Rewrite(s + Closer(url), m) != s + Closer(url)
  {
    hide Rewrite, NewUrl, Closer;
    assert p == s[..|s| - 1 - |b|] == a;
    Assoc(a, ['['] + b, Closer(url));
    Assoc(['['], b, Closer(url));
    if Rewrite(s + Closer(url), m) == s + Closer(url) { SameCloser(a, b, NewUrl(url, m), url); }
  }

  /**
   * For every mapping without identities, which are the mappings the rewriter builds:
   * rewriting twice is rewriting once on all bodies if and only if, for each target alone,
   * the link it makes stands: scanning that one link again changes nothing and leaves no
   * bracket open.
   */
  lemma IdempotentExactly(m: map<string, string>)
    requires forall s :: s in m ==> m[s] != s
    ensures Idempotent(m) <==> AllStand(m)
  {
    hide Rewrite, LeavesOpen, Canonical, Tokenise, Trim;
    if AllStand(m) {
      forall body ensures Rewrite(Rewrite(body, m), m) == Rewrite(body, m) {
        TokeniseCanonical(body);
        RewriteAgain(Tokenise(body), m);
        RewriteIs(body, m);
      }
    }
    if Idempotent(m) {
      forall s | s in m && Reachable(s) ensures Stands(Bare(m[s]), m) {
        OneLinkRewritten(s, m);
        OneLinkIsPiece(false, "", m[s]);
        assert Rewrite(Rewrite(OneLink(LinkTo(s)), m), m) == Rewrite(OneLink(LinkTo(s)), m);
        if LeavesOpen(Bare(m[s])) { OpenIsNotIdempotent(m, s); }
      }
    }
  }

  lemma RewriteIs(body: string, m: map<string, string>)
    ensures Rewrite(body, m) == Render(Subst(Tokenise(body), m))
  {
  }

  /** A target whose part before its first `)` is mapped elsewhere does not stand. */
  lemma MappedPartDoesNotStand(p: string, w: string, m: map<string, string>)
    requires p != "" && ')' !in p && Trim(p) in m
    requires m[Trim(p)] == "" || m[Trim(p)][0] != p[0]
    ensures Rewrite(Bare(p + ([')'] + w)), m) != Bare(p + ([')'] + w))
  {
    hide Rewrite, LeavesOpen, Put, LinkAt, Trim;
    var url, q := p + ([')'] + w), m[Trim(p)];
    var v := w + ")";
    Assoc(p, [')'] + w, ")");
    Assoc([')'], w, ")");
    SplitAtFirst(p, ')', v);
    PieceAgain(false, "", url, m);
    PieceCaptured(false, "", url);
    var x, y := q + ([')'] + Rewrite(v, m)), p + ([')'] + v);
    assert x[0] != y[0] by { if q == "" { assert x[0] == ')'; } else { assert x[0] == q[0]; } assert y[0] == p[0]; }
    if Rewrite(Bare(url), m) == Bare(url) {
      Cancel(Front(false, ""), "](" + x, "](" + y);
      Cancel("](", x, y);
    }
  }

  /** Settled targets are not enough once a target contains `)`. */
  lemma SettledIsNotEnough()
    ensures var m := map["a" := "b)", "b" := "c"];
      TargetsSettled(m) && !GoodTargets(m) && !Idempotent(m)
  {
    var m := map["a" := "b)", "b" := "c"];
    hide Rewrite, Put, LinkAt, LeavesOpen, Trim;
    LettersAreTrimmed();
    assert "b)" == "b" + ([')'] + "");
    MappedPartDoesNotStand("b", "", m);
    IdempotentExactly(m);
    assert Reachable("a") && !Stands(Bare(m["a"]), m);
  }

  lemma LettersAreTrimmed()
    ensures Trim("b") == "b" && Trim("b)") == "b)" && Trim("c") == "c"
    ensures Reachable("a") && Reachable("b")
  {
    TrimOfTrimmed("b)");
    TrimOfTrimmed("c");
    TrimOfTrimmed("b");
  }
}
