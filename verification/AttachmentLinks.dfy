/** The attachment-link scanner and rewriter of src/sync/attachment-links.ts. */
module AttachmentLinks {
  import opened Text

  // ---------------------------------------------------------------------------
  // The link pattern (!?)\[([^\]]*)\]\(([^)]+)\) as a deterministic scanner
  // ---------------------------------------------------------------------------

  datatype Token = Ch(c: char) | Link(bang: bool, alt: string, url: string)

  datatype Close = Open | Close(alt: string, url: string, rest: string)

  datatype Match = NoMatch | Match(link: Token, rest: string)

  /** A URL that the pattern can capture. */
  predicate Capturable(url: string) {
    url != "" && ')' !in url
  }

  predicate GoodToken(t: Token) {
    t.Link? ==> ']' !in t.alt && Capturable(t.url)
  }

  /** The text of a link after its opening bracket, followed by `rest`. */
  function LinkText(alt: string, url: string, rest: string): string {
    alt + ([']'] + (['('] + (url + ([')'] + rest))))
  }

  /** The text of a token, followed by `rest`. */
  function Put(t: Token, rest: string): (s: string)
    ensures |s| > |rest|
  {
    match t
    case Ch(c) => [c] + rest
    case Link(bang, alt, url) =>
      var link := ['['] + LinkText(alt, url, rest);
      if bang then ['!'] + link else link
  }

  function Render(ts: seq<Token>): string {
    if ts == [] then "" else Put(ts[0], Render(ts[1..]))
  }

  /** After `](`: a non-empty stretch free of `)`, then `)`. */
  function UrlPart(r: string): Split {
    match SplitAt(r, ')')
    case Absent => Absent
    case Split(url, rest) => if url == "" then Absent else Split(url, rest)
  }

  /** Having read `[`: the rest of the link, if there is one. */
  function Closing(r: string): Close {
    match SplitAt(r, ']')
    case Absent => Open
    case Split(alt, r1) =>
      if r1 == "" || r1[0] != '(' then Open
      else match UrlPart(r1[1..])
        case Absent => Open
        case Split(url, rest) => Close(alt, url, rest)
  }

  lemma ClosingIsText(r: string)
    requires Closing(r).Close?
    ensures var Close(alt, url, rest) := Closing(r);
      r == LinkText(alt, url, rest) && ']' !in alt && Capturable(url)
  {
    hide SplitAt;
    var Split(alt, r1) := SplitAt(r, ']');
    assert r1 == ['('] + r1[1..];
    UrlPartIsText(r1[1..]);
  }

  lemma UrlPartIsText(r: string)
    requires UrlPart(r).Split?
    ensures var Split(url, rest) := UrlPart(r);
      r == url + ([')'] + rest) && Capturable(url)
  {
    hide SplitAt;
  }

  lemma ClosingOfText(alt: string, url: string, rest: string)
    requires ']' !in alt && Capturable(url)
    ensures Closing(LinkText(alt, url, rest)) == Close(alt, url, rest)
  {
    var r2 := url + ([')'] + rest);
    var r1 := ['('] + r2;
    SplitAtFirst(alt, ']', r1);
    assert r1[1..] == r2;
    SplitAtFirst(url, ')', rest);
  }

  /** A link whose `[` has been read. */
  function Bracketed(bang: bool, r: string): (m: Match)
    ensures m.Match? ==> m.link.Link? && m.link.bang == bang && GoodToken(m.link)
                         && r == LinkText(m.link.alt, m.link.url, m.rest)
  {
    match Closing(r)
    case Open => NoMatch
    case Close(alt, url, rest) => ClosingIsText(r); Match(Link(bang, alt, url), rest)
  }

  /** The pattern tried at the start of `s`. */
  function LinkAt(s: string): (m: Match)
    ensures m.Match? ==> GoodToken(m.link) && m.link.Link? && s == Put(m.link, m.rest)
  {
    if s == "" then NoMatch
    else if s[0] == '[' then
      assert s == ['['] + s[1..];
      Bracketed(false, s[1..])
    else if s[0] == '!' && |s| > 1 && s[1] == '[' then
      assert s == ['!'] + (['['] + s[2..]);
      Bracketed(true, s[2..])
    else NoMatch
  }

  lemma LinkAtFinds(t: Token, rest: string)
    requires t.Link? && GoodToken(t)
    ensures LinkAt(Put(t, rest)) == Match(t, rest)
  {
    hide LinkText, Closing;
    var text := LinkText(t.alt, t.url, rest);
    ClosingOfText(t.alt, t.url, rest);
    if t.bang {
      assert (['!'] + (['['] + text))[2..] == text;
    } else {
      assert (['['] + text)[1..] == text;
    }
  }

  /** `LinkAt` is the regular expression: it answers exactly the link the text starts with. */
  lemma LinkAtIsThePattern(s: string, t: Token, rest: string)
    ensures LinkAt(s) == Match(t, rest) <==> t.Link? && GoodToken(t) && s == Put(t, rest)
  {
    if t.Link? && GoodToken(t) && s == Put(t, rest) { LinkAtFinds(t, rest); }
  }

  /** Leftmost-match scanning of a whole body: links, and single characters between them. */
  function Tokenise(s: string): seq<Token>
    decreases |s|
  {
    if s == "" then []
    else match LinkAt(s)
      case NoMatch => [Ch(s[0])] + Tokenise(s[1..])
      case Match(link, rest) => [link] + Tokenise(rest)
  }

  lemma {:induction false} RenderTokenise(s: string)
    ensures Render(Tokenise(s)) == s
    decreases |s|
  {
    if s != "" {
      match LinkAt(s)
      case NoMatch => RenderTokenise(s[1..]);
      case Match(link, rest) => RenderTokenise(rest);
    }
  }

  /** A token list that scanning can produce: no character starts a link. */
  predicate Canonical(ts: seq<Token>) {
    ts != [] ==>
      && GoodToken(ts[0]) && Canonical(ts[1..])
      && (ts[0].Ch? ==> LinkAt(Render(ts)).NoMatch?)
  }

  lemma {:induction false} TokeniseCanonical(s: string)
    ensures Canonical(Tokenise(s))
    decreases |s|
  {
    if s != "" {
      RenderTokenise(s);
      match LinkAt(s)
      case NoMatch => TokeniseCanonical(s[1..]);
      case Match(link, rest) => TokeniseCanonical(rest);
    }
  }

  lemma {:induction false} TokeniseRender(ts: seq<Token>)
    requires Canonical(ts)
    ensures Tokenise(Render(ts)) == ts
  {
    if ts != [] {
      TokeniseRender(ts[1..]);
      if ts[0].Ch? {
        assert Render(ts)[1..] == Render(ts[1..]);
      } else {
        LinkAtFinds(ts[0], Render(ts[1..]));
      }
    }
  }

  // ---------------------------------------------------------------------------
  // Rewriting
  // ---------------------------------------------------------------------------

  function SubstToken(t: Token, m: map<string, string>): Token {
    if t.Link? && Trim(t.url) in m then t.(url := m[Trim(t.url)]) else t
  }

  function Subst(ts: seq<Token>, m: map<string, string>): (r: seq<Token>)
    ensures |r| == |ts|
    ensures forall i :: 0 <= i < |ts| ==> r[i] == SubstToken(ts[i], m)
  {
    if ts == [] then [] else [SubstToken(ts[0], m)] + Subst(ts[1..], m)
  }

  /** `body.replace` with the replacement callback of the rewriter. */
  function Rewrite(body: string, m: map<string, string>): string {
    Render(Subst(Tokenise(body), m))
  }

  /** The URLs a trimmed link URL can be equal to; only these keys of a mapping are ever looked up. */
  predicate Reachable(url: string) {
    ')' !in url && Trimmed(url)
  }

  predicate GoodTargets(m: map<string, string>) {
    forall s :: s in m && Reachable(s) ==> Capturable(m[s])
  }

  lemma {:induction false} LinkHasParen(ts: seq<Token>, i: nat)
    requires i < |ts| && ts[i].Link?
    ensures ')' in Render(ts)
  {
    if i > 0 { LinkHasParen(ts[1..], i - 1); }
  }

  lemma UrlPartStable(ts: seq<Token>, m: map<string, string>)
    requires UrlPart(Render(ts)).Absent?
    ensures UrlPart(Render(Subst(ts, m))).Absent?
  {
    if ')' !in Render(ts) {
      forall i | 0 <= i < |ts| ensures ts[i].Ch? {
        if ts[i].Link? { LinkHasParen(ts, i); }
      }
      assert Subst(ts, m) == ts;
    } else {
      assert Render(ts)[0] == ')';
      assert ts[0] == Ch(')');
      assert Render(Subst(ts, m))[0] == ')';
    }
  }

  lemma ClosingSkip(c: char, r: string)
    requires c != ']'
    ensures Closing([c] + r).Open? <==> Closing(r).Open?
  {
    assert ([c] + r)[1..] == r;
  }

  lemma ClosingOfLink(t: Token, rest: string)
    requires t.Link? && GoodToken(t)
    ensures Closing(Put(t, rest)).Close?
  {
    var text := LinkText(t.alt, t.url, rest);
    ClosingOfText(t.alt, t.url, rest);
    ClosingSkip('[', text);
    ClosingSkip('!', ['['] + text);
  }

  lemma ClosingOfBracket(r: string)
    ensures Closing([']'] + r).Open? <==> r == "" || r[0] != '(' || UrlPart(r[1..]).Absent?
  {
    assert ([']'] + r)[1..] == r;
  }

  predicate GoodTokens(ts: seq<Token>) {
    ts != [] ==> GoodToken(ts[0]) && GoodTokens(ts[1..])
  }

  /** A `[` that opens no link still opens none once link URLs are replaced. */
  lemma {:induction false} ClosingStable(ts: seq<Token>, m: map<string, string>)
    requires GoodTokens(ts) && Closing(Render(ts)).Open?
    ensures Closing(Render(Subst(ts, m))).Open?
  {
    if ts != [] {
      var next := Subst(ts[1..], m);
      match ts[0]
      case Link(_, _, _) => ClosingOfLink(ts[0], Render(ts[1..]));
      case Ch(c) =>
        if c != ']' {
          ClosingSkip(c, Render(ts[1..]));
          ClosingStable(ts[1..], m);
          ClosingSkip(c, Render(next));
        } else {
          BracketStable(ts[1..], m);
        }
    }
  }

  lemma FirstOf(t: Token, rest: string)
    ensures Put(t, rest)[0] == match t case Ch(c) => c case Link(bang, _, _) => if bang then '!' else '['
  {
  }

  lemma BracketStable(ts: seq<Token>, m: map<string, string>)
    requires Closing([']'] + Render(ts)).Open?
    ensures Closing([']'] + Render(Subst(ts, m))).Open?
  {
    var ts' := Subst(ts, m);
    ClosingOfBracket(Render(ts));
    ClosingOfBracket(Render(ts'));
    if ts != [] {
      assert ts'[1..] == Subst(ts[1..], m);
      if ts[0] == Ch('(') {
        assert Render(ts)[1..] == Render(ts[1..]);
        assert Render(ts')[1..] == Render(ts'[1..]);
        UrlPartStable(ts[1..], m);
      } else {
        FirstOf(ts'[0], Render(ts'[1..]));
      }
    }
  }

  lemma {:induction false} CanonicalGood(ts: seq<Token>)
    requires Canonical(ts)
    ensures GoodTokens(ts)
  {
    if ts != [] { CanonicalGood(ts[1..]); }
  }

  lemma LinkAtStart(c: char, r: string)
    ensures LinkAt([c] + r).NoMatch? <==>
            && (c == '[' ==> Closing(r).Open?)
            && (c == '!' && r != "" && r[0] == '[' ==> Closing(r[1..]).Open?)
  {
    var s := [c] + r;
    assert s[1..] == r;
    if r != "" { assert s[2..] == r[1..]; }
  }

  /** A character that starts no link still starts none once link URLs are replaced. */
  lemma CharStable(c: char, ts: seq<Token>, m: map<string, string>)
    requires GoodTokens(ts) && LinkAt([c] + Render(ts)).NoMatch?
    ensures LinkAt([c] + Render(Subst(ts, m))).NoMatch?
  {
    LinkAtStart(c, Render(ts));
    LinkAtStart(c, Render(Subst(ts, m)));
    if c == '[' {
      ClosingStable(ts, m);
    } else if c == '!' && ts != [] {
      BangStable(ts, m);
    }
  }

  lemma BangStable(ts: seq<Token>, m: map<string, string>)
    requires ts != [] && GoodTokens(ts)
    requires Render(ts)[0] == '[' ==> Closing(Render(ts)[1..]).Open?
    ensures Render(Subst(ts, m)) != ""
    ensures Render(Subst(ts, m))[0] == '[' ==> Closing(Render(Subst(ts, m))[1..]).Open?
  {
    var ts' := Subst(ts, m);
    assert ts'[1..] == Subst(ts[1..], m);
    FirstOf(ts[0], Render(ts[1..]));
    FirstOf(ts'[0], Render(ts'[1..]));
    match ts[0]
    case Ch(c) =>
      assert Render(ts)[1..] == Render(ts[1..]) && Render(ts')[1..] == Render(ts'[1..]);
      if c == '[' { ClosingStable(ts[1..], m); }
    case Link(bang, alt, url) =>
      if !bang {
        assert Render(ts)[1..] == LinkText(alt, url, Render(ts[1..]));
        ClosingOfText(alt, url, Render(ts[1..]));
      }
  }

  lemma {:induction false} SubstCanonical(ts: seq<Token>, m: map<string, string>)
    requires Canonical(ts) && GoodTargets(m)
    ensures Canonical(Subst(ts, m))
  {
    if ts != [] {
      SubstCanonical(ts[1..], m);
      CanonicalGood(ts[1..]);
      assert Subst(ts, m)[1..] == Subst(ts[1..], m);
      if ts[0].Ch? { CharStable(ts[0].c, ts[1..], m); } else { TrimIsTrimmed(ts[0].url); }
    }
  }

  /**
   * With capturable targets, rewriting changes link URLs and nothing else: the
   * rewritten body scans to the same tokens, in the same places, with only the
   * mapped URLs replaced.
   */
  lemma RewritePreservesTokens(body: string, m: map<string, string>)
    requires GoodTargets(m)
    ensures Tokenise(Rewrite(body, m)) == Subst(Tokenise(body), m)
  {
    TokeniseCanonical(body);
    SubstCanonical(Tokenise(body), m);
    TokeniseRender(Subst(Tokenise(body), m));
  }

  /** Token by token: characters and links to other URLs stay, and a mapped link changes its URL only. */
  lemma OnlyUrlsChange(body: string, m: map<string, string>)
    requires GoodTargets(m)
    ensures var before, after := Tokenise(body), Tokenise(Rewrite(body, m));
      && |after| == |before|
      && forall i :: 0 <= i < |before| ==>
           match before[i]
           case Ch(_) => after[i] == before[i]
           case Link(bang, alt, url) =>
             after[i] == if Trim(url) in m then Link(bang, alt, m[Trim(url)]) else before[i]
  {
    hide Tokenise, Rewrite, Trim;
    RewritePreservesTokens(body, m);
  }

  // A body of one link whose trimmed URL is `key`.

  function LinkTo(key: string): Token {
    Link(false, "", if key == "" then " " else key)
  }

  function OneLink(t: Token): string {
    Render([t])
  }

  lemma OneLinkRewritten(key: string, m: map<string, string>)
    requires Reachable(key) && key in m
    ensures Tokenise(OneLink(LinkTo(key))) == [LinkTo(key)]
    ensures Subst([LinkTo(key)], m) == [Link(false, "", m[key])]
    ensures Rewrite(OneLink(LinkTo(key)), m) == OneLink(Link(false, "", m[key]))
  {
    hide LinkAt, Put;
    TokeniseRender([LinkTo(key)]);
    TrimOfTrimmed(key);
    assert " "[1..] == "";
    assert Trim(LinkTo(key).url) == key;
    assert Subst([LinkTo(key)], m) == [Link(false, "", m[key])];
  }

  ghost predicate PreservesTokens(m: map<string, string>) {
    forall body :: Tokenise(Rewrite(body, m)) == Subst(Tokenise(body), m)
  }

  /** Token preservation on all bodies is exactly the condition on the targets. */
  lemma PreservesTokensExactly(m: map<string, string>)
    ensures PreservesTokens(m) <==> GoodTargets(m)
  {
    if GoodTargets(m) {
      forall body ensures Tokenise(Rewrite(body, m)) == Subst(Tokenise(body), m) {
        RewritePreservesTokens(body, m);
      }
    }
    if PreservesTokens(m) {
      forall s | s in m && Reachable(s) ensures Capturable(m[s]) {
        var body := OneLink(LinkTo(s));
        OneLinkRewritten(s, m);
        assert Tokenise(Rewrite(body, m)) == [Link(false, "", m[s])];
        TokeniseCanonical(Rewrite(body, m));
      }
    }
  }

  ghost predicate Idempotent(m: map<string, string>) {
    forall body :: Rewrite(Rewrite(body, m), m) == Rewrite(body, m)
  }

  /** No target is itself mapped to something else. */
  predicate TargetsSettled(m: map<string, string>) {
    forall s :: s in m && Reachable(s) && Trim(m[s]) in m ==> m[Trim(m[s])] == m[s]
  }

  lemma OneLinkInjective(a: string, b: string)
    requires Capturable(a) && Capturable(b)
    requires OneLink(Link(false, "", a)) == OneLink(Link(false, "", b))
    ensures a == b
  {
    TokeniseRender([Link(false, "", a)]);
    TokeniseRender([Link(false, "", b)]);
  }

  /** For capturable targets: rewriting twice is rewriting once, on every body, exactly when they are settled. */
  lemma SettledExactly(m: map<string, string>)
    requires GoodTargets(m)
    ensures Idempotent(m) <==> TargetsSettled(m)
  {
    if TargetsSettled(m) {
      forall body ensures Rewrite(Rewrite(body, m), m) == Rewrite(body, m) {
        RewritePreservesTokens(body, m);
        TokeniseCanonical(body);
        CanonicalGood(Tokenise(body));
        SubstTwice(Tokenise(body), m);
      }
    }
    if Idempotent(m) {
      forall s | s in m && Reachable(s) && Trim(m[s]) in m ensures m[Trim(m[s])] == m[s] {
        OneLinkRewritten(s, m);
        var once := Link(false, "", m[s]);
        TokeniseRender([once]);
        assert Subst([once], m) == [Link(false, "", m[Trim(m[s])])];
        assert Rewrite(Rewrite(OneLink(LinkTo(s)), m), m) == OneLink(Link(false, "", m[Trim(m[s])]));
        TrimIsTrimmed(m[s]);
        OneLinkInjective(m[Trim(m[s])], m[s]);
      }
    }
  }

  lemma {:induction false} SubstTwice(ts: seq<Token>, m: map<string, string>)
    requires GoodTokens(ts) && TargetsSettled(m)
    ensures Subst(Subst(ts, m), m) == Subst(ts, m)
  {
    if ts != [] {
      assert Subst(ts, m)[1..] == Subst(ts[1..], m);
      SubstTwice(ts[1..], m);
      if ts[0].Link? { TrimIsTrimmed(ts[0].url); }
    }
  }

  // ---------------------------------------------------------------------------
  // Undoing a rewrite
  // ---------------------------------------------------------------------------

  ghost predicate Injective(m: map<string, string>) {
    forall s, t :: s in m && t in m && m[s] == m[t] ==> s == t
  }

  ghost function SourceOf(m: map<string, string>, t: string): (s: string)
    requires t in m.Values
    ensures s in m && m[s] == t
  {
    var s :| s in m && m[s] == t; s
  }

  ghost function Inverse(m: map<string, string>): (r: map<string, string>)
    requires Injective(m)
    ensures r.Keys == m.Values
    ensures forall s :: s in m ==> m[s] in r && r[m[s]] == s
  {
    map t | t in m.Values :: SourceOf(m, t)
  }

  /** The mapped link URLs carry no white space and no other link points at a target. */
  ghost predicate Undoable(t: Token, m: map<string, string>) {
    t.Link? ==> if Trim(t.url) in m then Trimmed(t.url) else Trim(t.url) !in m.Values
  }

  /** Rewriting with a mapping and then with its inverse restores the body. */
  lemma RewriteRoundTrip(body: string, m: map<string, string>)
    requires Injective(m)
    requires forall s :: s in m ==> Capturable(m[s]) && Trimmed(m[s])
    requires forall t :: t in Tokenise(body) ==> Undoable(t, m)
    ensures Rewrite(Rewrite(body, m), Inverse(m)) == body
  {
    var ts := Tokenise(body);
    RewritePreservesTokens(body, m);
    var back := Subst(Subst(ts, m), Inverse(m));
    forall i | 0 <= i < |ts| ensures back[i] == ts[i] {
      var t := ts[i];
      assert t in ts && Undoable(t, m);
      if t.Link? && Trim(t.url) in m {
        TrimOfTrimmed(t.url);
        TrimOfTrimmed(m[t.url]);
      }
    }
    assert back == ts;
    RenderTokenise(body);
  }

  // ---------------------------------------------------------------------------
  // Building the mapping, and the rewriting loop
  // ---------------------------------------------------------------------------

  datatype Mapping = Mapping(sourceUrl: string, targetUrl: string)

  function UrlMap(ms: seq<Mapping>): (m: map<string, string>)
    ensures forall s :: s in m <==>
      exists i :: 0 <= i < |ms| && ms[i].sourceUrl == s && ms[i].targetUrl != s
    ensures forall s :: s in m ==> Mapping(s, m[s]) in ms && m[s] != s
  {
    if ms == [] then map[]
    else
      var before, last := UrlMap(ms[..|ms| - 1]), ms[|ms| - 1];
      if last.sourceUrl != last.targetUrl then before[last.sourceUrl := last.targetUrl] else before
  }

  /** Of the mappings of a URL that are no identities, the last one wins. */
  lemma {:induction false} LastMappingWins(ms: seq<Mapping>, i: nat)
    requires i < |ms| && ms[i].targetUrl != ms[i].sourceUrl
    requires forall j :: i < j < |ms| && ms[j].sourceUrl == ms[i].sourceUrl ==> ms[j].targetUrl == ms[j].sourceUrl
    ensures ms[i].sourceUrl in UrlMap(ms) && UrlMap(ms)[ms[i].sourceUrl] == ms[i].targetUrl
  {
    if i < |ms| - 1 { LastMappingWins(ms[..|ms| - 1], i); }
  }

  lemma RewriteNothing(body: string)
    ensures Rewrite(body, map[]) == body
  {
    RenderTokenise(body);
    assert Subst(Tokenise(body), map[]) == Tokenise(body);
  }

  method BuildUrlMap(mappings: seq<Mapping>) returns (urlMap: map<string, string>)
    ensures urlMap == UrlMap(mappings)
  {
    urlMap := map[];
    for i := 0 to |mappings|
      invariant urlMap == UrlMap(mappings[..i])
    {
      assert mappings[..i + 1][..i] == mappings[..i];
      if mappings[i].sourceUrl != mappings[i].targetUrl {
        urlMap := urlMap[mappings[i].sourceUrl := mappings[i].targetUrl];
      }
    }
    assert mappings[..|mappings|] == mappings;
  }

  method ReplaceLinks(body: string, urlMap: map<string, string>) returns (r: string)
    ensures r == Rewrite(body, urlMap)
  {
    hide Rewrite;
    r := "";
    var rest := body;
    while rest != ""
      invariant Rewrite(body, urlMap) == r + Rewrite(rest, urlMap)
      decreases |rest|
    {
      var piece, more := NextPiece(rest, urlMap);
      Assoc(r, piece, Rewrite(more, urlMap));
      r, rest := r + piece, more;
    }
    RewriteStep("", urlMap);
  }

  /** One match of the replacing pattern, or one character it passes over. */
  method NextPiece(s: string, urlMap: map<string, string>) returns (piece: string, more: string)
    requires s != ""
    ensures |more| < |s| && Rewrite(s, urlMap) == piece + Rewrite(more, urlMap)
  {
    hide LinkAt, Put, Rewrite, Trim, SubstToken;
    RewriteStep(s, urlMap);
    match LinkAt(s) {
      case NoMatch => return [s[0]], s[1..];
      case Match(link, after) => return Put(SubstToken(link, urlMap), ""), after;
    }
  }

  method RewriteAttachmentLinks(body: string, mappings: seq<Mapping>) returns (r: string)
    ensures r == Rewrite(body, UrlMap(mappings))
  {
    RewriteNothing(body);
    if |mappings| == 0 { return body; }
    var urlMap := BuildUrlMap(mappings);
    if |urlMap| == 0 { return body; }
    r := ReplaceLinks(body, urlMap);
  }

  lemma RewriteStep(s: string, m: map<string, string>)
    ensures Rewrite(s, m) ==
      if s == "" then "" else match LinkAt(s)
        case NoMatch => [s[0]] + Rewrite(s[1..], m)
        case Match(link, after) => Put(SubstToken(link, m), "") + Rewrite(after, m)
  {
    hide LinkAt, Put, Trim;
    if s != "" {
      var ts := Tokenise(s);
      assert Subst(ts, m)[1..] == Subst(ts[1..], m);
      PutThen(SubstToken(ts[0], m), Render(Subst(ts[1..], m)));
      match LinkAt(s) case NoMatch => PutChar(s[0]); case Match(_, _) =>
    }
  }

  lemma PutChar(c: char)
    ensures Put(Ch(c), "") == [c]
  {
  }

  lemma Assoc(a: string, b: string, c: string)
    ensures a + (b + c) == (a + b) + c
  {
  }

  lemma LinkTextThen(alt: string, url: string, rest: string)
    ensures LinkText(alt, url, rest) == LinkText(alt, url, "") + rest
  {
    var a := [')'] + "";
    assert [')'] + rest == a + rest;
    Assoc(url, a, rest);
    Assoc(['('], url + a, rest);
    Assoc([']'], ['('] + (url + a), rest);
    Assoc(alt, [']'] + (['('] + (url + a)), rest);
  }

  lemma PutThen(t: Token, rest: string)
    ensures Put(t, rest) == Put(t, "") + rest
  {
    hide LinkText;
    match t
    case Ch(c) =>
    case Link(bang, alt, url) =>
      LinkTextThen(alt, url, rest);
      var text := LinkText(alt, url, "");
      Assoc(['['], text, rest);
      Assoc(['!'], ['['] + text, rest);
  }
}
