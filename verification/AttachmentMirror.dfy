/**
 * Extraction of attachment links (src/sync/attachment-links.ts) and the body-level
 * mirrors built on it (src/sync/attachments.ts). The upload itself is an oracle that
 * answers a target URL, or nothing, for the n-th link of a body.
 */
module AttachmentMirror {
  import opened Options
  import opened Text
  import opened AttachmentLinks

  datatype Origin = GitLab | Huly

  datatype AttachmentLink = AttachmentLink(
    markdownIndex: nat, sourceUrl: string, alt: string, filename: string, image: bool, origin: Origin)

  /** How a source URL is made absolute before it is fetched. */
  datatype Resolver = AsIs | GitLabUpload(baseUrl: string, projectPath: string)

  /** What reading a link depends on: the base URL, if given, and `decodeURIComponent`, which may throw. */
  datatype Reader = Reader(baseUrl: Option<string>, decode: string -> Option<string>)

  type Oracle = (nat, string) -> Option<string>

  predicate IsHex(c: char) {
    '0' <= c <= '9' || 'a' <= c <= 'f' || 'A' <= c <= 'F'
  }

  function Lower(c: char): char {
    if 'A' <= c <= 'Z' then c - 'A' + 'a' else c
  }

  function LowerAll(s: string): string {
    seq(|s|, i requires 0 <= i < |s| => Lower(s[i]))
  }

  /** One or more hexadecimal digits, then a slash. */
  predicate HexThenSlash(s: string) {
    |s| > 1 && IsHex(s[0]) && (s[1] == '/' || HexThenSlash(s[1..]))
  }

  /** The pattern \/uploads\/[a-f0-9]+\/ with the ignore-case flag, found anywhere. */
  predicate HasUploadPath(s: string) {
    |s| >= 9 && ((LowerAll(s[..9]) == "/uploads/" && HexThenSlash(s[9..])) || HasUploadPath(s[1..]))
  }

  function StripSlash(s: string): string {
    if s != "" && s[|s| - 1] == '/' then s[..|s| - 1] else s
  }

  function OriginOf(url: string, baseUrl: Option<string>): Option<Origin> {
    if StartsWith(url, "attachments://") then Some(Huly)
    else if StartsWith(url, "/uploads/")
         || (HasUploadPath(url) && (baseUrl.None? || StartsWith(url, StripSlash(baseUrl.value))))
    then Some(GitLab)
    else None
  }

  /** The part behind the last slash. */
  function LastSegment(s: string): (r: string)
    ensures '/' !in r && |r| <= |s| && s[|s| - |r|..] == r
    ensures |r| < |s| ==> s[|s| - |r| - 1] == '/'
  {
    if s == "" || s[|s| - 1] == '/' then ""
    else
      assert s == s[..|s| - 1] + [s[|s| - 1]];
      LastSegment(s[..|s| - 1]) + [s[|s| - 1]]
  }

  /** `extractFilename`: of the decoded URL without its query, or of the URL as it is when decoding throws. */
  function FileName(url: string, decode: string -> Option<string>): (r: string)
    ensures '/' !in r
    ensures decode(url).None? ==> r == LastSegment(url)
    ensures decode(url).Some? ==>
      var segment := LastSegment(decode(url).value);
      '?' !in r && r <= segment && (r == segment || segment[|r|] == '?')
  {
    match decode(url)
    case None => LastSegment(url)
    case Some(decoded) =>
      var last := LastSegment(decoded);
      match SplitAt(last, '?')
      case Absent => last
      case Split(before, after) => assert last[..|before|] == before; before
  }

  // ---------------------------------------------------------------------------
  // Which URLs belong to which side, in terms of their text
  // ---------------------------------------------------------------------------

  /** The letters of /uploads/ in either case. */
  const UPLOADS: seq<string> := ["/", "uU", "pP", "lL", "oO", "aA", "dD", "sS", "/"]

  const HEX: string := "0123456789abcdefABCDEF"

  /** At position i: /uploads/ in any case, n hexadecimal digits, and a slash. */
  ghost predicate UploadPathAt(u: string, i: nat, n: nat) {
    && n >= 1 && i + 9 + n < |u| && u[i + 9 + n] == '/'
    && (forall k :: 0 <= k < 9 ==> u[i + k] in UPLOADS[k])
    && forall k :: i + 9 <= k < i + 9 + n ==> u[k] in HEX
  }

  /** It begins with the base URL less one trailing slash. */
  ghost predicate UnderBase(u: string, base: string) {
    exists b :: b <= u && (base == b + "/" || (base == b && (b == "" || b[|b| - 1] != '/')))
  }

  /** A relative upload path, or an absolute one of the instance. */
  ghost predicate IsGitLabUrl(u: string, baseUrl: Option<string>) {
    && !("attachments://" <= u)
    && ("/uploads/" <= u
        || ((exists i: nat, n: nat :: UploadPathAt(u, i, n)) && (baseUrl.None? || UnderBase(u, baseUrl.value))))
  }

  lemma HexChar(c: char)
    ensures IsHex(c) <==> c in HEX
  {
    if '0' <= c <= '9' { assert HEX[c as int - '0' as int] == c; }
    if 'a' <= c <= 'f' { assert HEX[10 + c as int - 'a' as int] == c; }
    if 'A' <= c <= 'F' { assert HEX[16 + c as int - 'A' as int] == c; }
  }

  lemma UploadsChar(c: char, k: nat)
    requires k < 9
    ensures Lower(c) == "/uploads/"[k] <==> c in UPLOADS[k]
  {
    LowerOf(c);
  }

  lemma LowerOf(c: char)
    ensures Lower(c) == '/' <==> c in "/"
    ensures Lower(c) == 'u' <==> c in "uU"
    ensures Lower(c) == 'p' <==> c in "pP"
    ensures Lower(c) == 'l' <==> c in "lL"
    ensures Lower(c) == 'o' <==> c in "oO"
    ensures Lower(c) == 'a' <==> c in "aA"
    ensures Lower(c) == 'd' <==> c in "dD"
    ensures Lower(c) == 's' <==> c in "sS"
  {
  }

  ghost predicate HexRun(s: string, n: nat) {
    n >= 1 && n < |s| && s[n] == '/' && forall k :: 0 <= k < n ==> s[k] in HEX
  }

  lemma HexRunOne(s: string)
    requires |s| > 1
    ensures HexRun(s, 1) <==> s[0] in HEX && s[1] == '/'
  {
  }

  lemma HexRunMore(s: string, n: nat)
    requires |s| > 1 && n >= 1
    ensures HexRun(s, n + 1) <==> s[0] in HEX && HexRun(s[1..], n)
  {
    if HexRun(s[1..], n) {
      forall k | 1 <= k < n + 1 ensures s[k] in HEX { assert s[1..][k - 1] == s[k]; }
    }
  }

  lemma HexRunStarts(s: string, n: nat)
    requires HexRun(s, n)
    ensures n >= 1 && |s| > 1 && s[0] in HEX
  {
  }

  lemma {:induction false} HexThenSlashExactly(s: string)
    ensures HexThenSlash(s) <==> exists n: nat :: HexRun(s, n)
  {
    hide IsHex, HexRun;
    if |s| > 1 {
      HexChar(s[0]);
      HexThenSlashExactly(s[1..]);
      HexRunOne(s);
      if n: nat :| s[0] in HEX && HexRun(s[1..], n) {
        HexRunStarts(s[1..], n);
        HexRunMore(s, n);
      }
      if n: nat :| HexRun(s, n) {
        HexRunStarts(s, n);
        if n > 1 { HexRunMore(s, n - 1); }
      }
    } else {
      forall n: nat ensures !HexRun(s, n) {
        if HexRun(s, n) { HexRunStarts(s, n); }
      }
    }
  }

  lemma UploadsAhead(s: string)
    requires |s| >= 9
    ensures LowerAll(s[..9]) == "/uploads/" <==> forall k :: 0 <= k < 9 ==> s[k] in UPLOADS[k]
  {
    hide Lower;
    forall k | 0 <= k < 9 ensures LowerAll(s[..9])[k] == "/uploads/"[k] <==> s[k] in UPLOADS[k] { UploadsChar(s[k], k); }
    if forall k :: 0 <= k < 9 ==> s[k] in UPLOADS[k] {
      assert forall k :: 0 <= k < 9 ==> LowerAll(s[..9])[k] == "/uploads/"[k];
    } else {
      var k :| 0 <= k < 9 && s[k] !in UPLOADS[k];
      assert LowerAll(s[..9])[k] != "/uploads/"[k];
    }
  }

  lemma UploadPathHere(u: string, n: nat)
    requires |u| >= 9
    ensures UploadPathAt(u, 0, n) <==> (forall k :: 0 <= k < 9 ==> u[k] in UPLOADS[k]) && HexRun(u[9..], n)
  {
    if HexRun(u[9..], n) {
      forall k | 9 <= k < 9 + n ensures u[k] in HEX { assert u[9..][k - 9] == u[k]; }
    }
  }

  lemma UploadPathLater(u: string, i: nat, n: nat)
    requires u != ""
    ensures UploadPathAt(u, i + 1, n) <==> UploadPathAt(u[1..], i, n)
  {
    var v := u[1..];
    assert forall k :: 0 <= k < |v| ==> v[k] == u[k + 1];
    if UploadPathAt(v, i, n) {
      forall k | 0 <= k < 9 ensures u[i + 1 + k] in UPLOADS[k] { assert v[i + k] == u[i + 1 + k]; }
      forall k | i + 10 <= k < i + 10 + n ensures u[k] in HEX { assert v[k - 1] == u[k]; }
    }
    if UploadPathAt(u, i + 1, n) {
      forall k | 0 <= k < 9 ensures v[i + k] in UPLOADS[k] { assert v[i + k] == u[i + 1 + k]; }
    }
  }

  /** The absolute pattern is found exactly when it stands at some position. */
  lemma {:induction false} HasUploadPathExactly(u: string)
    ensures HasUploadPath(u) <==> exists i: nat, n: nat :: UploadPathAt(u, i, n)
  {
    hide LowerAll, HexThenSlash, HexRun, UploadPathAt;
    if |u| >= 9 {
      UploadsAhead(u);
      HexThenSlashExactly(u[9..]);
      HasUploadPathExactly(u[1..]);
      if n: nat :| HexRun(u[9..], n) { UploadPathHere(u, n); }
      if i: nat, n: nat :| UploadPathAt(u[1..], i, n) { UploadPathLater(u, i, n); }
      if i: nat, n: nat :| UploadPathAt(u, i, n) {
        if i == 0 { UploadPathHere(u, n); } else { UploadPathLater(u, i - 1, n); }
      }
    } else {
      forall i: nat, n: nat ensures !UploadPathAt(u, i, n) { TooShort(u, i, n); }
    }
  }

  lemma TooShort(u: string, i: nat, n: nat)
    requires |u| < 9
    ensures !UploadPathAt(u, i, n)
  {
  }

  lemma UnderBaseExactly(u: string, base: string)
    ensures UnderBase(u, base) <==> StartsWith(u, StripSlash(base))
  {
    var b := StripSlash(base);
    if base != b { assert base == b + "/"; }
    if c :| c <= u && (base == c + "/" || (base == c && (c == "" || c[|c| - 1] != '/'))) {
      assert c == b;
    }
  }

  /** The side of a URL, told from its text. */
  lemma OriginExactly(u: string, baseUrl: Option<string>)
    ensures OriginOf(u, baseUrl) == Some(Huly) <==> "attachments://" <= u
    ensures OriginOf(u, baseUrl) == Some(GitLab) <==> IsGitLabUrl(u, baseUrl)
  {
    hide HasUploadPath, UploadPathAt, UnderBase;
    HasUploadPathExactly(u);
    if baseUrl.Some? { UnderBaseExactly(u, baseUrl.value); }
  }

  /** What one scanned link contributes to the result. */
  function LinkResult(t: Token, idx: nat, rd: Reader): (r: seq<AttachmentLink>)
    requires t.Link?
    ensures |r| <= 1
  {
    match OriginOf(Trim(t.url), rd.baseUrl)
    case None => []
    case Some(origin) => [AttachmentLink(idx, Trim(t.url), t.alt, FileName(Trim(t.url), rd.decode), t.bang, origin)]
  }

  /** The attachment links of a token list whose first link has markdown index `idx`. */
  function Extracted(ts: seq<Token>, idx: nat, rd: Reader): seq<AttachmentLink> {
    if ts == [] then []
    else if ts[0].Ch? then Extracted(ts[1..], idx, rd)
    else LinkResult(ts[0], idx, rd) + Extracted(ts[1..], idx + 1, rd)
  }

  lemma ExtractedStep(s: string, idx: nat, rd: Reader)
    ensures Extracted(Tokenise(s), idx, rd) ==
      if s == "" then [] else match LinkAt(s)
        case NoMatch => Extracted(Tokenise(s[1..]), idx, rd)
        case Match(link, after) => LinkResult(link, idx, rd) + Extracted(Tokenise(after), idx + 1, rd)
  {
    if s != "" {
      match LinkAt(s)
      case NoMatch => assert Tokenise(s)[1..] == Tokenise(s[1..]);
      case Match(link, after) => assert Tokenise(s)[1..] == Tokenise(after);
    }
  }

  /** How many links there are among the tokens. */
  function LinkCount(ts: seq<Token>): nat {
    if ts == [] then 0 else LinkCount(ts[..|ts| - 1]) + if ts[|ts| - 1].Link? then 1 else 0
  }

  /** `l` stands for the link at token `p`: its index is the number of links before it, its side is told by its URL. */
  ghost predicate StandsFor(l: AttachmentLink, ts: seq<Token>, p: nat, rd: Reader) {
    && p < |ts| && ts[p].Link?
    && l.markdownIndex == LinkCount(ts[..p])
    && l.sourceUrl == Trim(ts[p].url) && l.alt == ts[p].alt && l.image == ts[p].bang
    && l.filename == FileName(Trim(ts[p].url), rd.decode)
    && if l.origin == Huly then "attachments://" <= Trim(ts[p].url) else IsGitLabUrl(Trim(ts[p].url), rd.baseUrl)
  }

  lemma {:induction false} LinkCountTail(ts: seq<Token>, p: nat)
    requires 0 < p <= |ts|
    ensures LinkCount(ts[..p]) == (if ts[0].Link? then 1 else 0) + LinkCount(ts[1..][..p - 1])
  {
    if p > 1 {
      LinkCountTail(ts, p - 1);
      assert ts[..p][..p - 1] == ts[..p - 1];
      assert ts[1..][..p - 1][..p - 2] == ts[1..][..p - 2];
    } else {
      assert ts[..1][..0] == [] && ts[1..][..0] == [];
    }
  }

  /** The links of a suffix of the scan, whose first link has index `idx`. */
  ghost predicate StandsFrom(l: AttachmentLink, ts: seq<Token>, p: nat, idx: nat, rd: Reader) {
    l.markdownIndex >= idx && StandsFor(l.(markdownIndex := l.markdownIndex - idx), ts, p, rd)
  }

  lemma StandsLater(l: AttachmentLink, ts: seq<Token>, p: nat, idx: nat, rd: Reader)
    requires 0 < p <= |ts|
    ensures StandsFrom(l, ts, p, idx, rd)
       <==> StandsFrom(l, ts[1..], p - 1, idx + if ts[0].Link? then 1 else 0, rd)
  {
    hide Trim, FileName, IsGitLabUrl;
    LinkCountTail(ts, p);
  }

  lemma StandsHere(l: AttachmentLink, ts: seq<Token>, idx: nat, rd: Reader)
    requires ts != [] && ts[0].Link?
    ensures StandsFrom(l, ts, 0, idx, rd) <==> l in LinkResult(ts[0], idx, rd)
  {
    hide Trim, FileName, IsGitLabUrl, OriginOf;
    OriginExactly(Trim(ts[0].url), rd.baseUrl);
    assert LinkCount(ts[..0]) == 0;
  }

  lemma {:induction false} ExtractedFrom(ts: seq<Token>, idx: nat, rd: Reader, l: AttachmentLink)
    ensures l in Extracted(ts, idx, rd) <==> exists p: nat :: StandsFrom(l, ts, p, idx, rd)
  {
    hide StandsFrom, LinkResult;
    if ts == [] {
      forall p: nat ensures !StandsFrom(l, ts, p, idx, rd) { StandsNowhere(l, p, idx, rd); }
    } else {
      var next := idx + if ts[0].Link? then 1 else 0;
      ExtractedFrom(ts[1..], next, rd, l);
      if ts[0].Link? { StandsHere(l, ts, idx, rd); } else { StandsNot(l, ts, idx, rd); }
      if p: nat :| StandsFrom(l, ts, p, idx, rd) && p > 0 {
        StandsInside(l, ts, p, idx, rd);
        StandsLater(l, ts, p, idx, rd);
      }
      if p: nat :| StandsFrom(l, ts[1..], p, next, rd) {
        StandsInside(l, ts[1..], p, next, rd);
        StandsLater(l, ts, p + 1, idx, rd);
      }
    }
  }

  lemma StandsInside(l: AttachmentLink, ts: seq<Token>, p: nat, idx: nat, rd: Reader)
    requires StandsFrom(l, ts, p, idx, rd)
    ensures p < |ts|
  {
  }

  lemma StandsNowhere(l: AttachmentLink, p: nat, idx: nat, rd: Reader)
    ensures !StandsFrom(l, [], p, idx, rd)
  {
  }

  lemma StandsNot(l: AttachmentLink, ts: seq<Token>, idx: nat, rd: Reader)
    requires ts != [] && !ts[0].Link?
    ensures !StandsFrom(l, ts, 0, idx, rd)
  {
  }

  /** The extracted links are exactly the links of the scan whose URL text is a GitLab or a Huly one. */
  lemma ExtractedExactly(body: string, rd: Reader, l: AttachmentLink)
    ensures l in Extracted(Tokenise(body), 0, rd) <==> exists p: nat :: StandsFor(l, Tokenise(body), p, rd)
  {
    hide Tokenise, Extracted, StandsFor;
    var ts := Tokenise(body);
    ExtractedFrom(ts, 0, rd, l);
    assert l.(markdownIndex := l.markdownIndex - 0) == l;
    forall p: nat ensures StandsFrom(l, ts, p, 0, rd) <==> StandsFor(l, ts, p, rd) { }
  }

  lemma ResultIndex(t: Token, idx: nat, rd: Reader)
    requires t.Link?
    ensures var r := LinkResult(t, idx, rd); |r| <= 1 && (r != [] ==> r[0].markdownIndex == idx)
  {
  }

  /** The indices increase, from `idx` on. */
  ghost predicate InOrder(links: seq<AttachmentLink>, idx: nat) {
    && (forall i :: 0 <= i < |links| ==> links[i].markdownIndex >= idx)
    && forall i, j :: 0 <= i < j < |links| ==> links[i].markdownIndex < links[j].markdownIndex
  }

  lemma InOrderCons(head: seq<AttachmentLink>, more: seq<AttachmentLink>, idx: nat)
    requires |head| <= 1 && (head != [] ==> head[0].markdownIndex == idx) && InOrder(more, idx + 1)
    ensures InOrder(head + more, idx)
  {
    assert forall i :: |head| <= i < |head + more| ==> (head + more)[i] == more[i - |head|];
  }

  /** They come in the order of the body. */
  lemma {:induction false} ExtractedInOrder(ts: seq<Token>, idx: nat, rd: Reader)
    ensures InOrder(Extracted(ts, idx, rd), idx)
  {
    hide LinkResult, InOrder;
    if ts == [] {
      InOrderNone(idx);
    } else if ts[0].Ch? {
      ExtractedInOrder(ts[1..], idx, rd);
    } else {
      ExtractedInOrder(ts[1..], idx + 1, rd);
      ResultIndex(ts[0], idx, rd);
      InOrderCons(LinkResult(ts[0], idx, rd), Extracted(ts[1..], idx + 1, rd), idx);
    }
  }

  lemma InOrderNone(idx: nat)
    ensures InOrder([], idx)
  {
  }

  method ExtractAttachmentLinks(body: string, rd: Reader) returns (results: seq<AttachmentLink>)
    ensures results == Extracted(Tokenise(body), 0, rd)
    ensures forall l :: l in results <==> exists p: nat :: StandsFor(l, Tokenise(body), p, rd)
    ensures InOrder(results, 0)
  {
    hide LinkAt, Tokenise, LinkResult, Extracted, StandsFor, InOrder;
    ExtractedInOrder(Tokenise(body), 0, rd);
    forall l ensures l in Extracted(Tokenise(body), 0, rd) <==> exists p: nat :: StandsFor(l, Tokenise(body), p, rd) {
      ExtractedExactly(body, rd, l);
    }
    results := [];
    var markdownIndex, rest := 0, body;
    while rest != ""
      invariant Extracted(Tokenise(body), 0, rd) == results + Extracted(Tokenise(rest), markdownIndex, rd)
      decreases |rest|
    {
      ExtractedStep(rest, markdownIndex, rd);
      match LinkAt(rest) {
        case NoMatch =>
          rest := rest[1..];
        case Match(link, after) =>
          results := results + LinkResult(link, markdownIndex, rd);
          markdownIndex, rest := markdownIndex + 1, after;
      }
    }
    ExtractedStep("", markdownIndex, rd);
  }

  function OfOrigin(links: seq<AttachmentLink>, origin: Origin): seq<AttachmentLink> {
    if links == [] then []
    else if links[0].origin == origin then [links[0]] + OfOrigin(links[1..], origin)
    else OfOrigin(links[1..], origin)
  }

  function Unmapped(links: seq<AttachmentLink>, m: map<string, string>): seq<AttachmentLink> {
    if links == [] then []
    else if links[0].sourceUrl in m then Unmapped(links[1..], m)
    else [links[0]] + Unmapped(links[1..], m)
  }

  function StripLeadingSlash(s: string): string {
    if s != "" && s[0] == '/' then s[1..] else s
  }

  function ResolveGitLabUploadUrl(url: string, gitlabBaseUrl: string, projectPath: string): string {
    if StartsWith(url, "/uploads/") then
      StripSlash(gitlabBaseUrl) + "/" + StripSlash(StripLeadingSlash(projectPath)) + "/uploads/" + url[9..]
    else url
  }

  /** `b` is `s` less one trailing slash, if it has one. */
  ghost predicate LessTrailingSlash(s: string, b: string) {
    s == b + "/" || (s == b && (b == "" || b[|b| - 1] != '/'))
  }

  ghost predicate LessLeadingSlash(s: string, b: string) {
    s == "/" + b || (s == b && (b == "" || b[0] != '/'))
  }

  /** A relative upload path is put behind the base and the project, single slashes between them; anything else stays. */
  lemma ResolvedExactly(url: string, base: string, path: string, b: string, p: string, q: string)
    requires LessTrailingSlash(base, b) && LessLeadingSlash(path, p) && LessTrailingSlash(p, q)
    ensures !("/uploads/" <= url) ==> ResolveGitLabUploadUrl(url, base, path) == url
    ensures forall rest :: url == "/uploads/" + rest ==>
      ResolveGitLabUploadUrl(url, base, path) == b + "/" + q + "/uploads/" + rest
  {
    assert StripSlash(base) == b && StripLeadingSlash(path) == p && StripSlash(p) == q;
    assert forall rest :: url == "/uploads/" + rest ==> url[..9] == "/uploads/" && url[9..] == rest;
  }

  function Absolute(how: Resolver, url: string): string {
    match how
    case AsIs => url
    case GitLabUpload(base, path) => ResolveGitLabUploadUrl(url, base, path)
  }

  /** One mapping for each of the first `n` links that the oracle could mirror. */
  function Mappings(links: seq<AttachmentLink>, n: nat, how: Resolver, mirror: Oracle): (ms: seq<Mapping>)
    requires n <= |links|
    ensures forall s, t :: Mapping(s, t) in ms <==>
      exists i :: 0 <= i < n && links[i].sourceUrl == s && mirror(i, Absolute(how, s)) == Some(t)
  {
    if n == 0 then []
    else
      var before := Mappings(links, n - 1, how, mirror);
      match mirror(n - 1, Absolute(how, links[n - 1].sourceUrl))
      case None => before
      case Some(t) => before + [Mapping(links[n - 1].sourceUrl, t)]
  }

  /** The attachment links of a body that belong to one side. */
  function LinksFrom(body: string, rd: Reader, origin: Origin): seq<AttachmentLink> {
    OfOrigin(Extracted(Tokenise(body), 0, rd), origin)
  }

  function MirrorMap(links: seq<AttachmentLink>, how: Resolver, mirror: Oracle): map<string, string> {
    UrlMap(Mappings(links, |links|, how, mirror))
  }

  method CollectMappings(links: seq<AttachmentLink>, how: Resolver, mirror: Oracle) returns (mappings: seq<Mapping>)
    ensures mappings == Mappings(links, |links|, how, mirror)
  {
    mappings := [];
    for i := 0 to |links|
      invariant mappings == Mappings(links, i, how, mirror)
    {
      match mirror(i, Absolute(how, links[i].sourceUrl)) {
        case None =>
        case Some(targetUrl) => mappings := mappings + [Mapping(links[i].sourceUrl, targetUrl)];
      }
    }
  }

  method MirrorLinks(body: string, links: seq<AttachmentLink>, how: Resolver, mirror: Oracle) returns (r: string)
    ensures r == Rewrite(body, MirrorMap(links, how, mirror))
  {
    if |links| == 0 {
      RewriteNothing(body);
      return body;
    }
    var mappings := CollectMappings(links, how, mirror);
    r := RewriteAttachmentLinks(body, mappings);
  }

  method MirrorBodyGitlabToHuly(body: string, baseUrl: string, path: string, decode: string -> Option<string>, mirror: Oracle) returns (r: string)
    ensures r == Rewrite(body, MirrorMap(LinksFrom(body, Reader(Some(baseUrl), decode), GitLab), GitLabUpload(baseUrl, path), mirror))
  {
    var all := ExtractAttachmentLinks(body, Reader(Some(baseUrl), decode));
    r := MirrorLinks(body, OfOrigin(all, GitLab), GitLabUpload(baseUrl, path), mirror);
  }

  method MirrorBodyHulyToGitlab(body: string, decode: string -> Option<string>, mirror: Oracle) returns (r: string)
    ensures r == Rewrite(body, MirrorMap(LinksFrom(body, Reader(None, decode), Huly), AsIs, mirror))
  {
    var all := ExtractAttachmentLinks(body, Reader(None, decode));
    r := MirrorLinks(body, OfOrigin(all, Huly), AsIs, mirror);
  }

  // ---------------------------------------------------------------------------
  // What a mirrored body still links to
  // ---------------------------------------------------------------------------

  /** No target counts as a link of this side. */
  ghost predicate Leads(m: map<string, string>, rd: Reader, origin: Origin) {
    forall s :: s in m ==> OriginOf(Trim(m[s]), rd.baseUrl) != Some(origin)
  }

  lemma {:induction false} ExtractedUnmapped(ts: seq<Token>, idx: nat, rd: Reader, origin: Origin, m: map<string, string>)
    requires Leads(m, rd, origin)
    ensures OfOrigin(Extracted(Subst(ts, m), idx, rd), origin)
         == Unmapped(OfOrigin(Extracted(ts, idx, rd), origin), m)
  {
    hide Trim, OriginOf, LinkResult;
    if ts != [] {
      var ts' := Subst(ts, m);
      assert ts'[1..] == Subst(ts[1..], m);
      if ts[0].Ch? {
        ExtractedUnmapped(ts[1..], idx, rd, origin, m);
      } else {
        ExtractedUnmapped(ts[1..], idx + 1, rd, origin, m);
        var more, more' := Extracted(ts[1..], idx + 1, rd), Extracted(ts'[1..], idx + 1, rd);
        ResultUnmapped(ts[0], idx, rd, origin, m);
        FilterHead(LinkResult(ts[0], idx, rd), more, origin, m);
        FilterHead(LinkResult(ts'[0], idx, rd), more', origin, m);
      }
    }
  }

  lemma ResultUnmapped(t: Token, idx: nat, rd: Reader, origin: Origin, m: map<string, string>)
    requires t.Link? && Leads(m, rd, origin)
    ensures OfOrigin(LinkResult(SubstToken(t, m), idx, rd), origin)
         == Unmapped(OfOrigin(LinkResult(t, idx, rd), origin), m)
  {
    hide Trim, OriginOf, OfOrigin, Unmapped, FileName;
    NoLinks(origin, m);
    var before, after := LinkResult(t, idx, rd), LinkResult(SubstToken(t, m), idx, rd);
    if before != [] { OneOf(before[0], origin, m); }
    if after != [] { OneOf(after[0], origin, m); }
  }

  lemma OneOf(link: AttachmentLink, origin: Origin, m: map<string, string>)
    ensures OfOrigin([link], origin) == if link.origin == origin then [link] else []
    ensures Unmapped([link], m) == if link.sourceUrl in m then [] else [link]
  {
    assert [link][1..] == [];
  }

  lemma NoLinks(origin: Origin, m: map<string, string>)
    ensures OfOrigin([], origin) == [] && Unmapped([], m) == []
  {
  }

  lemma FilterHead(head: seq<AttachmentLink>, more: seq<AttachmentLink>, origin: Origin, m: map<string, string>)
    requires |head| <= 1
    ensures OfOrigin(head + more, origin) == OfOrigin(head, origin) + OfOrigin(more, origin)
    ensures Unmapped(OfOrigin(head, origin) + OfOrigin(more, origin), m)
         == Unmapped(OfOrigin(head, origin), m) + Unmapped(OfOrigin(more, origin), m)
  {
    if head != [] {
      assert (head + more)[1..] == more;
      var h := OfOrigin(head, origin);
      if h != [] { assert (h + OfOrigin(more, origin))[1..] == OfOrigin(more, origin); }
      else { assert h + OfOrigin(more, origin) == OfOrigin(more, origin); }
    } else {
      assert head + more == more;
      assert OfOrigin(more, origin) == [] + OfOrigin(more, origin);
    }
  }

  /** An extracted link is trimmed, and on the side its URL says. */
  lemma {:induction false} ExtractedOrigins(ts: seq<Token>, idx: nat, rd: Reader)
    ensures forall l :: l in Extracted(ts, idx, rd) ==>
      OriginOf(l.sourceUrl, rd.baseUrl) == Some(l.origin) && Trim(l.sourceUrl) == l.sourceUrl
  {
    hide Trim, OriginOf;
    if ts != [] {
      ExtractedOrigins(ts[1..], if ts[0].Ch? then idx else idx + 1, rd);
      if ts[0].Link? {
        TrimIsTrimmed(ts[0].url);
        TrimOfTrimmed(Trim(ts[0].url));
      }
    }
  }

  lemma {:induction false} OfOriginMembers(links: seq<AttachmentLink>, origin: Origin)
    ensures forall l :: l in OfOrigin(links, origin) <==> l in links && l.origin == origin
  {
    if links != [] {
      OfOriginMembers(links[1..], origin);
      assert links == [links[0]] + links[1..];
    }
  }

  lemma {:induction false} OfOriginInOrder(links: seq<AttachmentLink>, origin: Origin, idx: nat)
    requires InOrder(links, idx)
    ensures InOrder(OfOrigin(links, origin), idx)
  {
    hide InOrder;
    if links != [] {
      var next := InOrderTail(links, idx);
      OfOriginInOrder(links[1..], origin, next);
      InOrderFrom(OfOrigin(links[1..], origin), next, idx);
      InOrderPut(links[0], OfOrigin(links[1..], origin), idx);
    } else {
      InOrderNone(idx);
    }
  }

  lemma InOrderTail(links: seq<AttachmentLink>, idx: nat) returns (next: nat)
    requires InOrder(links, idx) && links != []
    ensures idx <= links[0].markdownIndex && next == links[0].markdownIndex + 1 && InOrder(links[1..], next)
  {
    next := links[0].markdownIndex + 1;
  }

  lemma InOrderFrom(links: seq<AttachmentLink>, from: nat, idx: nat)
    requires InOrder(links, from) && idx <= from
    ensures InOrder(links, idx)
  {
  }

  lemma InOrderPut(head: AttachmentLink, more: seq<AttachmentLink>, idx: nat)
    requires idx <= head.markdownIndex && InOrder(more, head.markdownIndex + 1)
    ensures InOrder([head] + more, idx)
  {
    assert forall i :: 1 <= i < |[head] + more| ==> ([head] + more)[i] == more[i - 1];
  }

  /** The links of one side are those of the scan whose URL text says so, in the order of the body. */
  lemma LinksFromExactly(body: string, rd: Reader, origin: Origin, l: AttachmentLink)
    ensures l in LinksFrom(body, rd, origin) <==> l.origin == origin && exists p: nat :: StandsFor(l, Tokenise(body), p, rd)
    ensures InOrder(LinksFrom(body, rd, origin), 0)
  {
    hide Tokenise, Extracted, StandsFor, InOrder, OfOrigin;
    ExtractedExactly(body, rd, l);
    ExtractedInOrder(Tokenise(body), 0, rd);
    OfOriginMembers(Extracted(Tokenise(body), 0, rd), origin);
    OfOriginInOrder(Extracted(Tokenise(body), 0, rd), origin, 0);
  }

  /** What the oracle answers for the body's own links can be read back, and not as a link of this side. */
  ghost predicate Moves(links: seq<AttachmentLink>, how: Resolver, mirror: Oracle, rd: Reader, origin: Origin) {
    forall i, t :: 0 <= i < |links| && mirror(i, Absolute(how, links[i].sourceUrl)) == Some(t) ==>
      Capturable(t) && OriginOf(Trim(t), rd.baseUrl) != Some(origin)
  }

  /** What a link of the body was mirrored to is in the map, if it is another URL. */
  lemma MirroredInMap(links: seq<AttachmentLink>, how: Resolver, mirror: Oracle, i: nat, t: string)
    requires i < |links| && mirror(i, Absolute(how, links[i].sourceUrl)) == Some(t) && t != links[i].sourceUrl
    ensures links[i].sourceUrl in MirrorMap(links, how, mirror)
  {
    hide Absolute;
    var ms := Mappings(links, |links|, how, mirror);
    assert Mapping(links[i].sourceUrl, t) in ms;
    var k :| 0 <= k < |ms| && ms[k] == Mapping(links[i].sourceUrl, t);
    assert ms[k].sourceUrl == links[i].sourceUrl && ms[k].targetUrl != links[i].sourceUrl;
  }

  /** Whatever is in the map, some link of the body was mirrored to. */
  lemma MapIsMirrored(links: seq<AttachmentLink>, how: Resolver, mirror: Oracle, s: string) returns (i: nat)
    requires s in MirrorMap(links, how, mirror)
    ensures i < |links| && links[i].sourceUrl == s && mirror(i, Absolute(how, s)) == Some(MirrorMap(links, how, mirror)[s])
  {
    hide Absolute;
    var ms := Mappings(links, |links|, how, mirror);
    assert Mapping(s, MirrorMap(links, how, mirror)[s]) in ms;
    i :| 0 <= i < |links| && links[i].sourceUrl == s && mirror(i, Absolute(how, s)) == Some(MirrorMap(links, how, mirror)[s]);
  }

  /** Of the first n links, no later one than the i-th has the same source and another answer than none or that source. */
  ghost predicate LastAnswer(links: seq<AttachmentLink>, n: nat, how: Resolver, mirror: Oracle, i: nat)
    requires i < n <= |links|
  {
    var s := links[i].sourceUrl;
    forall j :: i < j < n && links[j].sourceUrl == s ==>
      mirror(j, Absolute(how, s)) == None || mirror(j, Absolute(how, s)) == Some(s)
  }

  /** The map after the first n links. */
  function MapSoFar(links: seq<AttachmentLink>, n: nat, how: Resolver, mirror: Oracle): map<string, string>
    requires n <= |links|
  {
    UrlMap(Mappings(links, n, how, mirror))
  }

  lemma MapNext(links: seq<AttachmentLink>, n: nat, how: Resolver, mirror: Oracle)
    requires 0 < n <= |links|
    ensures var before, s := MapSoFar(links, n - 1, how, mirror), links[n - 1].sourceUrl;
      var answer := mirror(n - 1, Absolute(how, s));
      MapSoFar(links, n, how, mirror) == if answer == None || answer == Some(s) then before else before[s := answer.value]
  {
    hide Absolute;
    var before, s := Mappings(links, n - 1, how, mirror), links[n - 1].sourceUrl;
    match mirror(n - 1, Absolute(how, s))
    case None =>
    case Some(u) => assert (before + [Mapping(s, u)])[..|before|] == before;
  }

  lemma {:induction false} LastSoFar(links: seq<AttachmentLink>, n: nat, how: Resolver, mirror: Oracle, i: nat, t: string)
    requires i < n <= |links| && t != links[i].sourceUrl
    requires mirror(i, Absolute(how, links[i].sourceUrl)) == Some(t) && LastAnswer(links, n, how, mirror, i)
    ensures links[i].sourceUrl in MapSoFar(links, n, how, mirror)
    ensures MapSoFar(links, n, how, mirror)[links[i].sourceUrl] == t
  {
    hide Absolute, MapSoFar;
    MapNext(links, n, how, mirror);
    if i < n - 1 { LastSoFar(links, n - 1, how, mirror, i, t); }
  }

  /** When a source URL is mirrored more than once, its last answer that is another URL is the one in the map. */
  lemma LastMirrored(links: seq<AttachmentLink>, how: Resolver, mirror: Oracle, i: nat, t: string)
    requires i < |links| && t != links[i].sourceUrl
    requires mirror(i, Absolute(how, links[i].sourceUrl)) == Some(t) && LastAnswer(links, |links|, how, mirror, i)
    ensures var m := MirrorMap(links, how, mirror);
      links[i].sourceUrl in m && m[links[i].sourceUrl] == t
  {
    hide Absolute;
    LastSoFar(links, |links|, how, mirror, i, t);
  }

  lemma LinkOfSide(body: string, rd: Reader, origin: Origin, i: nat)
    requires i < |LinksFrom(body, rd, origin)|
    ensures var s := LinksFrom(body, rd, origin)[i].sourceUrl;
      OriginOf(Trim(s), rd.baseUrl) == Some(origin)
  {
    hide Trim, OriginOf, Tokenise, Extracted, OfOrigin;
    var all := Extracted(Tokenise(body), 0, rd);
    ExtractedOrigins(Tokenise(body), 0, rd);
    OfOriginMembers(all, origin);
    assert OfOrigin(all, origin)[i] in OfOrigin(all, origin);
  }

  lemma MirroredExactly(body: string, rd: Reader, origin: Origin, how: Resolver, mirror: Oracle)
    requires Moves(LinksFrom(body, rd, origin), how, mirror, rd, origin)
    ensures var links := LinksFrom(body, rd, origin);
      var m := MirrorMap(links, how, mirror);
      && Leads(m, rd, origin) && (forall s :: s in m ==> Capturable(m[s]))
      && forall s :: s in m <==>
         exists i :: 0 <= i < |links| && links[i].sourceUrl == s && mirror(i, Absolute(how, s)).Some?
  {
    hide Trim, OriginOf, Capturable, LinksFrom, MirrorMap, Absolute;
    var links := LinksFrom(body, rd, origin);
    var m := MirrorMap(links, how, mirror);
    forall s | s in m
      ensures Capturable(m[s]) && OriginOf(Trim(m[s]), rd.baseUrl) != Some(origin)
      ensures exists i :: 0 <= i < |links| && links[i].sourceUrl == s && mirror(i, Absolute(how, s)).Some?
    {
      var i := MapIsMirrored(links, how, mirror, s);
    }
    forall i: nat | i < |links| && mirror(i, Absolute(how, links[i].sourceUrl)).Some?
      ensures links[i].sourceUrl in m
    {
      LinkOfSide(body, rd, origin, i);
      MirroredInMap(links, how, mirror, i, mirror(i, Absolute(how, links[i].sourceUrl)).value);
    }
  }

  /**
   * The links of one side that are left in a mirrored body are, in order and at their old
   * markdown indices, exactly those whose source URL was never mirrored.
   */
  lemma LeavesUnmapped(body: string, rd: Reader, origin: Origin, how: Resolver, mirror: Oracle)
    requires Moves(LinksFrom(body, rd, origin), how, mirror, rd, origin)
    ensures var links := LinksFrom(body, rd, origin);
      var m := MirrorMap(links, how, mirror);
      && LinksFrom(Rewrite(body, m), rd, origin) == Unmapped(links, m)
      && forall s :: s in m <==>
         exists i :: 0 <= i < |links| && links[i].sourceUrl == s && mirror(i, Absolute(how, s)).Some?
  {
    hide Trim, OriginOf, Capturable, Tokenise, Extracted, MirrorMap, Rewrite, Unmapped, Moves, Leads;
    MirroredExactly(body, rd, origin, how, mirror);
    var m := MirrorMap(LinksFrom(body, rd, origin), how, mirror);
    RewritePreservesTokens(body, m);
    ExtractedUnmapped(Tokenise(body), 0, rd, origin, m);
  }

  /** GitLab to Huly: targets are attachments:// references free of `)`. */
  lemma MirrorLeavesUnmapped(body: string, base: string, path: string, decode: string -> Option<string>, mirror: Oracle)
    requires forall i, u :: mirror(i, u).Some? ==>
      StartsWith(mirror(i, u).value, "attachments://") && ')' !in mirror(i, u).value
    ensures var how, rd := GitLabUpload(base, path), Reader(Some(base), decode);
      var links := LinksFrom(body, rd, GitLab);
      var m := MirrorMap(links, how, mirror);
      && LinksFrom(Rewrite(body, m), rd, GitLab) == Unmapped(links, m)
      && forall s :: s in m <==>
         exists i :: 0 <= i < |links| && links[i].sourceUrl == s && mirror(i, Absolute(how, s)).Some?
  {
    hide LinksFrom, MirrorMap, Unmapped, Rewrite, Absolute, Trim;
    var how, rd := GitLabUpload(base, path), Reader(Some(base), decode);
    forall i, u | mirror(i, u).Some?
      ensures var t := mirror(i, u).value; Capturable(t) && OriginOf(Trim(t), rd.baseUrl) == Some(Huly)
    {
      TrimKeepsPrefix(mirror(i, u).value, "attachments://");
    }
    LeavesUnmapped(body, rd, GitLab, how, mirror);
  }

  /** Huly to GitLab: targets are non-empty, free of `)`, and not attachments:// references themselves. */
  lemma HulyMirrorLeavesUnmapped(body: string, decode: string -> Option<string>, mirror: Oracle)
    requires forall i, u :: mirror(i, u).Some? ==>
      Capturable(mirror(i, u).value) && !StartsWith(Trim(mirror(i, u).value), "attachments://")
    ensures var rd := Reader(None, decode);
      var links := LinksFrom(body, rd, Huly);
      var m := MirrorMap(links, AsIs, mirror);
      && LinksFrom(Rewrite(body, m), rd, Huly) == Unmapped(links, m)
      && forall s :: s in m <==> exists i :: 0 <= i < |links| && links[i].sourceUrl == s && mirror(i, s).Some?
  {
    hide LinksFrom, MirrorMap, Unmapped, Rewrite, Trim, Capturable;
    LeavesUnmapped(body, Reader(None, decode), Huly, AsIs, mirror);
  }
}
