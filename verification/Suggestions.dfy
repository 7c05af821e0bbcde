/** The suggestion-block parser of public/user-ui/suggestion-parser.js. */
module Suggestions {
  import opened Text

  datatype Form = Gfm | Legacy

  datatype Block = Block(form: Form, content: string, startIndex: nat, endIndex: nat)

  const OPEN_MARKER := "<<<<<<< SUGGEST"
  const CLOSE_MARKER := ">>>>>>>> SUGGEST"
  const OPEN_FENCE := "```suggestion"
  const CLOSE_FENCE := "\n```"

  lemma MarkersBorderless()
    ensures Borderless(OPEN_MARKER) && Borderless(CLOSE_MARKER)
    ensures Borderless(OPEN_FENCE) && Borderless(CLOSE_FENCE)
    ensures '\n' !in CLOSE_MARKER
  {
    assert OPEN_MARKER[14] == 'T' && forall k :: 0 <= k < 14 ==> OPEN_MARKER[k] != 'T';
    assert CLOSE_MARKER[15] == 'T' && forall k :: 0 <= k < 15 ==> CLOSE_MARKER[k] != 'T';
    assert OPEN_FENCE[12] == 'n' && forall k :: 0 <= k < 12 ==> OPEN_FENCE[k] != 'n';
    assert CLOSE_FENCE[0] == '\n';
  }

  // ---------------------------------------------------------------------------
  // Conflict-marker blocks
  // ---------------------------------------------------------------------------

  function SkipNewline(s: string): string {
    if s != "" && s[0] == '\n' then s[1..] else s
  }

  function DropNewline(s: string): string {
    if s != "" && s[|s| - 1] == '\n' then s[..|s| - 1] else s
  }

  /** The pair of markers around a conflict-style block. */
  datatype Markers = Markers(open: string, close: string) {
    predicate Valid() {
      open != "" && close != "" && Borderless(open) && Borderless(close) && '\n' !in close
    }
  }

  const SUGGEST := Markers(OPEN_MARKER, CLOSE_MARKER)

  /** The next block of a text: how far in it starts, its content, and the text behind it. */
  datatype Found = NoBlock | Found(before: nat, content: string, rest: string)

  function LegacyNext(mk: Markers, s: string): (r: Found)
    requires mk.Valid()
    ensures r.Found? ==> r.before + |r.rest| < |s|
  {
    match Cut(s, mk.open)
    case Absent => NoBlock
    case Split(before, marked) =>
      match Cut(SkipNewline(marked), mk.close)
      case Absent => NoBlock
      case Split(text, after) => Found(|before|, DropNewline(text), after)
  }

  /** The marked blocks of a text found `at` characters into the body. */
  function LegacyBlocks(mk: Markers, s: string, at: nat): seq<Block>
    requires mk.Valid()
    decreases |s|
  {
    match LegacyNext(mk, s)
    case NoBlock => []
    case Found(before, content, rest) =>
      var end := at + |s| - |rest|;
      [Block(Legacy, content, at + before, end)] + LegacyBlocks(mk, rest, end)
  }

  /** Where the content begins: behind the opening marker and one newline. */
  function ContentStart(body: string, afterOpen: nat): (i: nat)
    requires afterOpen <= |body|
    ensures afterOpen <= i <= |body|
  {
    if afterOpen < |body| && body[afterOpen] == '\n' then afterOpen + 1 else afterOpen
  }

  /** The content up to the closing marker, without one trailing newline. */
  function ContentUpTo(body: string, start: nat, closeIdx: nat): string
    requires 0 < closeIdx <= |body|
  {
    var contentEnd := if body[closeIdx - 1] == '\n' then closeIdx - 1 else closeIdx;
    if start <= contentEnd then body[start..contentEnd] else ""
  }

  lemma ContentStartSkips(body: string, afterOpen: nat)
    requires afterOpen <= |body|
    ensures SkipNewline(body[afterOpen..]) == body[ContentStart(body, afterOpen)..]
  {
  }

  lemma ContentUpToDrops(body: string, start: nat, closeIdx: nat)
    requires 0 < start <= closeIdx <= |body|
    ensures DropNewline(body[start..closeIdx]) == ContentUpTo(body, start, closeIdx)
  {
  }

  /** The index arithmetic of one turn of the parser's loop finds the next block. */
  lemma LegacyNextByIndex(mk: Markers, body: string, searchFrom: nat)
    requires mk.Valid() && searchFrom <= |body|
    ensures var openIdx := IndexOf(body, mk.open, searchFrom);
      if openIdx == -1 then LegacyNext(mk, body[searchFrom..]) == NoBlock else
      var contentStart := ContentStart(body, openIdx + |mk.open|);
      var closeIdx := IndexOf(body, mk.close, contentStart);
      if closeIdx == -1 then LegacyNext(mk, body[searchFrom..]) == NoBlock else
      LegacyNext(mk, body[searchFrom..]) ==
        Found(openIdx - searchFrom, ContentUpTo(body, contentStart, closeIdx), body[closeIdx + |mk.close|..])
  {
    hide Cut, IndexOf, SkipNewline, DropNewline, ContentStart, ContentUpTo, Borderless;
    IndexOfIsCut(body, mk.open, searchFrom);
    var openIdx := IndexOf(body, mk.open, searchFrom);
    if openIdx != -1 {
      ContentStartSkips(body, openIdx + |mk.open|);
      var contentStart := ContentStart(body, openIdx + |mk.open|);
      IndexOfIsCut(body, mk.close, contentStart);
      var closeIdx := IndexOf(body, mk.close, contentStart);
      if closeIdx != -1 { ContentUpToDrops(body, contentStart, closeIdx); }
    }
  }

  method ParseLegacy(mk: Markers, body: string) returns (out: seq<Block>)
    requires mk.Valid()
    ensures out == LegacyBlocks(mk, body, 0)
  {
    hide LegacyNext, IndexOf, ContentStart, ContentUpTo, Borderless;
    out := [];
    var searchFrom := 0;
    assert body[searchFrom..] == body;
    while true
      invariant 0 <= searchFrom <= |body|
      invariant LegacyBlocks(mk, body, 0) == out + LegacyBlocks(mk, body[searchFrom..], searchFrom)
      decreases |body| - searchFrom
    {
      LegacyNextByIndex(mk, body, searchFrom);
      var openIdx := IndexOf(body, mk.open, searchFrom);
      if openIdx == -1 { break; }
      var contentStart := ContentStart(body, openIdx + |mk.open|);
      var closeIdx := IndexOf(body, mk.close, contentStart);
      if closeIdx == -1 { break; }
      var endIndex := closeIdx + |mk.close|;
      out := out + [Block(Legacy, ContentUpTo(body, contentStart, closeIdx), openIdx, endIndex)];
      searchFrom := endIndex;
    }
  }

  /** A suggestion and the text in front of it. `header` is what follows the opening fence on its line. */
  datatype Piece = Piece(text: string, header: string, content: string)

  function LegacyInside(mk: Markers, p: Piece, more: string): string {
    (p.content + ['\n']) + (mk.close + more)
  }

  /** A piece written as a marked block, followed by `more`. */
  function LegacyText(mk: Markers, p: Piece, more: string): (s: string)
    ensures |s| == |p.text| + |mk.open| + |p.content| + |mk.close| + 2 + |more|
  {
    p.text + (mk.open + (['\n'] + LegacyInside(mk, p, more)))
  }

  function RenderLegacy(mk: Markers, pieces: seq<Piece>, tail: string): string {
    if pieces == [] then tail else LegacyText(mk, pieces[0], RenderLegacy(mk, pieces[1..], tail))
  }

  function LegacyRanges(mk: Markers, pieces: seq<Piece>, at: nat): seq<Block> {
    if pieces == [] then []
    else
      var start := at + |pieces[0].text|;
      var end := start + |mk.open| + |pieces[0].content| + |mk.close| + 2;
      [Block(Legacy, pieces[0].content, start, end)] + LegacyRanges(mk, pieces[1..], end)
  }

  ghost predicate LegacyClean(mk: Markers, pieces: seq<Piece>, tail: string) {
    && !Contains(tail, mk.open)
    && forall p :: p in pieces ==> !Contains(p.text, mk.open) && !Contains(p.content, mk.close)
  }

  lemma LegacyNextOfText(mk: Markers, p: Piece, more: string)
    requires mk.Valid() && !Contains(p.text, mk.open) && !Contains(p.content, mk.close)
    ensures LegacyNext(mk, LegacyText(mk, p, more)) == Found(|p.text|, p.content, more)
  {
    hide Cut, Contains;
    var inside := LegacyInside(mk, p, more);
    CutFirst(p.text, mk.open, ['\n'] + inside);
    assert SkipNewline(['\n'] + inside) == inside;
    ContainsAppend(p.content, '\n', mk.close);
    CutFirst(p.content + ['\n'], mk.close, more);
    assert DropNewline(p.content + ['\n']) == p.content;
  }

  lemma LegacyNextOfTail(mk: Markers, tail: string)
    requires mk.Valid() && !Contains(tail, mk.open)
    ensures LegacyNext(mk, tail) == NoBlock
  {
    CutAbsent(tail, mk.open);
  }

  /** Parsing rendered marked blocks gives back their contents, in order and in place. */
  lemma {:induction false} LegacyRoundTrip(mk: Markers, pieces: seq<Piece>, tail: string, at: nat)
    requires mk.Valid() && LegacyClean(mk, pieces, tail)
    ensures LegacyBlocks(mk, RenderLegacy(mk, pieces, tail), at) == LegacyRanges(mk, pieces, at)
  {
    hide LegacyNext, LegacyText, Contains, Markers.Valid;
    if pieces == [] {
      LegacyNextOfTail(mk, tail);
    } else {
      var p, more := pieces[0], RenderLegacy(mk, pieces[1..], tail);
      assert p in pieces;
      LegacyNextOfText(mk, p, more);
      LegacyRoundTrip(mk, pieces[1..], tail, at + |LegacyText(mk, p, more)| - |more|);
    }
  }

  // ---------------------------------------------------------------------------
  // Fenced blocks
  // ---------------------------------------------------------------------------

  /** The line terminators after which a multi-line `^` matches. */
  predicate IsTerminator(c: char) {
    c == '\n' || c == '\r' || c == '\U{2028}' || c == '\U{2029}'
  }

  /** The opening line of a block at the start of `s`: what follows `suggestion` on it, and the rest. */
  function OpenLine(s: string, fence: string): Split {
    if StartsWith(s, fence) then SplitAt(s[|fence|..], '\n') else Absent
  }

  /** The opening and closing fences. */
  datatype Fences = Fences(open: string, close: string) {
    predicate Valid() {
      open != "" && close != "" && Borderless(open) && Borderless(close) && !IsTerminator(close[|close| - 1])
    }
  }

  const SUGGESTION := Fences(OPEN_FENCE, CLOSE_FENCE)

  /** What scanning finds at the start of a text: nothing, an unclosed opening line, or a block. */
  datatype Fence = NoFence | Unclosed(inside: string) | Fenced(content: string, after: string)

  function FenceAt(f: Fences, s: string, lineStart: bool): (r: Fence)
    requires f.Valid()
    ensures r.Unclosed? ==> |r.inside| < |s|
    ensures r.Fenced? ==> |r.after| < |s|
  {
    match if lineStart then OpenLine(s, f.open) else Absent
    case Absent => NoFence
    case Split(_, inside) =>
      match Cut(inside, f.close)
      case Absent => Unclosed(inside)
      case Split(content, after) => Fenced(content, after)
  }

  /** The fenced blocks of a text found `at` characters in; `lineStart` says whether `^` matches there. */
  function GfmBlocks(f: Fences, s: string, at: nat, lineStart: bool): seq<Block>
    requires f.Valid()
    decreases |s|
  {
    if s == "" then []
    else match FenceAt(f, s, lineStart)
      case NoFence => GfmBlocks(f, s[1..], at + 1, IsTerminator(s[0]))
      case Unclosed(inside) => GfmBlocks(f, inside, at + |s| - |inside|, true)
      case Fenced(content, after) =>
        var end := at + |s| - |after|;
        [Block(Gfm, content, at, end)] + GfmBlocks(f, after, end, false)
  }

  lemma OpenLineByIndex(f: Fences, body: string, openStart: nat, header: string, inside: string)
    requires openStart <= |body| && OpenLine(body[openStart..], f.open) == Split(header, inside)
    ensures var contentStart := openStart + |f.open| + |header| + 1;
      contentStart <= |body| && body[contentStart - 1] == '\n' && body[contentStart..] == inside
  {
    var line := body[openStart..][|f.open|..];
    assert line == body[openStart + |f.open|..];
    assert line == header + (['\n'] + inside);
    assert line[|header|] == '\n' && line[|header| + 1..] == inside;
  }

  lemma LastOfOccurrence(s: string, p: string, i: nat)
    requires p != "" && OccursAt(s, p, i) && i + |p| <= |s|
    ensures s[i + |p| - 1] == p[|p| - 1]
  {
    assert s[i..][..|p|][|p| - 1] == p[|p| - 1];
  }

  /** The index arithmetic of one turn of the parser's loop finds the same thing. */
  lemma FenceByIndex(f: Fences, body: string, s: string, contentStart: nat)
    requires f.Valid() && contentStart <= |body|
    requires OpenLine(s, f.open).Split? && OpenLine(s, f.open).after == body[contentStart..]
    ensures var closeIdx := IndexOf(body, f.close, contentStart);
      FenceAt(f, s, true) ==
        if closeIdx == -1 then Unclosed(body[contentStart..])
        else Fenced(body[contentStart..closeIdx], body[closeIdx + |f.close|..])
  {
    hide Cut, IndexOf, OpenLine, Borderless;
    IndexOfIsCut(body, f.close, contentStart);
  }

  predicate AtLineStart(body: string, i: nat)
    requires i <= |body|
  {
    i == 0 || IsTerminator(body[i - 1])
  }

  /** The scanning function read at a position of the body. */
  function GfmFrom(f: Fences, body: string, i: nat): seq<Block>
    requires f.Valid() && i <= |body|
  {
    GfmBlocks(f, body[i..], i, AtLineStart(body, i))
  }

  lemma GfmTurnChar(f: Fences, body: string, i: nat)
    requires f.Valid() && i < |body|
    requires AtLineStart(body, i) ==> OpenLine(body[i..], f.open).Absent?
    ensures GfmFrom(f, body, i) == GfmFrom(f, body, i + 1)
  {
    hide OpenLine, Cut, Borderless;
    assert body[i..][1..] == body[i + 1..];
  }

  lemma GfmStep(f: Fences, s: string, at: nat, lineStart: bool)
    requires f.Valid() && s != ""
    ensures GfmBlocks(f, s, at, lineStart) == match FenceAt(f, s, lineStart)
      case NoFence => GfmBlocks(f, s[1..], at + 1, IsTerminator(s[0]))
      case Unclosed(inside) => GfmBlocks(f, inside, at + |s| - |inside|, true)
      case Fenced(content, after) =>
        [Block(Gfm, content, at, at + |s| - |after|)] + GfmBlocks(f, after, at + |s| - |after|, false)
  {
    hide FenceAt, OpenLine, Cut, Borderless;
  }

  lemma GfmTurnUnclosed(f: Fences, body: string, i: nat, next: nat)
    requires f.Valid() && i < next <= |body| && AtLineStart(body, i) && AtLineStart(body, next)
    requires FenceAt(f, body[i..], true) == Unclosed(body[next..])
    ensures GfmFrom(f, body, i) == GfmFrom(f, body, next)
  {
    hide FenceAt, Borderless, GfmBlocks;
    GfmStep(f, body[i..], i, true);
  }

  lemma GfmTurnFenced(f: Fences, body: string, i: nat, content: string, next: nat)
    requires f.Valid() && i < next <= |body| && AtLineStart(body, i) && !AtLineStart(body, next)
    requires FenceAt(f, body[i..], true) == Fenced(content, body[next..])
    ensures GfmFrom(f, body, i) == [Block(Gfm, content, i, next)] + GfmFrom(f, body, next)
  {
    hide FenceAt, Borderless, GfmBlocks;
    GfmStep(f, body[i..], i, true);
  }

  method ParseGfm(f: Fences, body: string) returns (out: seq<Block>)
    requires f.Valid()
    ensures out == GfmFrom(f, body, 0)
  {
    hide OpenLine, IndexOf, FenceAt, Borderless, GfmFrom, OccursAt;
    out := [];
    var lastIndex := 0;
    while lastIndex < |body|
      invariant 0 <= lastIndex <= |body|
      invariant GfmFrom(f, body, 0) == out + GfmFrom(f, body, lastIndex)
      decreases |body| - lastIndex
    {
      var openStart := lastIndex;
      match if AtLineStart(body, openStart) then OpenLine(body[openStart..], f.open) else Absent {
        case Absent =>
          GfmTurnChar(f, body, openStart);
          lastIndex := openStart + 1;
        case Split(header, inside) =>
          OpenLineByIndex(f, body, openStart, header, inside);
          var contentStart := openStart + |f.open| + |header| + 1;
          FenceByIndex(f, body, body[openStart..], contentStart);
          var closeIdx := IndexOf(body, f.close, contentStart);
          if closeIdx == -1 {
            GfmTurnUnclosed(f, body, openStart, contentStart);
            lastIndex := contentStart;
          } else {
            var content := body[contentStart..closeIdx];
            var endIndex := closeIdx + |f.close|;
            LastOfOccurrence(body, f.close, closeIdx);
            GfmTurnFenced(f, body, openStart, content, endIndex);
            out := out + [Block(Gfm, content, openStart, endIndex)];
            lastIndex := endIndex;
          }
      }
    }
    GfmEnds(f, body);
  }

  lemma GfmEnds(f: Fences, body: string)
    requires f.Valid()
    ensures GfmFrom(f, body, |body|) == []
  {
  }

  method ParseSuggestions(body: string) returns (results: seq<Block>)
    ensures SUGGEST.Valid() && SUGGESTION.Valid()
    ensures results == LegacyBlocks(SUGGEST, body, 0) + GfmBlocks(SUGGESTION, body, 0, true)
    ensures exists legacy, gfm ::
      && results == legacy + gfm
      && LegacyParse(Markers("<<<<<<< SUGGEST", ">>>>>>>> SUGGEST"), body, 0, legacy)
      && GfmParse(Fences("```suggestion", "\n```"), body, 0, gfm)
  {
    hide LegacyBlocks, GfmBlocks, LegacyParse, GfmParse;
    MarkersBorderless();
    LegacyExactly(SUGGEST, body, 0);
    GfmExactly(SUGGESTION, body, 0);
    var legacy := ParseLegacy(SUGGEST, body);
    var gfm := ParseGfm(SUGGESTION, body);
    assert body[0..] == body;
    results := legacy + gfm;
  }

  /** A fenced block: opening line, content, closing fence. */
  function GfmText(f: Fences, p: Piece, more: string): (s: string)
    ensures |s| == |f.open| + |p.header| + 1 + |p.content| + |f.close| + |more|
  {
    f.open + (p.header + (['\n'] + (p.content + (f.close + more))))
  }

  function RenderGfm(f: Fences, pieces: seq<Piece>, tail: string): string {
    if pieces == [] then tail
    else pieces[0].text + GfmText(f, pieces[0], RenderGfm(f, pieces[1..], tail))
  }

  function GfmRanges(f: Fences, pieces: seq<Piece>, at: nat): seq<Block> {
    if pieces == [] then []
    else
      var start := at + |pieces[0].text|;
      var end := start + |f.open| + |pieces[0].header| + 1 + |pieces[0].content| + |f.close|;
      [Block(Gfm, pieces[0].content, start, end)] + GfmRanges(f, pieces[1..], end)
  }

  /** No line of the text starts with an opening fence. */
  predicate FreeOfFences(f: Fences, text: string, lineStart: bool) {
    text == "" || (!(lineStart && StartsWith(text, f.open)) && FreeOfFences(f, text[1..], IsTerminator(text[0])))
  }

  /** Whether a fence written after the text starts a line. */
  predicate EndsLine(text: string, lineStart: bool) {
    if text == "" then lineStart else IsTerminator(text[|text| - 1])
  }

  ghost predicate GfmClean(f: Fences, pieces: seq<Piece>, tail: string, lineStart: bool) {
    if pieces == [] then FreeOfFences(f, tail, lineStart)
    else
      var p := pieces[0];
      && FreeOfFences(f, p.text, lineStart) && EndsLine(p.text, lineStart)
      && '\n' !in p.header && !Contains(p.content, f.close)
      && GfmClean(f, pieces[1..], tail, false)
  }

  lemma NoFenceInText(f: Fences, text: string, rest: string, lineStart: bool)
    requires f.Valid() && text != "" && !(lineStart && StartsWith(text, f.open))
    ensures FenceAt(f, text + (f.open + rest), lineStart) == NoFence
  {
    hide Borderless, Cut;
    var s := text + (f.open + rest);
    if lineStart {
      assert text[0..] == text && s[0..] == s;
      NoEarlier(text, f.open, rest, 0);
    }
  }

  /** Scanning passes over a text free of fences that ends a line. */
  lemma {:induction false} GfmSkips(f: Fences, text: string, rest: string, at: nat, lineStart: bool)
    requires f.Valid() && FreeOfFences(f, text, lineStart) && EndsLine(text, lineStart)
    ensures GfmBlocks(f, text + (f.open + rest), at, lineStart)
         == GfmBlocks(f, f.open + rest, at + |text|, true)
  {
    hide Borderless, IsTerminator, FenceAt;
    var s := text + (f.open + rest);
    if text == "" {
      assert s == f.open + rest;
    } else {
      NoFenceInText(f, text, rest, lineStart);
      assert s[1..] == text[1..] + (f.open + rest);
      GfmSkips(f, text[1..], rest, at + 1, IsTerminator(text[0]));
    }
  }

  lemma GfmSkipsTo(f: Fences, p: Piece, more: string, at: nat, lineStart: bool)
    requires f.Valid() && FreeOfFences(f, p.text, lineStart) && EndsLine(p.text, lineStart)
    ensures GfmBlocks(f, p.text + GfmText(f, p, more), at, lineStart)
         == GfmBlocks(f, GfmText(f, p, more), at + |p.text|, true)
  {
    hide GfmBlocks, FreeOfFences;
    GfmSkips(f, p.text, p.header + (['\n'] + (p.content + (f.close + more))), at, lineStart);
  }

  lemma {:induction false} GfmNothing(f: Fences, tail: string, at: nat, lineStart: bool)
    requires f.Valid() && FreeOfFences(f, tail, lineStart)
    ensures GfmBlocks(f, tail, at, lineStart) == []
  {
    if tail != "" { GfmNothing(f, tail[1..], at + 1, IsTerminator(tail[0])); }
  }

  lemma FenceAtText(f: Fences, p: Piece, more: string)
    requires f.Valid() && '\n' !in p.header && !Contains(p.content, f.close)
    ensures FenceAt(f, GfmText(f, p, more), true) == Fenced(p.content, more)
  {
    hide Cut, Contains, Borderless;
    var inside := p.content + (f.close + more);
    var line := p.header + (['\n'] + inside);
    assert (f.open + line)[|f.open|..] == line;
    SplitAtFirst(p.header, '\n', inside);
    CutFirst(p.content, f.close, more);
  }

  lemma GfmFirst(f: Fences, p: Piece, more: string, at: nat)
    requires f.Valid() && '\n' !in p.header && !Contains(p.content, f.close)
    ensures var s := GfmText(f, p, more);
      var end := at + |s| - |more|;
      GfmBlocks(f, s, at, true) == [Block(Gfm, p.content, at, end)] + GfmBlocks(f, more, end, false)
  {
    hide FenceAt, GfmText, Contains, Borderless;
    FenceAtText(f, p, more);
  }

  /** Parsing rendered fenced blocks gives back their contents, in order and in place. */
  lemma {:induction false} GfmRoundTrip(f: Fences, pieces: seq<Piece>, tail: string, at: nat, lineStart: bool)
    requires f.Valid() && GfmClean(f, pieces, tail, lineStart)
    ensures GfmBlocks(f, RenderGfm(f, pieces, tail), at, lineStart) == GfmRanges(f, pieces, at)
  {
    hide GfmBlocks, GfmText, Contains, FreeOfFences, EndsLine, Borderless;
    if pieces == [] {
      GfmNothing(f, tail, at, lineStart);
    } else {
      var p, more := pieces[0], RenderGfm(f, pieces[1..], tail);
      GfmSkipsTo(f, p, more, at, lineStart);
      GfmFirst(f, p, more, at + |p.text|);
      GfmRoundTrip(f, pieces[1..], tail, at + |p.text| + |GfmText(f, p, more)| - |more|, false);
    }
  }

  // ---------------------------------------------------------------------------
  // Every body
  // ---------------------------------------------------------------------------

  /** The ranges are non-empty, inside the body from `from` on, disjoint and increasing. */
  predicate Ordered(blocks: seq<Block>, from: nat, to: nat) {
    if blocks == [] then from <= to
    else from <= blocks[0].startIndex < blocks[0].endIndex && Ordered(blocks[1..], blocks[0].endIndex, to)
  }

  lemma OrderedFrom(blocks: seq<Block>, lower: nat, from: nat, to: nat)
    requires lower <= from && Ordered(blocks, from, to)
    ensures Ordered(blocks, lower, to)
  {
  }

  lemma {:induction false} LegacyOrdered(mk: Markers, s: string, at: nat)
    requires mk.Valid()
    ensures Ordered(LegacyBlocks(mk, s, at), at, at + |s|)
    decreases |s|
  {
    hide LegacyNext, Borderless;
    var next := LegacyNext(mk, s);
    if next.Found? { LegacyOrdered(mk, next.rest, at + |s| - |next.rest|); }
  }

  lemma {:induction false} GfmOrdered(f: Fences, s: string, at: nat, lineStart: bool)
    requires f.Valid()
    ensures Ordered(GfmBlocks(f, s, at, lineStart), at, at + |s|)
    decreases |s|
  {
    hide FenceAt, Borderless;
    if s != "" {
      match FenceAt(f, s, lineStart)
      case NoFence =>
        GfmOrdered(f, s[1..], at + 1, IsTerminator(s[0]));
        OrderedFrom(GfmBlocks(f, s[1..], at + 1, IsTerminator(s[0])), at, at + 1, at + |s|);
      case Unclosed(inside) =>
        GfmOrdered(f, inside, at + |s| - |inside|, true);
        OrderedFrom(GfmBlocks(f, inside, at + |s| - |inside|, true), at, at + |s| - |inside|, at + |s|);
      case Fenced(_, after) =>
        GfmOrdered(f, after, at + |s| - |after|, false);
    }
  }

  // ---------------------------------------------------------------------------
  // Every body, position by position
  // ---------------------------------------------------------------------------

  /** The text has `p` at position i. */
  ghost predicate Reads(s: string, p: string, i: nat) {
    i + |p| <= |s| && s[i..i + |p|] == p
  }

  /** The first place at or behind `from` where the text has `p`. */
  ghost predicate FirstAt(s: string, p: string, from: nat, i: nat) {
    from <= i && Reads(s, p, i) && forall k: nat :: from <= k < i ==> !Reads(s, p, k)
  }

  ghost predicate NoneFrom(s: string, p: string, from: nat) {
    forall k: nat :: from <= k ==> !Reads(s, p, k)
  }

  lemma ReadsExactly(s: string, p: string, i: nat)
    ensures OccursAt(s, p, i) <==> Reads(s, p, i)
  {
    if i <= |s| && |p| <= |s| - i { assert s[i..][..|p|] == s[i..i + |p|]; }
  }

  lemma IndexReads(s: string, p: string, from: nat)
    requires from <= |s|
    ensures var i := IndexOf(s, p, from);
      if i == -1 then NoneFrom(s, p, from) else FirstAt(s, p, from, i)
  {
    hide OccursAt, IndexOf, Reads;
    IndexOfFirst(s, p, from);
    forall k: nat ensures OccursAt(s, p, k) <==> Reads(s, p, k) { ReadsExactly(s, p, k); }
    forall k: nat | k > |s| ensures !Reads(s, p, k) { PastEnd(s, p, k); }
  }

  lemma PastEnd(s: string, p: string, k: nat)
    requires k > |s|
    ensures !Reads(s, p, k)
  {
  }

  /** The opening marker is the first one; the content begins behind it and one newline. */
  ghost predicate OpensLegacy(mk: Markers, body: string, from: nat, start: nat, inside: nat) {
    && FirstAt(body, mk.open, from, start)
    && inside == start + |mk.open| + if Reads(body, "\n", start + |mk.open|) then 1 else 0
  }

  /** The content goes up to the first closing marker, without a newline in front of it. */
  ghost predicate ClosesLegacy(mk: Markers, body: string, inside: nat, b: Block, close: nat) {
    && FirstAt(body, mk.close, inside, close) && b.endIndex == close + |mk.close|
    && var end := if close > 0 && Reads(body, "\n", close - 1) then close - 1 else close;
    b.content == if inside <= end <= |body| then body[inside..end] else ""
  }

  /**
   * These are the marked blocks of the body from `from` on, one by one; behind the last there
   * is no opening marker, or no closing marker behind the first one.
   */
  ghost predicate LegacyParse(mk: Markers, body: string, from: nat, out: seq<Block>)
    decreases |out|
  {
    if out == [] then
      NoneFrom(body, mk.open, from)
      || exists start: nat, inside: nat :: OpensLegacy(mk, body, from, start, inside) && NoneFrom(body, mk.close, inside)
    else
      && out[0].form == Legacy
      && (exists inside: nat, close: nat ::
            OpensLegacy(mk, body, from, out[0].startIndex, inside) && ClosesLegacy(mk, body, inside, out[0], close))
      && LegacyParse(mk, body, out[0].endIndex, out[1..])
  }

  lemma ContentStartReads(mk: Markers, body: string, from: nat, start: nat)
    requires FirstAt(body, mk.open, from, start)
    ensures start + |mk.open| <= |body|
    ensures OpensLegacy(mk, body, from, start, ContentStart(body, start + |mk.open|))
  {
    var i := start + |mk.open|;
    if i < |body| { assert body[i..i + 1] == [body[i]]; }
  }

  lemma ContentUpToReads(mk: Markers, body: string, inside: nat, close: nat, b: Block)
    requires mk.Valid() && 0 < inside <= |body| && FirstAt(body, mk.close, inside, close)
    requires b.content == ContentUpTo(body, inside, close) && b.endIndex == close + |mk.close|
    ensures ClosesLegacy(mk, body, inside, b, close)
  {
    assert body[close - 1..close] == [body[close - 1]];
  }

  /** The scanner finds exactly the marked blocks. */
  lemma {:induction false} LegacyExactly(mk: Markers, body: string, from: nat)
    requires mk.Valid() && from <= |body|
    ensures LegacyParse(mk, body, from, LegacyBlocks(mk, body[from..], from))
    decreases |body| - from
  {
    hide LegacyNext, IndexOf, ContentStart, ContentUpTo, Borderless, NoneFrom, FirstAt, OpensLegacy, ClosesLegacy;
    LegacyNextByIndex(mk, body, from);
    IndexReads(body, mk.open, from);
    var openIdx := IndexOf(body, mk.open, from);
    if openIdx != -1 {
      ContentStartReads(mk, body, from, openIdx);
      var inside := ContentStart(body, openIdx + |mk.open|);
      IndexReads(body, mk.close, inside);
      var close := IndexOf(body, mk.close, inside);
      if close != -1 {
        var end := close + |mk.close|;
        var block := Block(Legacy, ContentUpTo(body, inside, close), openIdx, end);
        ContentUpToReads(mk, body, inside, close, block);
        LegacyExactly(mk, body, end);
        assert LegacyBlocks(mk, body[from..], from) == [block] + LegacyBlocks(mk, body[end..], end);
      }
    }
  }

  /** A fence that starts a line at i; the line ends, and the content begins at `inside`. */
  ghost predicate OpensGfm(f: Fences, body: string, i: nat, inside: nat) {
    && Reads(body, f.open, i) && (i == 0 || body[i - 1] in "\n\r\U{2028}\U{2029}")
    && i + |f.open| < inside && Reads(body, "\n", inside - 1)
    && forall k: nat :: i + |f.open| <= k < inside - 1 ==> !Reads(body, "\n", k)
  }

  /** The first fence from `from` on that starts a line which ends. */
  ghost predicate FirstOpensGfm(f: Fences, body: string, from: nat, i: nat, inside: nat) {
    && from <= i && OpensGfm(f, body, i, inside)
    && forall k: nat, other: nat :: from <= k < i ==> !OpensGfm(f, body, k, other)
  }

  /** The block of the first opening fence, up to the first closing fence behind its opening line. */
  ghost predicate IsGfmBlock(f: Fences, body: string, from: nat, b: Block, inside: nat, close: nat) {
    && b.form == Gfm && FirstOpensGfm(f, body, from, b.startIndex, inside)
    && FirstAt(body, f.close, inside, close) && b.endIndex == close + |f.close|
    && inside <= close <= |body| && b.content == body[inside..close]
  }

  /** The fenced blocks of the body from `from` on, one by one; behind the last no opening fence is closed. */
  ghost predicate GfmParse(f: Fences, body: string, from: nat, out: seq<Block>)
    decreases |out|
  {
    if out == [] then
      forall i: nat, inside: nat :: from <= i && OpensGfm(f, body, i, inside) ==> NoneFrom(body, f.close, inside)
    else
      && (exists inside: nat, close: nat :: IsGfmBlock(f, body, from, out[0], inside, close))
      && GfmParse(f, body, out[0].endIndex, out[1..])
  }

  lemma ReadsNewline(s: string, i: nat)
    ensures Reads(s, "\n", i) <==> i < |s| && s[i] == '\n'
  {
    if i < |s| { assert s[i..i + 1] == [s[i]]; }
  }

  lemma LineStartExactly(body: string, i: nat)
    requires i <= |body|
    ensures AtLineStart(body, i) <==> i == 0 || body[i - 1] in "\n\r\U{2028}\U{2029}"
  {
  }

  lemma OpenLineReads(f: Fences, body: string, i: nat, header: string, inside: string)
    requires i <= |body| && AtLineStart(body, i) && OpenLine(body[i..], f.open) == Split(header, inside)
    ensures OpensGfm(f, body, i, i + |f.open| + |header| + 1)
  {
    hide Reads, AtLineStart, OccursAt;
    LineStartExactly(body, i);
    ReadsExactly(body, f.open, i);
    assert OccursAt(body, f.open, i) by { OpenLineOccurs(f, body, i); }
    OpenLineByIndex(f, body, i, header, inside);
    ReadsNewline(body, i + |f.open| + |header|);
    forall k: nat | i + |f.open| <= k < i + |f.open| + |header| ensures !Reads(body, "\n", k) {
      ReadsNewline(body, k);
      HeaderChar(f, body, i, header, inside, k);
    }
  }

  lemma OpenLineOccurs(f: Fences, body: string, i: nat)
    requires i <= |body| && OpenLine(body[i..], f.open).Split?
    ensures OccursAt(body, f.open, i)
  {
  }

  /** The rest of an opening line holds no newline. */
  lemma HeaderChar(f: Fences, body: string, i: nat, header: string, inside: string, k: nat)
    requires i <= |body| && OpenLine(body[i..], f.open) == Split(header, inside)
    requires i + |f.open| <= k < i + |f.open| + |header|
    ensures k < |body| && body[k] != '\n'
  {
    var line := body[i..][|f.open|..];
    assert line == header + (['\n'] + inside);
    assert body[k] == line[k - i - |f.open|] == header[k - i - |f.open|];
  }

  lemma OpensIsOpenLine(f: Fences, body: string, i: nat, inside: nat)
    requires OpensGfm(f, body, i, inside)
    ensures i <= |body| && AtLineStart(body, i) && OpenLine(body[i..], f.open).Split?
  {
    LineStartExactly(body, i);
    ReadsExactly(body, f.open, i);
    ReadsNewline(body, inside - 1);
    var line := body[i..][|f.open|..];
    assert line[inside - 1 - i - |f.open|] == body[inside - 1];
    assert '\n' in line;
  }

  lemma NoOpenLineReads(f: Fences, body: string, i: nat, inside: nat)
    requires i <= |body| && (AtLineStart(body, i) ==> OpenLine(body[i..], f.open).Absent?)
    ensures !OpensGfm(f, body, i, inside)
  {
    hide OpensGfm, OpenLine, AtLineStart;
    if OpensGfm(f, body, i, inside) { OpensIsOpenLine(f, body, i, inside); }
  }

  lemma OpensInOrder(f: Fences, body: string, i: nat, a: nat, j: nat, b: nat)
    requires OpensGfm(f, body, i, a) && OpensGfm(f, body, j, b) && i <= j
    ensures a <= b
  {
  }

  lemma OpensInside(f: Fences, body: string, i: nat, inside: nat)
    requires OpensGfm(f, body, i, inside)
    ensures i < |body| && i < inside
  {
  }

  lemma GfmSkip(f: Fences, body: string, i: nat, out: seq<Block>)
    requires (forall inside: nat :: !OpensGfm(f, body, i, inside)) && GfmParse(f, body, i + 1, out)
    ensures GfmParse(f, body, i, out)
  {
    hide OpensGfm, NoneFrom, FirstAt;
    if out == [] {
      forall k: nat, inside: nat | i <= k && OpensGfm(f, body, k, inside) ensures NoneFrom(body, f.close, inside) {
        assert k != i;
      }
    } else {
      var inside: nat, close: nat :| IsGfmBlock(f, body, i + 1, out[0], inside, close);
      forall k: nat, other: nat | i <= k < out[0].startIndex ensures !OpensGfm(f, body, k, other) { }
      assert IsGfmBlock(f, body, i, out[0], inside, close);
    }
  }

  ghost predicate AllUnclosed(f: Fences, body: string, from: nat) {
    forall i: nat, inside: nat :: from <= i && OpensGfm(f, body, i, inside) ==> NoneFrom(body, f.close, inside)
  }

  lemma GfmNone(f: Fences, body: string, from: nat, out: seq<Block>)
    requires GfmParse(f, body, from, out)
    ensures AllUnclosed(f, body, from) <==> out == []
  {
    hide OpensGfm, Reads;
    if out != [] {
      var inside: nat, close: nat :| IsGfmBlock(f, body, from, out[0], inside, close);
      assert OpensGfm(f, body, out[0].startIndex, inside) && !NoneFrom(body, f.close, inside);
    }
  }

  /** Once an opening line is not closed, no later one is. */
  lemma GfmUnclosed(f: Fences, body: string, i: nat, inside: nat, out: seq<Block>)
    requires OpensGfm(f, body, i, inside) && NoneFrom(body, f.close, inside) && GfmParse(f, body, inside, out)
    ensures GfmParse(f, body, i, out)
  {
    hide Reads, OpensGfm, GfmParse;
    forall k: nat, other: nat | i <= k && OpensGfm(f, body, k, other) ensures NoneFrom(body, f.close, other) {
      OpensInOrder(f, body, i, inside, k, other);
    }
    OpensInside(f, body, i, inside);
    GfmNone(f, body, inside, out);
    GfmNothingFrom(f, body, i);
  }

  lemma GfmNothingFrom(f: Fences, body: string, from: nat)
    requires AllUnclosed(f, body, from)
    ensures GfmParse(f, body, from, [])
  {
  }

  /** The scanner finds exactly the fenced blocks. */
  lemma {:induction false} GfmExactly(f: Fences, body: string, i: nat)
    requires f.Valid() && i <= |body|
    ensures GfmParse(f, body, i, GfmFrom(f, body, i))
    decreases |body| - i
  {
    hide GfmFrom, OpenLine, IndexOf, FenceAt, Borderless, AtLineStart, OpensGfm, NoneFrom, FirstAt, GfmParse;
    if i == |body| {
      GfmEnds(f, body);
      GfmNoMore(f, body);
    } else {
      match if AtLineStart(body, i) then OpenLine(body[i..], f.open) else Absent
      case Absent =>
        GfmTurnChar(f, body, i);
        GfmExactly(f, body, i + 1);
        forall inside: nat ensures !OpensGfm(f, body, i, inside) { NoOpenLineReads(f, body, i, inside); }
        GfmSkip(f, body, i, GfmFrom(f, body, i + 1));
      case Split(header, inside) =>
        var begin := i + |f.open| + |header| + 1;
        OpenLineByIndex(f, body, i, header, inside);
        OpenLineReads(f, body, i, header, inside);
        IndexReads(body, f.close, begin);
        var close := IndexOf(body, f.close, begin);
        if close == -1 {
          GfmExactly(f, body, begin);
          GfmUnclosedAt(f, body, i, header, inside);
          GfmUnclosed(f, body, i, begin, GfmFrom(f, body, begin));
        } else {
          GfmExactly(f, body, close + |f.close|);
          GfmFencedAt(f, body, i, header, inside, begin, close);
          GfmPut(f, body, i, begin, close, GfmFrom(f, body, close + |f.close|));
        }
    }
  }

  lemma GfmUnclosedAt(f: Fences, body: string, i: nat, header: string, inside: string)
    requires f.Valid() && i < |body| && AtLineStart(body, i) && OpenLine(body[i..], f.open) == Split(header, inside)
    requires i + |f.open| + |header| < |body| && IndexOf(body, f.close, i + |f.open| + |header| + 1) == -1
    ensures GfmFrom(f, body, i) == GfmFrom(f, body, i + |f.open| + |header| + 1)
  {
    hide OpenLine, IndexOf, FenceAt, Borderless, GfmFrom;
    var begin := i + |f.open| + |header| + 1;
    OpenLineByIndex(f, body, i, header, inside);
    FenceByIndex(f, body, body[i..], begin);
    GfmTurnUnclosed(f, body, i, begin);
  }

  lemma GfmFencedAt(f: Fences, body: string, i: nat, header: string, inside: string, begin: nat, close: nat)
    requires f.Valid() && i < |body| && AtLineStart(body, i) && OpenLine(body[i..], f.open) == Split(header, inside)
    requires begin == i + |f.open| + |header| + 1 && begin <= close && close + |f.close| <= |body|
    requires IndexOf(body, f.close, begin) == close
    ensures GfmFrom(f, body, i) == [Block(Gfm, body[begin..close], i, close + |f.close|)] + GfmFrom(f, body, close + |f.close|)
  {
    hide OpenLine, IndexOf, FenceAt, Borderless, GfmFrom, OccursAt;
    OpenLineByIndex(f, body, i, header, inside);
    FenceByIndex(f, body, body[i..], begin);
    LastOfOccurrence(body, f.close, close);
    GfmTurnFenced(f, body, i, body[begin..close], close + |f.close|);
  }

  lemma GfmPut(f: Fences, body: string, i: nat, begin: nat, close: nat, rest: seq<Block>)
    requires OpensGfm(f, body, i, begin) && begin <= close <= |body| && FirstAt(body, f.close, begin, close)
    requires GfmParse(f, body, close + |f.close|, rest)
    ensures GfmParse(f, body, i, [Block(Gfm, body[begin..close], i, close + |f.close|)] + rest)
  {
    hide OpensGfm, FirstAt;
    var block := Block(Gfm, body[begin..close], i, close + |f.close|);
    assert ([block] + rest)[1..] == rest;
    assert IsGfmBlock(f, body, i, block, begin, close);
  }

  lemma GfmNoMore(f: Fences, body: string)
    requires f.Valid()
    ensures GfmParse(f, body, |body|, [])
  {
    hide OpensGfm, NoneFrom;
    forall i: nat, inside: nat | OpensGfm(f, body, i, inside) ensures i < |body| { OpensInside(f, body, i, inside); }
  }
}
