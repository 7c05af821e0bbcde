/** String searching shared by the link scanner and the suggestion parser. */
module Text {

  datatype Split = Absent | Split(before: string, after: string)

  /** Cuts `s` at the first `c`. */
  function SplitAt(s: string, c: char): (r: Split)
    ensures r.Absent? <==> c !in s
    ensures r.Split? ==> s == r.before + ([c] + r.after) && c !in r.before
  {
    if s == "" then Absent
    else if s[0] == c then
      assert s == [] + ([c] + s[1..]);
      Split([], s[1..])
    else match SplitAt(s[1..], c)
      case Absent => Absent
      case Split(before, after) =>
        assert s == ([s[0]] + before) + ([c] + after);
        Split([s[0]] + before, after)
  }

  lemma {:induction false} SplitAtFirst(before: string, c: char, after: string)
    requires c !in before
    ensures SplitAt(before + ([c] + after), c) == Split(before, after)
  {
    var tail := [c] + after;
    var s := before + tail;
    if before == [] {
      assert s == tail && s[0] == c && s[1..] == after;
    } else {
      assert s[0] == before[0] != c;
      assert s[1..] == before[1..] + tail;
      SplitAtFirst(before[1..], c, after);
      assert SplitAt(s, c) == Split([s[0]] + before[1..], after);
      assert [before[0]] + before[1..] == before;
    }
  }

  predicate StartsWith(s: string, prefix: string) {
    |prefix| <= |s| && s[..|prefix|] == prefix
  }

  /** The characters removed by ECMAScript `String.prototype.trim`. */
  predicate IsSpace(c: char) {
    || '\t' <= c <= '\r' || c == ' ' || c == '\U{a0}' || c == '\U{1680}'
    || '\U{2000}' <= c <= '\U{200a}' || c == '\U{2028}' || c == '\U{2029}'
    || c == '\U{202f}' || c == '\U{205f}' || c == '\U{3000}' || c == '\U{feff}'
  }

  function TrimStart(s: string): string {
    if s != "" && IsSpace(s[0]) then TrimStart(s[1..]) else s
  }

  function TrimEnd(s: string): string {
    if s != "" && IsSpace(s[|s| - 1]) then TrimEnd(s[..|s| - 1]) else s
  }

  function Trim(s: string): string {
    TrimEnd(TrimStart(s))
  }

  predicate Trimmed(s: string) {
    s == "" || (!IsSpace(s[0]) && !IsSpace(s[|s| - 1]))
  }

  lemma TrimOfTrimmed(s: string)
    requires Trimmed(s)
    ensures Trim(s) == s
  {
  }

  lemma {:induction false} TrimEndIsTrimmed(s: string)
    ensures TrimEnd(s) <= s && (TrimEnd(s) != "" ==> !IsSpace(TrimEnd(s)[|TrimEnd(s)| - 1]))
    decreases |s|
  {
    if s != "" && IsSpace(s[|s| - 1]) { TrimEndIsTrimmed(s[..|s| - 1]); }
  }

  lemma {:induction false} TrimStartIsTrimmed(s: string)
    ensures var t := TrimStart(s);
      |t| <= |s| && s[|s| - |t|..] == t && (t != "" ==> !IsSpace(t[0]))
    decreases |s|
  {
    if s != "" && IsSpace(s[0]) { TrimStartIsTrimmed(s[1..]); }
  }

  lemma TrimIsTrimmed(s: string)
    ensures Trimmed(Trim(s)) && forall c :: c !in s ==> c !in Trim(s)
  {
    TrimStartIsTrimmed(s);
    TrimEndIsTrimmed(TrimStart(s));
  }

  /** Trimming cuts white space off both ends, all of it and nothing else. */
  lemma TrimCutsSpace(s: string) returns (i: nat, j: nat)
    ensures i <= j <= |s| && Trim(s) == s[i..j] && Trimmed(Trim(s))
    ensures forall k :: 0 <= k < i || j <= k < |s| ==> IsSpace(s[k])
  {
    TrimIsTrimmed(s);
    i := TrimStartCuts(s);
    j := TrimEndCuts(s[i..]);
    assert forall k :: 0 <= k < |s| - i ==> s[i..][k] == s[i + k];
    assert s[i..][..j] == s[i..i + j];
    j := i + j;
    assert forall k :: j <= k < |s| ==> s[k] == s[i..][k - i];
  }

  lemma {:induction false} TrimStartCuts(s: string) returns (i: nat)
    ensures i <= |s| && TrimStart(s) == s[i..] && forall k :: 0 <= k < i ==> IsSpace(s[k])
  {
    hide IsSpace;
    if s != "" && IsSpace(s[0]) {
      i := TrimStartCuts(s[1..]);
      assert forall k :: 1 <= k < i + 1 ==> s[k] == s[1..][k - 1];
      i := i + 1;
    } else {
      i := 0;
    }
  }

  lemma {:induction false} TrimEndCuts(s: string) returns (j: nat)
    ensures j <= |s| && TrimEnd(s) == s[..j] && forall k :: j <= k < |s| ==> IsSpace(s[k])
  {
    hide IsSpace;
    if s != "" && IsSpace(s[|s| - 1]) {
      j := TrimEndCuts(s[..|s| - 1]);
      assert s[..|s| - 1][..j] == s[..j];
      assert forall k :: j <= k < |s| - 1 ==> s[k] == s[..|s| - 1][k];
    } else {
      j := |s|;
    }
  }

  /** Trimming keeps a prefix that neither starts nor ends with white space. */
  lemma TrimKeepsPrefix(s: string, prefix: string)
    requires StartsWith(s, prefix) && prefix != ""
    requires !IsSpace(prefix[0]) && !IsSpace(prefix[|prefix| - 1])
    ensures StartsWith(Trim(s), prefix)
  {
    assert s[0] == prefix[0];
    TrimEndKeepsPrefix(s, prefix);
  }

  lemma {:induction false} TrimEndKeepsPrefix(s: string, prefix: string)
    requires StartsWith(s, prefix) && prefix != "" && !IsSpace(prefix[|prefix| - 1])
    ensures StartsWith(TrimEnd(s), prefix)
    decreases |s|
  {
    if IsSpace(s[|s| - 1]) {
      assert s[|prefix| - 1] == prefix[|prefix| - 1];
      assert s[..|s| - 1][..|prefix|] == prefix;
      TrimEndKeepsPrefix(s[..|s| - 1], prefix);
    }
  }

  // ---------------------------------------------------------------------------
  // Searching for a pattern
  // ---------------------------------------------------------------------------

  predicate OccursAt(s: string, p: string, i: nat) {
    i <= |s| && StartsWith(s[i..], p)
  }

  ghost predicate Contains(s: string, p: string) {
    exists i: nat :: OccursAt(s, p, i)
  }

  /** `s.indexOf(p, from)`. */
  function IndexOf(s: string, p: string, from: nat): (i: int)
    requires from <= |s|
    ensures i == -1 || from <= i
    ensures i != -1 ==> i + |p| <= |s| && OccursAt(s, p, i)
    decreases |s| - from
  {
    if OccursAt(s, p, from) then from
    else if from == |s| then -1
    else IndexOf(s, p, from + 1)
  }

  /** `indexOf` answers the first occurrence, or -1 when there is none. */
  lemma {:induction false} IndexOfFirst(s: string, p: string, from: nat)
    requires from <= |s|
    ensures var i := IndexOf(s, p, from);
      && (i != -1 ==> OccursAt(s, p, i))
      && forall k: nat :: from <= k < (if i == -1 then |s| + 1 else i) ==> !OccursAt(s, p, k)
    decreases |s| - from
  {
    hide StartsWith;
    if !OccursAt(s, p, from) && from < |s| { IndexOfFirst(s, p, from + 1); }
  }

  /** Cuts `s` around the first occurrence of `p`. */
  function Cut(s: string, p: string): (r: Split)
    ensures r.Split? ==> |s| == |r.before| + |p| + |r.after|
  {
    var i := IndexOf(s, p, 0);
    if i == -1 then Absent else Split(s[..i], s[i + |p|..])
  }

  lemma CutAbsent(s: string, p: string)
    requires !Contains(s, p)
    ensures Cut(s, p) == Absent
  {
    IndexOfFirst(s, p, 0);
    assert forall i: nat :: !OccursAt(s, p, i);
  }

  /** The first or the last character of `p` occurs nowhere else in it, so `p` cannot overlap itself. */
  predicate Borderless(p: string) {
    p != "" && ((forall k :: 0 < k < |p| ==> p[k] != p[0])
             || (forall k :: 0 <= k < |p| - 1 ==> p[k] != p[|p| - 1]))
  }

  /** A pattern written after a text free of it does not occur earlier. */
  lemma NoEarlier(before: string, p: string, after: string, i: nat)
    requires Borderless(p) && i < |before| && !OccursAt(before, p, i)
    ensures !OccursAt(before + (p + after), p, i)
  {
    var s := before + (p + after);
    if i + |p| <= |before| {
      assert s[i..][..|p|] == before[i..][..|p|];
    } else if i + |p| <= |s| {
      var x := s[i..][..|p|];
      assert x[|before| - i] == s[|before|] == p[0];
      assert x[|p| - 1] == s[i + |p| - 1] == p[i + |p| - 1 - |before|];
    }
  }

  lemma CutFirst(before: string, p: string, after: string)
    requires Borderless(p) && !Contains(before, p)
    ensures Cut(before + (p + after), p) == Split(before, after)
  {
    var s := before + (p + after);
    forall i: nat | i < |before| ensures !OccursAt(s, p, i) { NoEarlier(before, p, after, i); }
    assert s[|before|..] == p + after;
    assert OccursAt(s, p, |before|);
    IndexOfFirst(s, p, 0);
    assert IndexOf(s, p, 0) == |before|;
    assert s[|before| + |p|..] == after;
  }

  /** A pattern without `c` does not appear by appending `c`. */
  lemma ContainsAppend(s: string, c: char, p: string)
    requires !Contains(s, p) && c !in p && p != ""
    ensures !Contains(s + [c], p)
  {
    forall i: nat ensures !OccursAt(s + [c], p, i) {
      if i + |p| <= |s| {
        assert (s + [c])[i..][..|p|] == s[i..][..|p|];
        assert !OccursAt(s, p, i);
      } else if i + |p| == |s| + 1 {
        assert (s + [c])[i..][..|p|][|p| - 1] == c;
      }
    }
  }

  lemma OccursInSuffix(s: string, p: string, from: nat, k: nat)
    requires from + k <= |s|
    ensures OccursAt(s[from..], p, k) <==> OccursAt(s, p, from + k)
  {
    assert s[from..][k..] == s[from + k..];
  }

  lemma IndexOfInSuffix(s: string, p: string, from: nat)
    requires from <= |s|
    ensures var i, j := IndexOf(s, p, from), IndexOf(s[from..], p, 0);
      if i == -1 then j == -1 else j == i - from
  {
    hide OccursAt, IndexOf;
    var i, j := IndexOf(s, p, from), IndexOf(s[from..], p, 0);
    IndexOfFirst(s, p, from);
    IndexOfFirst(s[from..], p, 0);
    if i != -1 { OccursInSuffix(s, p, from, i - from); }
    if j != -1 { OccursInSuffix(s, p, from, j); }
  }

  /** `indexOf` from a position is the cut of the remaining text. */
  lemma IndexOfIsCut(s: string, p: string, from: nat)
    requires from <= |s|
    ensures var i := IndexOf(s, p, from);
      Cut(s[from..], p) == if i == -1 then Absent else Split(s[from..i], s[i + |p|..])
  {
    hide OccursAt, IndexOf;
    IndexOfInSuffix(s, p, from);
    var i := IndexOf(s, p, from);
    if i != -1 {
      assert s[from..][..i - from] == s[from..i];
      assert s[from..][i - from + |p|..] == s[i + |p|..];
    }
  }
}
