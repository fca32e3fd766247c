/**
  The handful of Python `str` and slice operations the helpers are written with, defined
  with Python's own semantics: slices clamp their bounds and count negative indices from
  the end, `find`/`rfind` return -1 when the character is absent, `replace` rewrites every
  non-overlapping occurrence from left to right, and `join` puts the separator between
  neighbours only.
*/
module PyText {

  /** Python's normalisation of one slice bound against a sequence of length n. */
  function ClampIndex(i: int, n: nat): (r: nat)
    ensures r <= n
    ensures 0 <= i <= n ==> r == i
    ensures i < 0 && 0 <= i + n ==> r == i + n
  {
    if i < 0 then (if i + n < 0 then 0 else i + n)
    else if i > n then n
    else i
  }

  /** `s[start:stop]` with step 1. */
  function Slice<T>(s: seq<T>, start: int, stop: int): (r: seq<T>)
    ensures |r| <= |s|
    ensures 0 <= start <= stop <= |s| ==> r == s[start..stop]
  {
    var lo := ClampIndex(start, |s|);
    var hi := ClampIndex(stop, |s|);
    if lo < hi then s[lo..hi] else []
  }

  /** A stop of -1 ends the slice one element before the end. */
  lemma SliceToLast<T>(s: seq<T>, start: int)
    requires 0 <= start <= |s|
    ensures Slice(s, start, -1) == if start < |s| - 1 then s[start..|s| - 1] else []
  {
    assert ClampIndex(start, |s|) == start;
    assert ClampIndex(-1, |s|) == if |s| == 0 then 0 else |s| - 1;
  }

  /** Whatever the bounds, a slice is one contiguous run of the sequence. */
  lemma SliceIsContiguous<T>(s: seq<T>, start: int, stop: int)
    ensures exists lo, hi :: 0 <= lo <= hi <= |s| && Slice(s, start, stop) == s[lo..hi]
  {
    var lo := ClampIndex(start, |s|);
    var hi := ClampIndex(stop, |s|);
    if lo < hi {
      assert Slice(s, start, stop) == s[lo..hi];
    } else {
      assert Slice(s, start, stop) == s[lo..lo];
    }
  }

  /** `s.find(c)`: the first index holding c, or -1. */
  function Find(s: string, c: char): (r: int)
    ensures -1 <= r < |s|
    ensures r == -1 <==> c !in s
    ensures r >= 0 ==> s[r] == c && c !in s[..r]
  {
    if s == [] then -1
    else if s[0] == c then 0
    else
      var k := Find(s[1..], c);
      assert s == [s[0]] + s[1..];
      if k == -1 then -1
      else
        assert s[..k + 1] == [s[0]] + s[1..][..k];
        k + 1
  }

  /** `s.rfind(c)`: the last index holding c, or -1. */
  function RFind(s: string, c: char): (r: int)
    ensures -1 <= r < |s|
    ensures r == -1 <==> c !in s
    ensures r >= 0 ==> s[r] == c && c !in s[r + 1..]
  {
    if s == [] then -1
    else if s[|s| - 1] == c then |s| - 1
    else
      var k := RFind(s[..|s| - 1], c);
      assert s == s[..|s| - 1] + [s[|s| - 1]];
      assert k >= 0 ==> s[k + 1..] == s[..|s| - 1][k + 1..] + [s[|s| - 1]];
      k
  }

  /** A c with none before it is the one `find` reports. */
  lemma FindFirst(s: string, c: char, i: nat)
    requires i < |s| && s[i] == c && c !in s[..i]
    ensures Find(s, c) == i
  {
    var k := Find(s, c);
    forall j | 0 <= j < i ensures s[j] != c {
      assert s[..i][j] == s[j];
    }
    forall j | 0 <= j < k ensures s[j] != c {
      assert s[..k][j] == s[j];
    }
  }

  /** A c with none after it is the one `rfind` reports. */
  lemma RFindLast(s: string, c: char, i: nat)
    requires i < |s| && s[i] == c
    requires forall j :: i < j < |s| ==> s[j] != c
    ensures RFind(s, c) == i
  {
    var k := RFind(s, c);
    assert s[i] in s;
    forall j | k < j < |s| ensures s[j] != c {
      assert s[k + 1..][j - k - 1] == s[j];
    }
  }

  /** `s.startswith(p)`. */
  predicate StartsWith(s: string, p: string) {
    |p| <= |s| && s[..|p|] == p
  }

  /** One differing character within the prefix's length rules `startswith` out. */
  lemma DiffersAt(s: string, p: string, i: nat)
    requires i < |s| && i < |p| && s[i] != p[i]
    ensures !StartsWith(s, p)
  {
    if |p| <= |s| {
      assert s[..|p|][i] == s[i];
    }
  }

  /** `s.endswith(p)`. */
  predicate EndsWith(s: string, p: string) {
    |p| <= |s| && s[|s| - |p|..] == p
  }

  /** `t in s` for strings: t occurs somewhere in s. */
  predicate Contains(s: string, t: string)
    decreases |s|
  {
    if |s| < |t| then false
    else s[..|t|] == t || Contains(s[1..], t)
  }

  /** `s.replace(pat, sub)`: every non-overlapping occurrence of pat, scanning left to right. */
  function Replace(s: string, pat: string, sub: string): string
    requires pat != []
    decreases |s|
  {
    if |s| < |pat| then s
    else if s[..|pat|] == pat then sub + Replace(s[|pat|..], pat, sub)
    else [s[0]] + Replace(s[1..], pat, sub)
  }

  /** Replacing a pattern that does not occur changes nothing. */
  lemma {:induction false} ReplaceAbsent(s: string, pat: string, sub: string)
    requires pat != []
    requires !Contains(s, pat)
    ensures Replace(s, pat, sub) == s
    decreases |s|
  {
    if |s| >= |pat| {
      ReplaceAbsent(s[1..], pat, sub);
      assert [s[0]] + s[1..] == s;
    }
  }

  /** A replacement no longer than the pattern never lengthens the text, and a strictly
      shorter one shortens it as soon as the pattern occurs. */
  lemma {:induction false} ReplaceLength(s: string, pat: string, sub: string)
    requires pat != [] && |sub| <= |pat|
    ensures |Replace(s, pat, sub)| <= |s|
    ensures |sub| < |pat| && Contains(s, pat) ==> |Replace(s, pat, sub)| < |s|
    decreases |s|
  {
    if |s| >= |pat| {
      if s[..|pat|] == pat {
        ReplaceLength(s[|pat|..], pat, sub);
      } else {
        ReplaceLength(s[1..], pat, sub);
      }
    }
  }

  /** With a strictly shorter replacement, `replace` is the identity exactly when the
      pattern does not occur. */
  lemma ReplaceFixedIff(s: string, pat: string, sub: string)
    requires pat != [] && |sub| < |pat|
    ensures Replace(s, pat, sub) == s <==> !Contains(s, pat)
  {
    ReplaceLength(s, pat, sub);
    if !Contains(s, pat) {
      ReplaceAbsent(s, pat, sub);
    }
  }

  /** A pattern holding a character that the text lacks does not occur in it. */
  lemma {:induction false} NotContainsForeignChar(s: string, t: string, c: char)
    requires c in t && c !in s
    ensures !Contains(s, t)
    decreases |s|
  {
    if |s| >= |t| {
      var i := Find(t, c);
      assert s[..|t|][i] == s[i];
      assert forall j | 0 <= j < |s[1..]| :: s[1..][j] == s[j + 1];
      NotContainsForeignChar(s[1..], t, c);
    }
  }

  /** `sep.join(xs)`. */
  function Join(xs: seq<string>, sep: string): string
  {
    if xs == [] then ""
    else if |xs| == 1 then xs[0]
    else xs[0] + sep + Join(xs[1..], sep)
  }

  /** How many copies of c open s. */
  function LeadingRun(s: string, c: char): (k: nat)
    ensures k <= |s| && (k < |s| ==> s[k] != c)
    ensures forall i :: 0 <= i < k ==> s[i] == c
  {
    if s != [] && s[0] == c then 1 + LeadingRun(s[1..], c) else 0
  }

  /** How many copies of c close s. */
  function TrailingRun(s: string, c: char): (k: nat)
    ensures k <= |s| && (k < |s| ==> s[|s| - 1 - k] != c)
    ensures forall i :: |s| - k <= i < |s| ==> s[i] == c
  {
    if s != [] && s[|s| - 1] == c then 1 + TrailingRun(s[..|s| - 1], c) else 0
  }

  /** `s.lstrip(c)` for one character c. */
  function StripLeft(s: string, c: char): (r: string)
    ensures |r| <= |s| && r == s[|s| - |r|..]
    ensures r != [] ==> r[0] != c
    ensures forall i :: 0 <= i < |s| - |r| ==> s[i] == c
  {
    s[LeadingRun(s, c)..]
  }

  /** `s.rstrip(c)` for one character c. */
  function StripRight(s: string, c: char): (r: string)
    ensures |r| <= |s| && r == s[..|r|]
    ensures r != [] ==> r[|r| - 1] != c
    ensures forall i :: |r| <= i < |s| ==> s[i] == c
  {
    s[..|s| - TrailingRun(s, c)]
  }

  /** `s.strip(c)`: c cut away on both sides. */
  function Strip(s: string, c: char): (r: string)
    ensures |r| <= |s|
    ensures r != [] ==> r[0] != c && r[|r| - 1] != c
    ensures (s == [] || (s[0] != c && s[|s| - 1] != c)) ==> r == s
  {
    StripRight(StripLeft(s, c), c)
  }

  /** `strip` changes nothing exactly when neither end of the text is c. */
  lemma StripFixedIff(s: string, c: char)
    ensures Strip(s, c) == s <==> s == [] || (s[0] != c && s[|s| - 1] != c)
  {
  }

  /** `strip` removes something as soon as it shortens the text at all. */
  lemma StripSameLength(s: string, c: char)
    ensures |Strip(s, c)| == |s| ==> Strip(s, c) == s
  {
    var left := StripLeft(s, c);
    if |Strip(s, c)| == |s| {
      assert |left| == |s|;
      assert left == s[0..];
    }
  }

  /** `s.split(c)[0]`: the text before the first c, or all of s. */
  function SplitHead(s: string, c: char): (r: string)
    ensures c !in r
    ensures c in s ==> |r| < |s| && s[..|r| + 1] == r + [c]
    ensures c !in s ==> r == s
  {
    var k := Find(s, c);
    if k < 0 then s else s[..k]
  }
  /** Splitting at the c that opens the tail gives back the head. */
  lemma SplitHeadAt(head: string, tail: string, c: char)
    requires c !in head && tail != [] && tail[0] == c
    ensures SplitHead(head + tail, c) == head
  {
    var s := head + tail;
    assert s[..|head|] == head;
    FindFirst(s, c, |head|);
  }

}
