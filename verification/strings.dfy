/** The handful of Python `str` operations the services rely on, with
    contracts that characterise them independently of their bodies. */
module Strings {

  /** `s.find(c)` for a single character: the index of the first
      occurrence of `c`, or -1 when there is none. */
  function Find(s: string, c: char): (r: int)
    ensures -1 <= r < |s|
    ensures r == -1 <==> c !in s
    ensures r >= 0 ==> s[r] == c && c !in s[..r]
  {
    if |s| == 0 then -1
    else if s[0] == c then 0
    else
      var k := Find(s[1..], c);
      assert s[1..][..if k < 0 then 0 else k] == s[1..if k < 0 then 1 else k + 1];
      if k == -1 then -1 else k + 1
  }

  /** `s.rfind(c)` for a single character: the index of the last
      occurrence of `c`, or -1 when there is none. */
  function RFind(s: string, c: char): (r: int)
    ensures -1 <= r < |s|
    ensures r == -1 <==> c !in s
    ensures r >= 0 ==> s[r] == c && c !in s[r + 1..]
  {
    var r := LastBefore(s, c, |s|);
    assert r == -1 ==> s[r + 1..] == s;
    r
  }

  /** The last index below `n` that holds `c`, or -1. */
  function LastBefore(s: string, c: char, n: nat): (r: int)
    requires n <= |s|
    ensures -1 <= r < n
    ensures r >= 0 ==> s[r] == c
    ensures forall k | r < k < n :: s[k] != c
  {
    if n == 0 then -1
    else if s[n - 1] == c then n - 1
    else LastBefore(s, c, n - 1)
  }

  /** The characters for which Python's `str.isspace()` holds, the set
      `str.strip()` removes when called without arguments. */
  predicate IsSpace(c: char) {
    || c == ' ' || c == '\t' || c == '\n' || c == '\r'
    || c == '\U{B}' || c == '\U{C}'
    || ('\U{1C}' <= c <= '\U{1F}')
    || c == '\U{85}' || c == '\U{A0}' || c == '\U{1680}'
    || ('\U{2000}' <= c <= '\U{200A}')
    || c == '\U{2028}' || c == '\U{2029}' || c == '\U{202F}' || c == '\U{205F}'
    || c == '\U{3000}'
  }

  /** Where `s.lstrip()` starts, scanning forward from `i`: the first
      index at or after `i` that is not whitespace, or `|s|`. */
  function StripStartIndex(s: string, i: nat): (r: nat)
    requires i <= |s|
    ensures i <= r <= |s|
    ensures forall k | i <= k < r :: IsSpace(s[k])
    ensures r == |s| || !IsSpace(s[r])
    decreases |s| - i
  {
    if i < |s| && IsSpace(s[i]) then StripStartIndex(s, i + 1) else i
  }

  /** Where `s.rstrip()` ends, scanning backward from `j` but not past `lo`:
      one past the last index before `j` that is not whitespace, or `lo`. */
  function StripEndIndex(s: string, lo: nat, j: nat): (r: nat)
    requires lo <= j <= |s|
    ensures lo <= r <= j
    ensures forall k | r <= k < j :: IsSpace(s[k])
    ensures r == lo || !IsSpace(s[r - 1])
  {
    if lo < j && IsSpace(s[j - 1]) then StripEndIndex(s, lo, j - 1) else j
  }

  /** `r` is what `s.strip()` returns: a slice of `s` obtained by removing
      only whitespace, with no whitespace left at either end. */
  ghost predicate IsStripOf(r: string, s: string) {
    exists i, j | 0 <= i <= j <= |s| && r == s[i..j] ::
      && (forall k | 0 <= k < i :: IsSpace(s[k]))
      && (forall k | j <= k < |s| :: IsSpace(s[k]))
      && (r == [] || (!IsSpace(r[0]) && !IsSpace(r[|r| - 1])))
  }

  /** `s.strip()`. */
  function Strip(s: string): (r: string)
    ensures IsStripOf(r, s)
  {
    var i := StripStartIndex(s, 0);
    var j := StripEndIndex(s, i, |s|);
    assert i < j ==> s[i..j][0] == s[i] && s[i..j][j - i - 1] == s[j - 1];
    s[i..j]
  }

  /** Text without whitespace at either end is its own strip. */
  lemma StripTrimmed(s: string)
    requires s == [] || (!IsSpace(s[0]) && !IsSpace(s[|s| - 1]))
    ensures Strip(s) == s
  {
    assert StripStartIndex(s, 0) == 0;
    assert StripEndIndex(s, 0, |s|) == |s|;
  }

  /** Stripping removes whitespace from the ends only, so stripping twice
      changes nothing more. */
  lemma StripIdempotent(s: string)
    ensures Strip(Strip(s)) == Strip(s)
  {
    StripTrimmed(Strip(s));
  }

  /** `Find` is pinned down by its contract: the first occurrence. */
  lemma FindAt(s: string, c: char, k: int)
    requires 0 <= k < |s| && s[k] == c && c !in s[..k]
    ensures Find(s, c) == k
  {
  }

  /** `RFind` is pinned down by its contract: the last occurrence. */
  lemma RFindAt(s: string, c: char, k: int)
    requires 0 <= k < |s| && s[k] == c && c !in s[k + 1..]
    ensures RFind(s, c) == k
  {
  }

  /** Texts that hold `c` at the same places have the same last `c`. */
  lemma RFindAgree(p: string, q: string, c: char)
    requires |p| == |q| && forall i | 0 <= i < |p| :: (q[i] == c <==> p[i] == c)
    ensures RFind(q, c) == RFind(p, c)
  {
    var r := RFind(p, c);
    if r >= 0 {
      forall i | r + 1 <= i < |q| ensures q[i] != c {
        assert p[r + 1..][i - r - 1] == p[i];
      }
      RFindAt(q, c, r);
    } else {
      forall i | 0 <= i < |q| ensures q[i] != c {
        assert p[i] in p;
      }
    }
  }

  /** The ASCII part of `str.lower()`: maps 'A'..'Z' to 'a'..'z'. */
  function LowerChar(c: char): char {
    if 'A' <= c <= 'Z' then (c as int - 'A' as int + 'a' as int) as char else c
  }

  /** Only letters change case: punctuation stays as it is. */
  lemma LowerCharKeeps(c: char, d: char)
    requires !('a' <= d <= 'z') && !('A' <= d <= 'Z')
    ensures LowerChar(c) == d <==> c == d
  {
    if 'A' <= c <= 'Z' {
      assert LowerChar(c) as int == c as int + 32;
      assert 'a' <= LowerChar(c) <= 'z';
    }
  }

  /** `s.lower()`, character by character. */
  function Lower(s: string): string {
    seq(|s|, i requires 0 <= i < |s| => LowerChar(s[i]))
  }

  /** Lower-casing a text leaves every non-letter where it was. */
  lemma LowerKeepsNonLetter(s: string, d: char)
    requires !('a' <= d <= 'z') && !('A' <= d <= 'Z')
    ensures forall i | 0 <= i < |s| :: Lower(s)[i] == d <==> s[i] == d
  {
    forall i | 0 <= i < |s| ensures Lower(s)[i] == d <==> s[i] == d {
      LowerCharKeeps(s[i], d);
    }
  }

  /** `sep.join(parts)`. */
  function Join(sep: string, parts: seq<string>): string
    decreases |parts|
  {
    if |parts| == 0 then ""
    else if |parts| == 1 then parts[0]
    else parts[0] + sep + Join(sep, parts[1..])
  }

  /** `p` occurs in `s` starting at index `i`. */
  ghost predicate OccursAt(s: string, i: int, p: string) {
    0 <= i <= |s| - |p| && s[i..i + |p|] == p
  }

  /** The pieces occur in `s` one after another, without overlapping. */
  ghost predicate InOrder(pieces: seq<string>, s: string)
    decreases |pieces|
  {
    |pieces| == 0 ||
    exists i :: OccursAt(s, i, pieces[0]) && InOrder(pieces[1..], s[i + |pieces[0]|..])
  }

  /** Prepending a piece, with anything before it, to a text in which the
      remaining pieces occur in order keeps them in order. */
  lemma InOrderCons(pre: string, p: string, ps: seq<string>, rest: string)
    requires InOrder(ps, rest)
    ensures InOrder([p] + ps, pre + p + rest)
  {
    var s := pre + p + rest;
    var i := |pre|;
    var pieces := [p] + ps;
    assert pieces[0] == p && pieces[1..] == ps;
    assert s[i..i + |p|] == p && s[i + |p|..] == rest;
    assert OccursAt(s, i, pieces[0]) && InOrder(pieces[1..], s[i + |pieces[0]|..]);
  }

  /** Every text contains the empty list of pieces, and a piece alone. */
  lemma InOrderSingle(pre: string, p: string, post: string)
    ensures InOrder([p], pre + p + post)
  {
    InOrderCons(pre, p, [], post);
  }
}
