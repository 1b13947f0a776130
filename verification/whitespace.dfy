/** Python's `str.isspace` and `str.strip`, which the recap extractor applies
    to every bullet and to the title and description split from it. */
module Whitespace {

  /** Python's `str.isspace` for one character: the ASCII whitespace, the
      information separators U+001C..U+001F, and the Unicode space and
      line/paragraph separators. */
  predicate IsSpace(c: char) {
    || ('\t' <= c <= '\r')
    || ('\U{1C}' <= c <= ' ')
    || c == '\U{85}' || c == '\U{A0}' || c == '\U{1680}'
    || ('\U{2000}' <= c <= '\U{200A}')
    || c == '\U{2028}' || c == '\U{2029}' || c == '\U{202F}' || c == '\U{205F}'
    || c == '\U{3000}'
  }

  /** Every character of `s[lo..hi]` is whitespace. */
  predicate SpaceBetween(s: string, lo: int, hi: int)
    requires 0 <= lo <= hi <= |s|
  {
    forall i :: lo <= i < hi ==> IsSpace(s[i])
  }

  predicate AllSpace(s: string) {
    SpaceBetween(s, 0, |s|)
  }

  /** The index of the first non-whitespace character at or after `k`, or
      `|s|` when there is none. */
  function SkipSpace(s: string, k: nat): (n: nat)
    requires k <= |s|
    ensures k <= n <= |s| && SpaceBetween(s, k, n)
    ensures n < |s| ==> !IsSpace(s[n])
    decreases |s| - k
  {
    if k < |s| && IsSpace(s[k]) then SkipSpace(s, k + 1) else k
  }

  /** The index just past the last non-whitespace character before `k`, or
      0 when there is none. */
  function SkipSpaceBack(s: string, k: nat): (m: nat)
    requires k <= |s|
    ensures m <= k && SpaceBetween(s, m, k)
    ensures m > 0 ==> !IsSpace(s[m - 1])
  {
    if k > 0 && IsSpace(s[k - 1]) then SkipSpaceBack(s, k - 1) else k
  }

  /** Where `s.strip()` starts: the number of leading whitespace characters. */
  function StripStart(s: string): (a: nat)
    ensures a <= |s| && SpaceBetween(s, 0, a)
    ensures a < |s| ==> !IsSpace(s[a])
  {
    SkipSpace(s, 0)
  }

  /** Where `s.strip()` ends: after the last non-whitespace character. */
  function StripEnd(s: string): (b: nat)
    ensures StripStart(s) <= b <= |s| && SpaceBetween(s, b, |s|)
    ensures b > StripStart(s) ==> !IsSpace(s[b - 1])
  {
    var a := StripStart(s);
    var b := SkipSpaceBack(s, |s|);
    if b < a then
      assert a < |s| ==> b <= a;
      a
    else b
  }

  /** `s.strip()`: the part of `s` between its leading and its trailing
      whitespace; it neither starts nor ends with whitespace. */
  function Strip(s: string): (r: string)
    ensures r == s[StripStart(s)..StripEnd(s)]
    ensures r == [] || (!IsSpace(r[0]) && !IsSpace(r[|r| - 1]))
  {
    s[StripStart(s)..StripEnd(s)]
  }

  /** The start and end of the stripped part are the only indices with their
      defining properties. */
  lemma StripBoundsUnique(s: string, a: nat, b: nat)
    requires a <= b <= |s|
    requires SpaceBetween(s, 0, a) && SpaceBetween(s, b, |s|)
    requires a < b ==> !IsSpace(s[a]) && !IsSpace(s[b - 1])
    requires a == b ==> a == |s|
    ensures StripStart(s) == a && StripEnd(s) == b
  {
  }

  /** Whitespace runs in `u` and `v` around their seam make one run in `u + v`. */
  lemma SpaceAcross(u: string, v: string, lo: int, hi: int)
    requires 0 <= lo <= |u| && 0 <= hi <= |v|
    requires SpaceBetween(u, lo, |u|) && SpaceBetween(v, 0, hi)
    ensures SpaceBetween(u + v, lo, |u| + hi)
  {
    forall i | lo <= i < |u| + hi ensures IsSpace((u + v)[i]) {
      if i < |u| { assert (u + v)[i] == u[i]; } else { assert (u + v)[i] == v[i - |u|]; }
    }
  }

  /** Stripping ignores any amount of surrounding whitespace:
      `(p + s + q).strip() == s.strip()` for whitespace-only `p` and `q`. */
  lemma StripIgnoresPadding(p: string, s: string, q: string)
    requires AllSpace(p) && AllSpace(q)
    ensures Strip(p + s + q) == Strip(s)
  {
    if StripStart(s) == StripEnd(s) {
      StripPaddedBlank(p, s, q);
    } else {
      StripPaddedText(p, s, q);
    }
  }

  lemma StripPaddedBlank(p: string, s: string, q: string)
    requires AllSpace(p) && AllSpace(q)
    requires StripStart(s) == StripEnd(s)
    ensures Strip(p + s + q) == []
  {
    var a := StripStart(s);
    assert a == |s|;
    SpaceAcross(p, s, 0, |s|);
    SpaceAcross(p + s, q, 0, |q|);
    StripBoundsUnique(p + s + q, |p + s + q|, |p + s + q|);
  }

  lemma StripPaddedText(p: string, s: string, q: string)
    requires AllSpace(p) && AllSpace(q)
    requires StripStart(s) < StripEnd(s)
    ensures Strip(p + s + q) == Strip(s)
  {
    var a, b := StripStart(s), StripEnd(s);
    PaddedBounds(p, s, q, a, b);
    StripBoundsUnique(p + s + q, |p| + a, |p| + b);
    PaddedSlice(p, s, q, a, b);
  }

  /** The stripped bounds of `s`, shifted by `|p|`, have the defining
      properties of stripped bounds in `p + s + q`. */
  lemma PaddedBounds(p: string, s: string, q: string, a: nat, b: nat)
    requires AllSpace(p) && AllSpace(q)
    requires a < b <= |s| && SpaceBetween(s, 0, a) && SpaceBetween(s, b, |s|)
    requires !IsSpace(s[a]) && !IsSpace(s[b - 1])
    ensures SpaceBetween(p + s + q, 0, |p| + a) && SpaceBetween(p + s + q, |p| + b, |p + s + q|)
    ensures !IsSpace((p + s + q)[|p| + a]) && !IsSpace((p + s + q)[|p| + b - 1])
  {
    var ps := p + s;
    SpaceAcross(p, s, 0, a);
    SpaceInPrefix(ps, q, 0, |p| + a);
    SpaceAcross(ps, q, |p| + b, |q|);
    assert (ps + q)[|p| + a] == ps[|p| + a] == s[a];
    assert (ps + q)[|p| + b - 1] == ps[|p| + b - 1] == s[b - 1];
  }

  lemma PaddedSlice(p: string, s: string, q: string, a: nat, b: nat)
    requires a <= b <= |s|
    ensures (p + s + q)[|p| + a..|p| + b] == s[a..b]
  {
    assert (p + s + q)[|p| + a..|p| + b] == (p + s)[|p| + a..|p| + b];
  }

  lemma SpaceInPrefix(u: string, v: string, lo: int, hi: int)
    requires 0 <= lo <= hi <= |u|
    requires SpaceBetween(u, lo, hi)
    ensures SpaceBetween(u + v, lo, hi)
  {
    assert forall i :: lo <= i < hi ==> (u + v)[i] == u[i];
  }

  /** Stripping twice strips once. */
  lemma StripIdempotent(s: string)
    ensures Strip(Strip(s)) == Strip(s)
  {
    var r := Strip(s);
    if r == [] {
      StripBoundsUnique(r, 0, 0);
    } else {
      StripBoundsUnique(r, 0, |r|);
    }
  }
}
