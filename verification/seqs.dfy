/** Sequence helpers with Python's meaning: a per-element map (a list
    comprehension) and the prefix slice `xs[:k]`. */
module Seqs {

  function Min(a: int, b: int): int {
    if a <= b then a else b
  }

  /** `[f(x) for x in xs]` */
  function Map<A, B>(f: A -> B, xs: seq<A>): (r: seq<B>)
    ensures |r| == |xs|
    ensures forall i :: 0 <= i < |xs| ==> r[i] == f(xs[i])
  {
    if xs == [] then [] else [f(xs[0])] + Map(f, xs[1..])
  }

  /** Mapping is element-wise: mapping a concatenation maps each part, so no
      element's image depends on its neighbours. */
  lemma {:induction false} MapAppend<A, B>(f: A -> B, xs: seq<A>, ys: seq<A>)
    ensures Map(f, xs + ys) == Map(f, xs) + Map(f, ys)
  {
    if xs == [] {
      assert xs + ys == ys;
    } else {
      assert (xs + ys)[1..] == xs[1..] + ys;
      MapAppend(f, xs[1..], ys);
    }
  }

  /** `xs[:k]` for any integer `k`: a negative stop counts back from the end
      and is clamped at zero, a stop past the end is clamped at the length. */
  function SlicePrefix<T>(xs: seq<T>, k: int): (r: seq<T>)
    ensures r <= xs
    ensures 0 <= k ==> |r| == Min(k, |xs|)
    ensures k < 0 ==> |r| == (if |xs| + k < 0 then 0 else |xs| + k)
  {
    if k >= |xs| then xs
    else if k >= 0 then xs[..k]
    else if |xs| + k >= 0 then xs[..|xs| + k]
    else []
  }

  /** How many stories `stories[: min(count, n)]` keeps out of `n`: the
      first `min(count, n)` for a non-negative count; a negative count drops
      that many from the end. */
  function KeptCount(n: nat, count: int): (k: nat)
    ensures k <= n
    ensures count >= 0 ==> k == Min(count, n)
  {
    if count >= 0 then Min(count, n) else if n + count >= 0 then n + count else 0
  }

  /** `stories[: min(count, len(stories))]`: the first `KeptCount` stories,
      in their original order. */
  function Truncate<T>(xs: seq<T>, count: int): (r: seq<T>)
    ensures |r| == KeptCount(|xs|, count)
    ensures r == xs[..|r|]
  {
    SlicePrefix(xs, Min(count, |xs|))
  }

  /** Only the first `count` stories matter: whatever follows them is cut
      off. */
  lemma TruncateIgnoresTail<T>(xs: seq<T>, ys: seq<T>, count: int)
    requires 0 <= count <= |xs|
    ensures Truncate(xs + ys, count) == Truncate(xs, count)
  {
    assert (xs + ys)[..count] == xs[..count];
  }

  /** Truncating the records of the items is recording the truncated items. */
  lemma TruncateMap<A, B>(f: A -> B, xs: seq<A>, count: int)
    ensures Truncate(Map(f, xs), count) == Map(f, Truncate(xs, count))
  {
    var k := KeptCount(|xs|, count);
    assert Map(f, xs)[..k] == Map(f, xs[..k]);
  }
}
