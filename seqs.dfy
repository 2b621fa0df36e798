/** Facts about sequences shared by the model: distinctness, order-preserving
    embeddings (subsequences) and filtering. */
module Seqs {

  /** No element occurs twice. */
  ghost predicate Distinct<T>(s: seq<T>) {
    forall a, b :: 0 <= a < b < |s| ==> s[a] != s[b]
  }

  /** `idx` lists, in strictly increasing order, positions of `ys` whose
      elements, read in that order, are exactly `xs`. */
  ghost predicate Embeds<T>(xs: seq<T>, ys: seq<T>, idx: seq<nat>) {
    && |idx| == |xs|
    && (forall k :: 0 <= k < |idx| ==> idx[k] < |ys| && xs[k] == ys[idx[k]])
    && (forall k, l :: 0 <= k < l < |idx| ==> idx[k] < idx[l])
  }

  /** `xs` is obtained from `ys` by deleting elements, keeping the order of the rest. */
  ghost predicate IsSubsequence<T>(xs: seq<T>, ys: seq<T>) {
    exists idx :: Embeds(xs, ys, idx)
  }

  /** Every position shifted right by `d`. */
  function Shift(idx: seq<nat>, d: nat): (r: seq<nat>)
    ensures |r| == |idx|
    ensures forall k :: 0 <= k < |r| ==> r[k] == idx[k] + d
  {
    seq(|idx|, k requires 0 <= k < |idx| => idx[k] + d)
  }

  /** The elements of `s` that satisfy `keep`, in their order in `s`. */
  function Filter<T(!new)>(keep: T -> bool, s: seq<T>): (r: seq<T>)
    ensures |r| <= |s|
    ensures forall x :: x in r <==> x in s && keep(x)
  {
    if s == [] then []
    else (if keep(s[0]) then [s[0]] else []) + Filter(keep, s[1..])
  }

  lemma EmbedsSkip<T>(y: T, xs: seq<T>, ys: seq<T>, idx: seq<nat>)
    requires Embeds(xs, ys, idx)
    ensures Embeds(xs, [y] + ys, Shift(idx, 1))
  {
  }

  lemma EmbedsKeep<T>(y: T, xs: seq<T>, ys: seq<T>, idx: seq<nat>)
    requires Embeds(xs, ys, idx)
    ensures Embeds([y] + xs, [y] + ys, [0] + Shift(idx, 1))
  {
  }

  /** Embeddings compose: a subsequence of a subsequence is a subsequence. */
  lemma EmbedsCompose<T>(xs: seq<T>, ys: seq<T>, zs: seq<T>, i: seq<nat>, j: seq<nat>)
    requires Embeds(xs, ys, i) && Embeds(ys, zs, j)
    ensures Embeds(xs, zs, seq(|i|, k requires 0 <= k < |i| && i[k] < |j| => j[i[k]]))
  {
  }

  /** Positions of an embedding never move left: the k-th kept element came from position k or later. */
  lemma {:induction false} EmbedsAdvance<T>(xs: seq<T>, ys: seq<T>, idx: seq<nat>, k: nat)
    requires Embeds(xs, ys, idx) && k < |idx|
    ensures k <= idx[k]
  {
    if k > 0 {
      EmbedsAdvance(xs, ys, idx, k - 1);
    }
  }

  /** Dropping the first `j` elements of both sides keeps a subsequence a subsequence. */
  lemma EmbedsSuffix<T>(xs: seq<T>, ys: seq<T>, idx: seq<nat>, j: nat)
    requires Embeds(xs, ys, idx) && j <= |xs|
    ensures j <= |ys| && IsSubsequence(xs[j..], ys[j..])
  {
    if j > 0 {
      EmbedsAdvance(xs, ys, idx, |xs| - 1);
    }
    forall k | j <= k < |idx| ensures j <= idx[k] {
      EmbedsAdvance(xs, ys, idx, k);
    }
    var idx' := seq(|xs| - j, k requires 0 <= k < |xs| - j => idx[k + j] - j);
    assert Embeds(xs[j..], ys[j..], idx');
  }

  /** A subsequence of a suffix of `ys` is one of the same suffix of any
      sequence `ys` is a subsequence of. */
  lemma SubsequenceOfSuffix<T>(xs: seq<T>, ys: seq<T>, zs: seq<T>, j: nat)
    requires IsSubsequence(ys, zs) && j <= |ys| && IsSubsequence(xs, ys[j..])
    ensures j <= |zs| && IsSubsequence(xs, zs[j..])
  {
    var n :| Embeds(ys, zs, n);
    EmbedsSuffix(ys, zs, n, j);
    var r :| Embeds(xs, ys[j..], r);
    var m :| Embeds(ys[j..], zs[j..], m);
    EmbedsCompose(xs, ys[j..], zs[j..], r, m);
  }

  /** A subsequence of a sequence without repetitions has none either. */
  lemma EmbedsDistinct<T>(xs: seq<T>, ys: seq<T>, idx: seq<nat>)
    requires Embeds(xs, ys, idx) && Distinct(ys)
    ensures Distinct(xs)
  {
  }

  lemma {:induction false} FilterIsSubsequence<T(!new)>(keep: T -> bool, s: seq<T>)
    ensures IsSubsequence(Filter(keep, s), s)
  {
    if s == [] {
      assert Embeds([], s, []);
    } else {
      FilterIsSubsequence(keep, s[1..]);
      var idx :| Embeds(Filter(keep, s[1..]), s[1..], idx);
      assert [s[0]] + s[1..] == s;
      if keep(s[0]) {
        EmbedsKeep(s[0], Filter(keep, s[1..]), s[1..], idx);
      } else {
        EmbedsSkip(s[0], Filter(keep, s[1..]), s[1..], idx);
      }
    }
  }

  lemma FilterDistinct<T(!new)>(keep: T -> bool, s: seq<T>)
    requires Distinct(s)
    ensures Distinct(Filter(keep, s))
  {
    FilterIsSubsequence(keep, s);
    var idx :| Embeds(Filter(keep, s), s, idx);
    EmbedsDistinct(Filter(keep, s), s, idx);
  }
}
