/**
 * `fdr` from `esda/util.py`: the p-value cut-off that controls the false
 * discovery rate over `n` tests (Benjamini-Hochberg step-up), falling back
 * to the Bonferroni bound `alpha / n` when no p-value passes.
 */
module Util {

  /** Non-increasing order. */
  predicate Descending(s: seq<real>) {
    forall i, j :: 0 <= i < j < |s| ==> s[i] >= s[j]
  }

  /** `x` placed into the descending sequence `s`. */
  function InsertDesc(s: seq<real>, x: real): (r: seq<real>)
    requires Descending(s)
    ensures Descending(r)
    ensures multiset(r) == multiset(s) + multiset{x}
  {
    if s == [] || x >= s[0] then
      ConsDescending(x, s);
      [x] + s
    else
      var rest := InsertDesc(s[1..], x);
      assert s == [s[0]] + s[1..];
      assert multiset([s[0]] + rest) == multiset{s[0]} + multiset(rest);
      HeadBound(s[1..], rest, x, s[0]);
      ConsDescending(s[0], rest);
      [s[0]] + rest
  }

  /** A head no smaller than the first element keeps a descending sequence descending. */
  lemma ConsDescending(h: real, t: seq<real>)
    requires Descending(t) && (t == [] || h >= t[0])
    ensures Descending([h] + t)
  {
    var r := [h] + t;
    forall i, j | 0 <= i < j < |r| ensures r[i] >= r[j] {
      assert r[j] == t[j - 1];
      if i > 0 {
        assert r[i] == t[i - 1];
      }
    }
  }

  /** Inserting a value below `top` into values below `top` keeps them below `top`. */
  lemma HeadBound(s: seq<real>, rest: seq<real>, x: real, top: real)
    requires multiset(rest) == multiset(s) + multiset{x}
    requires x < top && forall i :: 0 <= i < |s| ==> s[i] <= top
    ensures forall i :: 0 <= i < |rest| ==> rest[i] <= top
  {
    forall i | 0 <= i < |rest| ensures rest[i] <= top {
      assert rest[i] in multiset(rest);
      if rest[i] != x {
        assert rest[i] in multiset(s);
      }
    }
  }

  /** `np.sort(pvalues)[::-1]`: the p-values, largest first. */
  function SortDesc(p: seq<real>): (s: seq<real>)
    ensures Descending(s)
    ensures multiset(s) == multiset(p) && |s| == |p|
  {
    if p == [] then []
    else
      assert p == [p[0]] + p[1..];
      var s := InsertDesc(SortDesc(p[1..]), p[0]);
      assert |s| == |multiset(s)|;
      s
  }

  /** The cut-off of rank `k` out of `n`: `k * alpha / n`. */
  function RankCutoff(n: nat, k: nat, alpha: real): real
    requires 0 < n
  {
    k as real * alpha / n as real
  }

  /** For a non-negative `alpha` every rank's cut-off lies between `alpha / n` and `alpha`. */
  lemma CutoffRange(n: nat, k: nat, alpha: real)
    requires 1 <= k <= n
    ensures alpha >= 0.0 ==> alpha / n as real <= RankCutoff(n, k, alpha) <= alpha
  {
    if alpha >= 0.0 {
      var a := alpha / n as real;
      assert a >= 0.0;
      assert RankCutoff(n, k, alpha) == k as real * a;
      assert (k - 1) as real * a >= 0.0;
      assert (n - k) as real * a >= 0.0;
      assert n as real * a == alpha;
    }
  }

  /** `search[i]`: the p-value at position `i` of the descending sort, which has rank `n - i`, is below `p_fdr[i]`. */
  predicate Hit(s: seq<real>, alpha: real, i: nat)
    requires i < |s|
  {
    s[i] < RankCutoff(|s|, |s| - i, alpha)
  }

  /** `np.where(search)[0][0]` from position `i` on, or `|s|` when nothing is found. */
  function FirstHit(s: seq<real>, alpha: real, i: nat): (j: nat)
    requires i <= |s|
    decreases |s| - i
    ensures i <= j <= |s|
    ensures forall m :: i <= m < j ==> !Hit(s, alpha, m)
    ensures j < |s| ==> Hit(s, alpha, j)
  {
    if i == |s| then |s|
    else if Hit(s, alpha, i) then i
    else FirstHit(s, alpha, i + 1)
  }

  /**
   * The cut-off read off the descending sort `s`: the bound at the first
   * hit, or `alpha / n` when there is none.
   */
  function SortedCutoff(s: seq<real>, alpha: real): (c: real)
    requires |s| > 0
    ensures exists k :: 1 <= k <= |s| && c == RankCutoff(|s|, k, alpha)
    ensures alpha >= 0.0 ==> alpha / |s| as real <= c <= alpha
  {
    var j := FirstHit(s, alpha, 0);
    var k := if j == |s| then 1 else |s| - j;
    CutoffRange(|s|, k, alpha);
    assert RankCutoff(|s|, 1, alpha) == alpha / |s| as real by {
      assert 1 as real * alpha == alpha;
    }
    if j == |s| then alpha / |s| as real else RankCutoff(|s|, k, alpha)
  }

  /**
   * `fdr(pvalues, alpha)`. The source divides by `n`, so at least one
   * p-value is needed. The cut-off is always `k * alpha / n` for some rank
   * `k` between 1 and `n`, so for a non-negative `alpha` it lies between
   * `alpha / n` and `alpha`.
   */
  function Fdr(pvalues: seq<real>, alpha: real): (r: real)
    requires |pvalues| > 0
    ensures exists k :: 1 <= k <= |pvalues| && r == RankCutoff(|pvalues|, k, alpha)
    ensures alpha >= 0.0 ==> alpha / |pvalues| as real <= r <= alpha
  {
    SortedCutoff(SortDesc(pvalues), alpha)
  }

  /** Rank `k` (1 = smallest p-value) passes: `p_(k) < k * alpha / n`. */
  predicate RankHit(s: seq<real>, alpha: real, k: nat)
    requires 1 <= k <= |s|
  {
    s[|s| - k] < RankCutoff(|s|, k, alpha)
  }

  lemma RankHitIsHit(s: seq<real>, alpha: real, k: nat)
    requires 1 <= k <= |s|
    ensures RankHit(s, alpha, k) == Hit(s, alpha, |s| - k)
  {
    assert |s| - (|s| - k) == k;
  }

  /** The first hit of the descending scan sits at the largest passing rank. */
  lemma FirstHitIsLargestRank(s: seq<real>, alpha: real, k: nat)
    requires 1 <= k <= |s|
    requires RankHit(s, alpha, k)
    requires forall k' :: k < k' <= |s| ==> !RankHit(s, alpha, k')
    ensures FirstHit(s, alpha, 0) == |s| - k
  {
    var j := FirstHit(s, alpha, 0);
    RankHitIsHit(s, alpha, k);
    if j < |s| - k {
      RankHitIsHit(s, alpha, |s| - j);
      assert false;
    }
  }

  /** With no passing rank the cut-off is the Bonferroni bound `alpha / n`. */
  lemma FdrBonferroni(pvalues: seq<real>, alpha: real)
    requires |pvalues| > 0
    requires forall k :: 1 <= k <= |pvalues| ==> !RankHit(SortDesc(pvalues), alpha, k)
    ensures Fdr(pvalues, alpha) == alpha / |pvalues| as real
  {
    var s := SortDesc(pvalues);
    var j := FirstHit(s, alpha, 0);
    if j < |s| {
      RankHitIsHit(s, alpha, |s| - j);
      assert false;
    }
  }

  /**
   * The step-up rule: when some rank passes, the cut-off is `k * alpha / n`
   * for the largest passing rank `k`.
   */
  lemma FdrStepUp(pvalues: seq<real>, alpha: real, k: nat)
    requires 1 <= k <= |pvalues|
    requires RankHit(SortDesc(pvalues), alpha, k)
    requires forall k' :: k < k' <= |pvalues| ==> !RankHit(SortDesc(pvalues), alpha, k')
    ensures Fdr(pvalues, alpha) == RankCutoff(|pvalues|, k, alpha)
  {
    var s := SortDesc(pvalues);
    FirstHitIsLargestRank(s, alpha, k);
    SortedCutoffAt(s, alpha, k);
  }

  /** A first hit at the position of rank `k` gives the cut-off of rank `k`. */
  lemma SortedCutoffAt(s: seq<real>, alpha: real, k: nat)
    requires 1 <= k <= |s|
    requires FirstHit(s, alpha, 0) == |s| - k
    ensures SortedCutoff(s, alpha) == RankCutoff(|s|, k, alpha)
  {
  }

  /** Two descending sequences with the same elements are the same sequence. */
  lemma {:induction false} DescendingUnique(s: seq<real>, t: seq<real>)
    requires Descending(s) && Descending(t) && multiset(s) == multiset(t)
    ensures s == t
  {
    if s != [] {
      assert |t| == |s| by { assert |multiset(t)| == |multiset(s)|; }
      assert s[0] in multiset(t) && t[0] in multiset(s);
      assert s[0] == t[0];
      assert s == [s[0]] + s[1..] && t == [t[0]] + t[1..];
      assert multiset(s) == multiset{s[0]} + multiset(s[1..]);
      assert multiset(t) == multiset{t[0]} + multiset(t[1..]);
      assert multiset(s[1..]) == multiset(s) - multiset{s[0]};
      assert multiset(t[1..]) == multiset(t) - multiset{t[0]};
      DescendingUnique(s[1..], t[1..]);
    } else {
      assert |t| == 0 by { assert |multiset(t)| == 0; }
    }
  }

  /** The cut-off depends only on which p-values occur how often, not on their order. */
  lemma FdrOrderFree(p: seq<real>, q: seq<real>, alpha: real)
    requires |p| > 0 && multiset(p) == multiset(q)
    ensures |q| > 0 && Fdr(p, alpha) == Fdr(q, alpha)
  {
    assert |q| == |p| by { assert |multiset(q)| == |multiset(p)|; }
    DescendingUnique(SortDesc(p), SortDesc(q));
  }
}
