/**
 * One ensemble draw (`_one_draw`): cluster a random subsample with DBSCAN
 * and spread its labels to every point with a 1-nearest-neighbour
 * classifier. The shuffle, DBSCAN and the classifier come in from outside.
 */
module Draw {
  import opened Labels

  /**
   * The subsample size `int(n * pct_exact)`, clamped to `n` as the slice
   * `rids[:k]` clamps it: the largest whole number not above `n * pct`,
   * but never more than `n`.
   */
  function SampleSize(n: nat, pct: real): (k: nat)
    requires pct > 0.0
    ensures k <= n
    ensures k as real <= n as real * pct
    ensures k == n || n as real * pct < (k + 1) as real
  {
    assert n as real * pct >= 0.0;
    var f := (n as real * pct).Floor;
    if f < n then f else n
  }

  /**
   * `min_samples` scaled by the sample fraction: the floor of
   * `min_samples * pct`, but at least 1.
   */
  function ScaledMinSamples(minSamples: int, pct: real): (m: int)
    ensures m >= 1
    ensures minSamples as real * pct < 1.0 ==> m == 1
    ensures minSamples as real * pct >= 1.0 ==>
              m as real <= minSamples as real * pct < m as real + 1.0
  {
    var v := minSamples as real * pct;
    if v < 1.0 then 1 else v.Floor
  }

  /** `perm` is a shuffled `0..n-1`: each id below `n` appears exactly once. */
  predicate IsPermutation(perm: seq<nat>, n: nat) {
    && |perm| == n
    && (forall i :: 0 <= i < n ==> perm[i] < n)
    && (forall i, j :: 0 <= i < j < n ==> perm[i] != perm[j])
  }

  /** The sampled ids: the first `SampleSize` entries of the shuffled ids. */
  function SampleIds(n: nat, pct: real, perm: seq<nat>): (rids: seq<nat>)
    requires pct > 0.0 && IsPermutation(perm, n)
    ensures |rids| == SampleSize(n, pct) && rids == perm[..SampleSize(n, pct)]
    ensures forall j :: 0 <= j < |rids| ==> rids[j] < n
    ensures forall i, j :: 0 <= i < j < |rids| ==> rids[i] != rids[j]
  {
    perm[..SampleSize(n, pct)]
  }

  /** The DBSCAN primitive: points, optional weights, `eps`, `min_samples` to labels. */
  type Dbscan = (seq<Point>, Option<seq<real>>, real, int) -> seq<int>

  /** A fitted-then-queried 1-NN classifier: training points, their labels, query points to labels. */
  type Classifier = (seq<Point>, seq<int>, seq<Point>) -> seq<int>

  /** DBSCAN labels every point it is given. */
  ghost predicate IsDbscan(dbscan: Dbscan) {
    forall pts, w, eps, ms :: |dbscan(pts, w, eps, ms)| == |pts|
  }

  /** The classifier labels every query point, always with one of the training labels. */
  ghost predicate IsClassifier(knn: Classifier) {
    forall train, lbls, query :: 0 < |train| == |lbls| ==>
      |knn(train, lbls, query)| == |query| &&
      forall i :: 0 <= i < |query| ==> knn(train, lbls, query)[i] in lbls
  }

  /** `X_thin`: the coordinates of the sampled points, in sample order. */
  function Thin(xys: seq<Point>, rids: seq<nat>): (pts: seq<Point>)
    requires forall j :: 0 <= j < |rids| ==> rids[j] < |xys|
    ensures |pts| == |rids| && forall j :: 0 <= j < |rids| ==> pts[j] == xys[rids[j]]
  {
    seq(|rids|, j requires 0 <= j < |rids| => xys[rids[j]])
  }

  /** `thin_sample_weight`: the weights restricted to the sample, when there are weights. */
  function ThinWeights(weights: Option<seq<real>>, rids: seq<nat>, n: nat): (w: Option<seq<real>>)
    requires weights.Some? ==> |weights.value| == n
    requires forall j :: 0 <= j < |rids| ==> rids[j] < n
    ensures w.Some? <==> weights.Some?
    ensures w.Some? ==> |w.value| == |rids|
    ensures w.Some? ==> forall j :: 0 <= j < |rids| ==> w.value[j] == weights.value[rids[j]]
  {
    match weights
    case None => None
    case Some(ws) => Some(seq(|rids|, j requires 0 <= j < |rids| => ws[rids[j]]))
  }

  /** Well-formed inputs of one draw. */
  ghost predicate DrawInputs(xys: seq<Point>, weights: Option<seq<real>>, pct: real, perm: seq<nat>) {
    && pct > 0.0
    && IsPermutation(perm, |xys|)
    && SampleSize(|xys|, pct) > 0
    && (weights.Some? ==> |weights.value| == |xys|)
  }

  /** `lbls_thin`: DBSCAN's labels for the sampled points, with the scaled `min_samples`. */
  function ThinLabels(xys: seq<Point>, weights: Option<seq<real>>, pct: real, eps: real, minSamples: int,
                      perm: seq<nat>, dbscan: Dbscan): (lbls: seq<int>)
    requires DrawInputs(xys, weights, pct, perm) && IsDbscan(dbscan)
    ensures |lbls| == SampleSize(|xys|, pct)
    ensures var rids := perm[..SampleSize(|xys|, pct)];
            lbls == dbscan(Thin(xys, rids), ThinWeights(weights, rids, |xys|), eps, ScaledMinSamples(minSamples, pct))
  {
    var rids := SampleIds(|xys|, pct, perm);
    dbscan(Thin(xys, rids), ThinWeights(weights, rids, |xys|), eps, ScaledMinSamples(minSamples, pct))
  }

  /**
   * `_one_draw`: a label for every point, each one a label that DBSCAN gave
   * to some sampled point.
   */
  function OneDraw(xys: seq<Point>, weights: Option<seq<real>>, pct: real, eps: real, minSamples: int,
                   perm: seq<nat>, dbscan: Dbscan, knn: Classifier): (lbls: Column)
    requires DrawInputs(xys, weights, pct, perm) && IsDbscan(dbscan) && IsClassifier(knn)
    ensures |lbls| == |xys|
    ensures forall i :: 0 <= i < |xys| ==> lbls[i] in ThinLabels(xys, weights, pct, eps, minSamples, perm, dbscan)
  {
    var rids := SampleIds(|xys|, pct, perm);
    knn(Thin(xys, rids), ThinLabels(xys, weights, pct, eps, minSamples, perm, dbscan), xys)
  }

  /** The ids `0..n-1` as a set. */
  function Ids(n: nat): (ids: set<nat>)
    ensures forall i: nat :: i in ids <==> i < n
    ensures |ids| == n
  {
    if n == 0 then {} else Ids(n - 1) + {n - 1}
  }

  /** The entries of `s` as a set. */
  function Elems(s: seq<nat>): set<nat> {
    set x | x in s
  }

  /** A sequence without repeats has as many distinct entries as it is long. */
  lemma {:induction false} DistinctCard(s: seq<nat>)
    requires forall i, j :: 0 <= i < j < |s| ==> s[i] != s[j]
    ensures |Elems(s)| == |s|
  {
    if s != [] {
      var init, last := s[..|s| - 1], s[|s| - 1];
      DistinctCard(init);
      assert s == init + [last];
      assert Elems(s) == Elems(init) + {last};
    }
  }

  /** A subset as large as its superset is the superset. */
  lemma {:induction false} SubsetCard(a: set<nat>, b: set<nat>)
    requires a <= b && |a| == |b|
    ensures a == b
  {
    if a != b {
      assert b - a != {} by {
        if b - a == {} {
          forall z | z in b ensures z in a {
            assert z !in b - a;
          }
        }
      }
      var x :| x in b - a;
      SubsetSmaller(a, b - {x});
    }
  }

  lemma {:induction false} SubsetSmaller(a: set<nat>, c: set<nat>)
    requires a <= c
    ensures |a| <= |c|
    decreases |a|
  {
    if a != {} {
      var y :| y in a;
      SubsetSmaller(a - {y}, c - {y});
    }
  }

  /**
   * With `pct_exact = 1` the draw samples every point and keeps
   * `min_samples` as it is.
   */
  lemma FullSample(n: nat, perm: seq<nat>, minSamples: int)
    requires IsPermutation(perm, n) && minSamples >= 1
    ensures SampleIds(n, 1.0, perm) == perm
    ensures forall i: nat :: i < n ==> i in SampleIds(n, 1.0, perm)
    ensures ScaledMinSamples(minSamples, 1.0) == minSamples
  {
    assert SampleSize(n, 1.0) == n;
    DistinctCard(perm);
    SubsetCard(Elems(perm), Ids(n));
    forall i: nat | i < n ensures i in perm {
      assert i in Ids(n);
    }
  }
}
