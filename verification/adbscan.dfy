/**
 * The `ADBSCAN` estimator: `fit` builds one label column per draw, aligns
 * the columns, votes, and turns low-confidence points into noise.
 */
module Adbscan {
  import opened Labels
  import opened Remap
  import opened Consensus
  import opened Draw

  /** What `fit` needs of its inputs and collaborators. */
  ghost predicate FitInputs(xys: seq<Point>, weights: Option<seq<real>>, pct: real, perms: seq<seq<nat>>,
                            dbscan: Dbscan, knn: Classifier) {
    && |perms| > 0 && |xys| > 0
    && (forall r :: 0 <= r < |perms| ==> DrawInputs(xys, weights, pct, perms[r]))
    && IsDbscan(dbscan) && IsClassifier(knn)
  }

  /** The `solus` table: draw `r` uses the `r`-th shuffle. */
  function Draws(xys: seq<Point>, weights: Option<seq<real>>, pct: real, eps: real, minSamples: int,
                 perms: seq<seq<nat>>, dbscan: Dbscan, knn: Classifier): (solus: Matrix)
    requires FitInputs(xys, weights, pct, perms, dbscan, knn)
    ensures |solus| == |perms| && Shaped(solus, |xys|)
    ensures forall r :: 0 <= r < |perms| ==> solus[r] == OneDraw(xys, weights, pct, eps, minSamples, perms[r], dbscan, knn)
  {
    seq(|perms|, r requires 0 <= r < |perms| => OneDraw(xys, weights, pct, eps, minSamples, perms[r], dbscan, knn))
  }

  /** The votes table `fit` computes before thresholding. */
  function FitVotes(xys: seq<Point>, weights: Option<seq<real>>, pct: real, eps: real, minSamples: int,
                    perms: seq<seq<nat>>, dbscan: Dbscan, knn: Classifier, query: Query): (votes: seq<Vote>)
    requires FitInputs(xys, weights, pct, perms, dbscan, knn) && IsNearestQuery(query)
    ensures |votes| == |xys|
    ensures var aligned := Align(Draws(xys, weights, pct, eps, minSamples, perms, dbscan, knn), xys, query);
            forall i :: 0 <= i < |xys| ==>
              votes[i].lbl in Row(aligned, i) && 0.0 < votes[i].pct <= 1.0 &&
              votes[i].pct == Count(Row(aligned, i), votes[i].lbl) as real / |perms| as real
    ensures var aligned := Align(Draws(xys, weights, pct, eps, minSamples, perms, dbscan, knn), xys, query);
            forall i, l {:trigger Count(Row(aligned, i), l)} :: 0 <= i < |xys| ==>
              Count(Row(aligned, i), l) <= Count(Row(aligned, i), votes[i].lbl)
  {
    Ensemble(Align(Draws(xys, weights, pct, eps, minSamples, perms, dbscan, knn), xys, query))
  }

  /**
   * When the reference draw found a cluster, every final label is noise or
   * a label of the reference draw.
   */
  lemma FitLabelsFromReference(xys: seq<Point>, weights: Option<seq<real>>, pct: real, eps: real, minSamples: int,
                               perms: seq<seq<nat>>, dbscan: Dbscan, knn: Classifier, query: Query, thr: real)
    requires FitInputs(xys, weights, pct, perms, dbscan, knn) && IsNearestQuery(query)
    requires var drawn := Draws(xys, weights, pct, eps, minSamples, perms, dbscan, knn);
             Centroids(xys, drawn[Reference(drawn)]) != map[]
    ensures var drawn := Draws(xys, weights, pct, eps, minSamples, perms, dbscan, knn);
            var lbls := Thresholded(FitVotes(xys, weights, pct, eps, minSamples, perms, dbscan, knn, query), thr);
            forall i :: 0 <= i < |lbls| ==> lbls[i] == Noise || lbls[i] in drawn[Reference(drawn)]
  {
    var drawn := Draws(xys, weights, pct, eps, minSamples, perms, dbscan, knn);
    AlignedIntoReference(drawn, xys, query);
    ThresholdedLabelsFrom(Align(drawn, xys, query), thr, drawn[Reference(drawn)]);
  }

  /**
   * With a single draw and a threshold of at most 1, `fit` returns that
   * draw's labels unchanged: each point's only vote has share 1.
   */
  lemma SingleDrawLabels(xys: seq<Point>, weights: Option<seq<real>>, pct: real, eps: real, minSamples: int,
                         perms: seq<seq<nat>>, dbscan: Dbscan, knn: Classifier, query: Query, thr: real)
    requires FitInputs(xys, weights, pct, perms, dbscan, knn) && IsNearestQuery(query)
    requires |perms| == 1 && thr <= 1.0
    ensures Thresholded(FitVotes(xys, weights, pct, eps, minSamples, perms, dbscan, knn, query), thr)
            == Draws(xys, weights, pct, eps, minSamples, perms, dbscan, knn)[0]
  {
    var drawn := Draws(xys, weights, pct, eps, minSamples, perms, dbscan, knn);
    AlignSingleRun(drawn, xys, query);
    SingleRunVotes(drawn, thr);
  }

  /**
   * The repetition loop of `fit`: a zero table of `reps` columns is filled
   * one column per draw, in order.
   */
  method DrawAll(xys: seq<Point>, weights: Option<seq<real>>, pct: real, eps: real, minSamples: int,
                 perms: seq<seq<nat>>, dbscan: Dbscan, knn: Classifier) returns (table: Matrix)
    requires FitInputs(xys, weights, pct, perms, dbscan, knn)
    ensures table == Draws(xys, weights, pct, eps, minSamples, perms, dbscan, knn)
  {
    table := seq(|perms|, _ => seq(|xys|, _ => 0));
    for i := 0 to |perms|
      invariant |table| == |perms|
      invariant forall r :: 0 <= r < i ==> table[r] == OneDraw(xys, weights, pct, eps, minSamples, perms[r], dbscan, knn)
    {
      var lblsPred := OneDraw(xys, weights, pct, eps, minSamples, perms[i], dbscan, knn);
      table := table[i := lblsPred];
    }
  }

  /**
   * `lbls[votes["pct"] < pct_thr] = -1` on the array of winning labels: every
   * entry whose vote share is below `thr` is overwritten with noise in place.
   */
  method MaskBelow(lbls: array<int>, votes: seq<Vote>, thr: real)
    requires lbls.Length == |votes| && forall i :: 0 <= i < |votes| ==> lbls[i] == votes[i].lbl
    modifies lbls
    ensures lbls[..] == Thresholded(votes, thr)
  {
    forall i | 0 <= i < lbls.Length && votes[i].pct < thr {
      lbls[i] := Noise;
    }
  }

  /**
   * The voting step of `fit`: `ensemble` over the aligned draws, then the
   * winning labels copied into a fresh array and masked below `thr`.
   */
  method VoteAndMask(relabelled: Matrix, thr: real) returns (votes: seq<Vote>, lbls: array<int>)
    requires |relabelled| > 0 && |relabelled[0]| > 0 && Shaped(relabelled, |relabelled[0]|)
    ensures votes == Ensemble(relabelled)
    ensures fresh(lbls) && lbls[..] == Thresholded(votes, thr)
  {
    votes := Ensemble(relabelled);
    var n := |votes|;
    lbls := new int[n](i requires 0 <= i < n => votes[i].lbl);
    MaskBelow(lbls, votes, thr);
  }

  class ADBSCAN {
    const eps: real
    const minSamples: int
    const pctExact: real
    const reps: nat
    const keepSolus: bool
    const pctThr: real

    /** The `lbls` column of `votes`. */
    var votesLbls: array<int>
    /** The `pct` column of `votes`. */
    var votesPct: seq<real>
    /** `labels_`: the same storage as `votesLbls`, as `votes["lbls"].values` is a view. */
    var labels: array<int>
    var solus: Option<Matrix>
    var solusRelabelled: Option<Matrix>

    constructor (eps: real, minSamples: int, pctExact: real := 0.1, reps: nat := 100,
                 keepSolus: bool := false, pctThr: real := 0.9)
      ensures this.eps == eps && this.minSamples == minSamples && this.pctExact == pctExact
      ensures this.reps == reps && this.keepSolus == keepSolus && this.pctThr == pctThr
      ensures solus == None && solusRelabelled == None
      ensures votesPct == [] && votesLbls.Length == 0 && labels == votesLbls
    {
      this.eps, this.minSamples, this.pctExact := eps, minSamples, pctExact;
      this.reps, this.keepSolus, this.pctThr := reps, keepSolus, pctThr;
      var empty := new int[0];
      votesLbls, labels, votesPct := empty, empty, [];
      solus, solusRelabelled := None, None;
    }

    /**
     * `fit`, sequential path. The draws are taken in order, one shuffle per
     * repetition; the shuffles and the collaborators are parameters.
     */
    method Fit(xys: seq<Point>, weights: Option<seq<real>>, perms: seq<seq<nat>>,
               dbscan: Dbscan, knn: Classifier, query: Query)
      requires |perms| == reps && FitInputs(xys, weights, pctExact, perms, dbscan, knn) && IsNearestQuery(query)
      modifies this
      ensures fresh(labels) && labels == votesLbls && labels.Length == |xys|
      ensures var votes := FitVotes(xys, weights, pctExact, eps, minSamples, perms, dbscan, knn, query);
              labels[..] == Thresholded(votes, pctThr) && votesPct == Shares(votes)
      ensures var drawn := Draws(xys, weights, pctExact, eps, minSamples, perms, dbscan, knn);
              keepSolus ==> solus == Some(drawn) && solusRelabelled == Some(Align(drawn, xys, query))
      ensures !keepSolus ==> solus == old(solus) && solusRelabelled == old(solusRelabelled)
    {
      var table := DrawAll(xys, weights, pctExact, eps, minSamples, perms, dbscan, knn);
      var relabelled, _ := RemapLabels(table, xys, query);
      // `votes["lbls"].values` is a view of the votes table, so the masked
      // write lands in `votes` as well as in `labels_`.
      var votes, lbls := VoteAndMask(relabelled, pctThr);
      assert votes == FitVotes(xys, weights, pctExact, eps, minSamples, perms, dbscan, knn, query);
      votesLbls, votesPct, labels := lbls, Shares(votes), lbls;
      if keepSolus {
        solus, solusRelabelled := Some(table), Some(relabelled);
      }
    }
  }
}
