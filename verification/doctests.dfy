/**
 * Worked examples of `remap_lbls`, `ensemble` and the threshold of `fit`:
 * the reference run of the three-run example, and the votes of its
 * aligned runs with their masking.
 */
module Doctests {
  import opened Labels
  import opened Remap
  import opened Consensus

  /** The three runs of the example, one column per run. */
  predicate ExampleRuns(m: Matrix) {
    && |m| == 3
    && m[0] == [0, 0, 7, 7, -1]
    && m[1] == [4, 4, -1, 6, 6]
    && m[2] == [5, 5, 8, 8, 8]
  }

  /** The first run has the most distinct labels (three, noise included) and is the reference. */
  lemma ReferenceExample(m: Matrix)
    requires ExampleRuns(m)
    ensures Reference(m) == 0
  {
    assert (set l | l in m[0]) == {0, 7, -1};
    assert (set l | l in m[1]) == {4, -1, 6};
    assert (set l | l in m[2]) == {5, 8};
  }

  /**
   * The aligned runs of the example as `remap_lbls` prints them, one line
   * per point: point `i` gets `Row(m, i)` across the three runs.
   */
  predicate AlignedTable(m: Matrix) {
    && |m| == 3 && |m[0]| == 5 && Shaped(m, 5)
    && Row(m, 0) == [0, 0, 0]
    && Row(m, 1) == [0, 0, 0]
    && Row(m, 2) == [7, -1, 7]
    && Row(m, 3) == [7, 7, 7]
    && Row(m, 4) == [-1, 7, 7]
  }

  /** A point all three runs give the same label is won with share 1. */
  lemma UnanimousVote(m: Matrix, i: nat, w: int)
    requires |m| == 3 && |m[0]| > 0 && Shaped(m, |m[0]|) && i < |m[0]| && Row(m, i) == [w, w, w]
    ensures Ensemble(m)[i] == Vote(w, 1.0)
  {
    assert multiset(Row(m, i)) == multiset{w, w, w};
    assert forall l :: l in Row(m, i) ==> l == w;
    StrictMajority(m, i, w, 3, 3);
  }

  /** A point two runs put in cluster 7 and one run calls noise is won by 7 with share 2/3. */
  lemma SplitVote(m: Matrix, i: nat)
    requires |m| == 3 && |m[0]| > 0 && Shaped(m, |m[0]|) && i < |m[0]|
    requires Row(m, i) == [7, -1, 7] || Row(m, i) == [-1, 7, 7]
    ensures Ensemble(m)[i] == Vote(7, 2.0 / 3.0)
  {
    assert multiset(Row(m, i)) == multiset{7, 7, -1};
    assert Count(Row(m, i), 7) == 2 && Count(Row(m, i), -1) == 1;
    forall l | l in Row(m, i) && l != 7 ensures Count(Row(m, i), l) < 2 {
      assert l in multiset(Row(m, i));
    }
    StrictMajority(m, i, 7, 2, 3);
  }

  /** The vote of every point of the aligned runs, derived row by row. */
  lemma ExampleVotes(m: Matrix)
    requires AlignedTable(m)
    ensures Ensemble(m)[0] == Vote(0, 1.0) && Ensemble(m)[1] == Vote(0, 1.0)
    ensures Ensemble(m)[2] == Vote(7, 2.0 / 3.0) && Ensemble(m)[3] == Vote(7, 1.0)
    ensures Ensemble(m)[4] == Vote(7, 2.0 / 3.0)
  {
    UnanimousVote(m, 0, 0);
    UnanimousVote(m, 1, 0);
    SplitVote(m, 2);
    UnanimousVote(m, 3, 7);
    SplitVote(m, 4);
  }

  /**
   * The votes table the example prints, and what the default threshold 0.9
   * of `fit` makes of it: the two points won with two votes in three
   * become noise.
   */
  lemma PrintedVotes(votes: seq<Vote>)
    requires |votes| == 5
    requires votes[0] == Vote(0, 1.0) && votes[1] == Vote(0, 1.0) && votes[2] == Vote(7, 2.0 / 3.0)
    requires votes[3] == Vote(7, 1.0) && votes[4] == Vote(7, 2.0 / 3.0)
    ensures votes == [Vote(0, 1.0), Vote(0, 1.0), Vote(7, 2.0 / 3.0), Vote(7, 1.0), Vote(7, 2.0 / 3.0)]
    ensures Thresholded(votes, 0.9) == [0, 0, -1, 7, -1]
  {
  }

  /**
   * The `ensemble` example: `ensemble` of the aligned runs is the printed
   * votes table, and the threshold of `fit` masks it to `[0, 0, -1, 7, -1]`.
   */
  lemma EnsembleExample(m: Matrix)
    requires AlignedTable(m)
    ensures Ensemble(m) == [Vote(0, 1.0), Vote(0, 1.0), Vote(7, 2.0 / 3.0), Vote(7, 1.0), Vote(7, 2.0 / 3.0)]
    ensures Thresholded(Ensemble(m), 0.9) == [0, 0, -1, 7, -1]
  {
    ExampleVotes(m);
    PrintedVotes(Ensemble(m));
  }

  /**
   * Counting noise as a value lets a run of noise alone be the reference
   * while another run has a cluster: alignment then gives up and returns
   * the runs as they are. Counting clusters picks the other run.
   */
  lemma NoiseRunAsReference(m: Matrix, xys: seq<Point>, query: Query)
    requires |m| == 2 && m[0] == [-1, -1] && m[1] == [0, 0]
    requires |xys| == 2 && IsNearestQuery(query)
    ensures Reference(m) == 0 && ClusterReference(m) == 1
    ensures Align(m, xys, query) == m
  {
    assert (set l | l in m[0]) == {-1};
    assert (set l | l in m[1]) == {0};
    assert (set l | l in m[0] && l != Noise) == {};
    assert (set l | l in m[1] && l != Noise) == {0};
    assert Centroids(xys, m[0]) == map[];
  }
}
