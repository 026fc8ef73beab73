/**
 * Majority voting over an aligned label matrix (`ensemble`) and the
 * confidence threshold `ADBSCAN.fit` applies to its result.
 */
module Consensus {
  import opened Labels

  /** One row of the votes table: the winning label and its share of the runs. */
  datatype Vote = Vote(lbl: int, pct: real)

  /**
   * `Counter(row).most_common(1)[0][0]`: a most frequent label of `row`.
   * `Counter` keeps labels in order of first appearance and
   * `most_common(1)` takes the first maximal entry, so among equally
   * frequent labels the one seen first wins.
   */
  function Winner(row: seq<int>): (w: int)
    requires |row| > 0
    ensures w in row
    ensures forall l :: Count(row, l) <= Count(row, w)
    ensures forall j :: 0 <= j < |row| && Count(row, row[j]) == Count(row, w) ==> w in row[..j + 1]
  {
    var counts := seq(|row|, j requires 0 <= j < |row| => Count(row, row[j]) as int);
    var k := FirstMax(counts);
    assert forall j :: 0 <= j < |row| ==> counts[j] == Count(row, row[j]);
    forall l | l in row ensures Count(row, l) <= Count(row, row[k]) {
      var j :| 0 <= j < |row| && row[j] == l;
    }
    forall j | 0 <= j < |row| && Count(row, row[j]) == Count(row, row[k]) ensures row[k] in row[..j + 1] {
      assert k <= j;
      assert row[..j + 1][k] == row[k];
    }
    row[k]
  }

  /**
   * The vote of one row: its winner and the winner's share of the row
   * (`most_common(1)[0]` and `count / solus_relabelled.shape[1]`).
   */
  function Elect(row: seq<int>): (v: Vote)
    requires |row| > 0
    ensures v.lbl in row && v.pct == Count(row, v.lbl) as real / |row| as real
    ensures forall l :: Count(row, l) <= Count(row, v.lbl)
    ensures 0.0 < v.pct <= 1.0
  {
    var w := Winner(row);
    assert 0 < Count(row, w) <= |row| by {
      assert |multiset(row)| == |row|;
    }
    ShareBounds(Count(row, w), |row|);
    Vote(w, Count(row, w) as real / |row| as real)
  }

  lemma ShareBounds(k: nat, n: nat)
    requires 0 < k <= n
    ensures 0.0 < k as real / n as real <= 1.0
  {
    var q := k as real / n as real;
    assert q * n as real == k as real;
  }

  /**
   * `ensemble`: one vote per point, holding a most frequent label of the
   * point's row and that label's count divided by the number of runs.
   */
  function Ensemble(m: Matrix): (votes: seq<Vote>)
    requires |m| > 0 && |m[0]| > 0 && Shaped(m, |m[0]|)
    ensures |votes| == |m[0]|
    ensures forall i :: 0 <= i < |votes| ==>
              votes[i].lbl in Row(m, i) && votes[i].pct == Count(Row(m, i), votes[i].lbl) as real / |m| as real
    ensures forall i, l {:trigger Count(Row(m, i), l)} :: 0 <= i < |votes| ==>
              Count(Row(m, i), l) <= Count(Row(m, i), votes[i].lbl)
    ensures forall i :: 0 <= i < |votes| ==> 0.0 < votes[i].pct <= 1.0
  {
    seq(|m[0]|, i requires 0 <= i < |m[0]| => Elect(Row(m, i)))
  }

  /**
   * A point whose row gives label `w` strictly more votes than any other
   * label is won by `w`, with `w`'s share of the `n` runs.
   */
  lemma StrictMajority(m: Matrix, i: nat, w: int, k: nat, n: nat)
    requires |m| == n && n > 0 && |m[0]| > 0 && Shaped(m, |m[0]|) && i < |m[0]|
    requires w in Row(m, i) && Count(Row(m, i), w) == k
    requires forall l :: l in Row(m, i) && l != w ==> Count(Row(m, i), l) < k
    ensures Ensemble(m)[i] == Vote(w, k as real / n as real)
  {
  }

  /** A single run votes for its own labels, each with share 1, so no threshold up to 1 masks any. */
  lemma SingleRunVotes(m: Matrix, thr: real)
    requires |m| == 1 && |m[0]| > 0 && thr <= 1.0
    ensures Thresholded(Ensemble(m), thr) == m[0]
  {
    var votes := Ensemble(m);
    forall i | 0 <= i < |votes| ensures votes[i] == Vote(m[0][i], 1.0) {
      assert Row(m, i) == [m[0][i]];
      assert Count([m[0][i]], m[0][i]) == 1;
    }
  }

  /** The vote shares of a votes table (its `pct` column). */
  function Shares(votes: seq<Vote>): (pct: seq<real>)
    ensures |pct| == |votes| && forall i :: 0 <= i < |votes| ==> pct[i] == votes[i].pct
  {
    seq(|votes|, i requires 0 <= i < |votes| => votes[i].pct)
  }

  /**
   * The labels `fit` ends with: a point whose vote share is below `thr` is
   * noise, every other point keeps its winning label.
   */
  function Thresholded(votes: seq<Vote>, thr: real): (lbls: seq<int>)
    ensures |lbls| == |votes|
    ensures forall i :: 0 <= i < |votes| ==> (lbls[i] == Noise <==> votes[i].pct < thr || votes[i].lbl == Noise)
    ensures forall i :: 0 <= i < |votes| && lbls[i] != Noise ==> lbls[i] == votes[i].lbl && thr <= votes[i].pct
  {
    seq(|votes|, i requires 0 <= i < |votes| => if votes[i].pct < thr then Noise else votes[i].lbl)
  }

  /**
   * Voting and masking bring in no new label: when every entry of `m` is
   * noise or a label of `col`, so is every thresholded winner.
   */
  lemma ThresholdedLabelsFrom(m: Matrix, thr: real, col: Column)
    requires |m| > 0 && |m[0]| > 0 && Shaped(m, |m[0]|)
    requires forall c, i :: 0 <= c < |m| && 0 <= i < |m[0]| ==> m[c][i] == Noise || m[c][i] in col
    ensures forall i :: 0 <= i < |m[0]| ==> Thresholded(Ensemble(m), thr)[i] == Noise || Thresholded(Ensemble(m), thr)[i] in col
  {
    var votes := Ensemble(m);
    forall i | 0 <= i < |votes| ensures votes[i].lbl == Noise || votes[i].lbl in col {
      var c :| 0 <= c < |m| && Row(m, i)[c] == votes[i].lbl;
      assert m[c][i] == votes[i].lbl;
    }
  }

  /** The positions of `lbls` that hold noise. */
  function NoisePoints(lbls: seq<int>): set<nat> {
    set i: nat | i < |lbls| && lbls[i] == Noise
  }

  /** Raising the threshold never turns a noise point back into a cluster member. */
  lemma ThresholdMonotone(votes: seq<Vote>, lo: real, hi: real)
    requires lo <= hi
    ensures NoisePoints(Thresholded(votes, lo)) <= NoisePoints(Thresholded(votes, hi))
  {
  }
}
