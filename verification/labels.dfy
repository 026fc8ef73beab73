/**
 * Vocabulary shared by the A-DBSCAN model: points, the noise label, label
 * columns (one run's label for every point) and label matrices (one column
 * per run).
 */
module Labels {

  /** The reserved label of points that belong to no cluster. */
  const Noise: int := -1

  datatype Option<T> = None | Some(value: T)

  /** A point's X and Y coordinates; exact reals stand for the source's floats. */
  datatype Point = Point(x: real, y: real)

  /** One run's label for each point, in point order. */
  type Column = seq<int>

  /** A label matrix: one column per run (the `rep-XX` columns of the source). */
  type Matrix = seq<Column>

  /** Every column of `m` carries exactly one label per point. */
  predicate Shaped(m: Matrix, n: nat) {
    forall c :: 0 <= c < |m| ==> |m[c]| == n
  }

  /** Row `i` of `m`: the labels point `i` received across the runs. */
  function Row(m: Matrix, i: nat): (row: seq<int>)
    requires forall c :: 0 <= c < |m| ==> i < |m[c]|
    ensures |row| == |m|
  {
    seq(|m|, c requires 0 <= c < |m| => m[c][i])
  }

  /** Number of times label `l` occurs in `s`. */
  function Count(s: seq<int>, l: int): nat {
    multiset(s)[l]
  }

  /**
   * The first position holding a maximal value of `s`: nothing in `s` is
   * larger, and everything before it is strictly smaller.
   */
  function FirstMax(s: seq<int>): (k: nat)
    requires |s| > 0
    ensures k < |s|
    ensures forall j :: 0 <= j < |s| ==> s[j] <= s[k]
    ensures forall j :: 0 <= j < k ==> s[j] < s[k]
  {
    if |s| == 1 then 0
    else
      var k := FirstMax(s[..|s| - 1]);
      if s[|s| - 1] > s[k] then |s| - 1 else k
  }
}
