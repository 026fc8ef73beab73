/**
 * Label alignment across runs (`remap_lbls`, `_remap_lbls_single`,
 * `_remap_n_expand`): every run's cluster labels are rewritten into the label
 * space of a reference run by matching cluster centroids.
 */
module Remap {
  import opened Labels

  /** Squared Euclidean distance; it ranks candidates as the Euclidean distance does. */
  function SqDist(a: Point, b: Point): real {
    (a.x - b.x) * (a.x - b.x) + (a.y - b.y) * (a.y - b.y)
  }

  /** Coordinate sums of the points labelled `l` in `col`. */
  function SumWhere(xys: seq<Point>, col: Column, l: int): Point
    requires |xys| == |col|
  {
    if col == [] then Point(0.0, 0.0)
    else
      var rest := SumWhere(xys[1..], col[1..], l);
      if col[0] == l then Point(xys[0].x + rest.x, xys[0].y + rest.y) else rest
  }

  /** Mean X and mean Y of the points labelled `l` (the groupby mean). */
  function Centroid(xys: seq<Point>, col: Column, l: int): Point
    requires |xys| == |col| && l in col
  {
    var total := SumWhere(xys, col, l);
    var k := Count(col, l) as real;
    Point(total.x / k, total.y / k)
  }

  /** The centroid table of one run: one entry per non-noise label. */
  function Centroids(xys: seq<Point>, col: Column): (table: map<int, Point>)
    requires |xys| == |col|
    ensures forall l :: l in table <==> l in col && l != Noise
    ensures forall l :: l in table ==> table[l] == Centroid(xys, col, l)
  {
    map l | l in col && l != Noise :: Centroid(xys, col, l)
  }

  /** Number of distinct values in a run, noise included (`x.unique().shape[0]`). */
  function NDistinct(col: Column): nat {
    |set l | l in col|
  }

  /**
   * The reference run: the first column whose number of distinct values is
   * maximal.
   */
  function Reference(solus: Matrix): (ref: nat)
    requires |solus| > 0
    ensures ref < |solus|
    ensures forall c :: 0 <= c < |solus| ==> NDistinct(solus[c]) <= NDistinct(solus[ref])
    ensures forall c :: 0 <= c < ref ==> NDistinct(solus[c]) < NDistinct(solus[ref])
  {
    var counts := seq(|solus|, c requires 0 <= c < |solus| => NDistinct(solus[c]) as int);
    assert forall c :: 0 <= c < |solus| ==> counts[c] == NDistinct(solus[c]);
    FirstMax(counts)
  }

  /** Number of cluster labels in a run, noise left out. */
  function NClusters(col: Column): nat {
    |set l | l in col && l != Noise|
  }

  /**
   * The reference run as the comments of `remap_lbls` describe it: the
   * first run with the most clusters, noise not counted.
   */
  function ClusterReference(solus: Matrix): (ref: nat)
    requires |solus| > 0
    ensures ref < |solus|
    ensures forall c :: 0 <= c < |solus| ==> NClusters(solus[c]) <= NClusters(solus[ref])
    ensures forall c :: 0 <= c < ref ==> NClusters(solus[c]) < NClusters(solus[ref])
  {
    var counts := seq(|solus|, c requires 0 <= c < |solus| => NClusters(solus[c]) as int);
    assert forall c :: 0 <= c < |solus| ==> counts[c] == NClusters(solus[c]);
    FirstMax(counts)
  }

  /**
   * When any run has a cluster, the run chosen by cluster count has one
   * too, so alignment goes ahead.
   */
  lemma ClusterReferenceHasCluster(solus: Matrix, c: nat, i: nat)
    requires |solus| > 0 && c < |solus| && i < |solus[c]| && solus[c][i] != Noise
    ensures exists l :: l in solus[ClusterReference(solus)] && l != Noise
  {
    var col := solus[c];
    var clusters := set l | l in col && l != Noise;
    assert col[i] in clusters;
    assert clusters != {};
    var refCol := solus[ClusterReference(solus)];
    var refSet := set l | l in refCol && l != Noise;
    assert |refSet| > 0;
    var l :| l in refSet;
  }

  /** `l` labels a centroid of `table` than which no centroid is strictly closer to `q`. */
  predicate Nearest(table: map<int, Point>, q: Point, l: int) {
    l in table && forall l' :: l' in table ==> SqDist(table[l], q) <= SqDist(table[l'], q)
  }

  /**
   * A nearest-neighbour query over a centroid table (the cKDTree built on the
   * reference centroids, composed with the cross-walk to their labels).
   */
  type Query = (map<int, Point>, Point) -> int

  /** `query` always answers with a nearest centroid; which of several tied ones is left open. */
  ghost predicate IsNearestQuery(query: Query) {
    forall table, q :: table != map[] ==> Nearest(table, q, query(table, q))
  }

  /**
   * `_remap_lbls_single`: every non-noise label of `col` is sent to the
   * reference label whose centroid is nearest to that label's centroid.
   */
  function RemapIds(col: Column, refC: map<int, Point>, xys: seq<Point>, query: Query): (remap: map<int, int>)
    requires |xys| == |col| && refC != map[] && IsNearestQuery(query)
    ensures forall l :: l in remap <==> l in col && l != Noise
    ensures forall l :: l in remap ==> Nearest(refC, Centroid(xys, col, l), remap[l])
  {
    var cs := Centroids(xys, col);
    map l | l in cs :: query(refC, cs[l])
  }

  /**
   * `solus_s.map(remap)` followed by `fillna(-1)`: a label the remap does not
   * cover becomes noise.
   */
  function Expand(col: Column, remap: map<int, int>): (r: Column)
    ensures |r| == |col|
    ensures forall i :: 0 <= i < |col| && col[i] in remap ==> r[i] == remap[col[i]]
    ensures forall i :: 0 <= i < |col| && col[i] !in remap ==> r[i] == Noise
  {
    seq(|col|, i requires 0 <= i < |col| => if col[i] in remap then remap[col[i]] else Noise)
  }

  /**
   * `_remap_n_expand`: one non-reference run rewritten into the reference
   * label space. Noise stays noise and nothing else becomes noise, every
   * label goes to a nearest reference centroid, and points that shared a
   * label still share one.
   */
  function RemapColumn(col: Column, refC: map<int, Point>, xys: seq<Point>, query: Query): (r: Column)
    requires |xys| == |col| && refC != map[] && Noise !in refC && IsNearestQuery(query)
    ensures |r| == |col|
    ensures forall i :: 0 <= i < |col| ==> (r[i] == Noise <==> col[i] == Noise)
    ensures forall i :: 0 <= i < |col| && col[i] != Noise ==> Nearest(refC, Centroid(xys, col, col[i]), r[i])
    ensures forall i, j :: 0 <= i < |col| && 0 <= j < |col| && col[i] == col[j] ==> r[i] == r[j]
  {
    Expand(col, RemapIds(col, refC, xys, query))
  }

  /**
   * The aligned label matrix `remap_lbls` returns. When the reference run
   * has no real cluster the input comes back as it is; otherwise the
   * reference column is copied through and every other column is remapped.
   */
  function Align(solus: Matrix, xys: seq<Point>, query: Query): (r: Matrix)
    requires |solus| > 0 && |xys| > 0 && Shaped(solus, |xys|) && IsNearestQuery(query)
    ensures |r| == |solus| && Shaped(r, |xys|)
    ensures r[Reference(solus)] == solus[Reference(solus)]
    ensures Centroids(xys, solus[Reference(solus)]) == map[] ==> r == solus
    ensures forall c, i :: 0 <= c < |r| && 0 <= i < |xys| ==> (r[c][i] == Noise <==> solus[c][i] == Noise)
    ensures forall c, i, j :: 0 <= c < |r| && 0 <= i < |xys| && 0 <= j < |xys| && solus[c][i] == solus[c][j] ==>
              r[c][i] == r[c][j]
    ensures var refCol := solus[Reference(solus)];
            Centroids(xys, refCol) != map[] ==>
              forall c, i :: 0 <= c < |r| && 0 <= i < |xys| && c != Reference(solus) && solus[c][i] != Noise ==>
                Nearest(Centroids(xys, refCol), Centroid(xys, solus[c], solus[c][i]), r[c][i])
  {
    var ref := Reference(solus);
    var refC := Centroids(xys, solus[ref]);
    if refC == map[] then solus
    else
      seq(|solus|, c requires 0 <= c < |solus| =>
        if c == ref then solus[ref] else RemapColumn(solus[c], refC, xys, query))
  }

  /** With a real reference cluster, each aligned column is the reference run or a remapped run. */
  lemma AlignColumns(solus: Matrix, xys: seq<Point>, query: Query)
    requires |solus| > 0 && |xys| > 0 && Shaped(solus, |xys|) && IsNearestQuery(query)
    requires Centroids(xys, solus[Reference(solus)]) != map[]
    ensures var ref, refC := Reference(solus), Centroids(xys, solus[Reference(solus)]);
            forall c :: 0 <= c < |solus| ==>
              Align(solus, xys, query)[c] == if c == ref then solus[ref] else RemapColumn(solus[c], refC, xys, query)
  {
  }

  /**
   * Once the reference run has a real cluster, every aligned label is noise
   * or one of the reference run's own labels.
   */
  lemma AlignedIntoReference(solus: Matrix, xys: seq<Point>, query: Query)
    requires |solus| > 0 && |xys| > 0 && Shaped(solus, |xys|) && IsNearestQuery(query)
    requires Centroids(xys, solus[Reference(solus)]) != map[]
    ensures forall c, i :: 0 <= c < |solus| && 0 <= i < |xys| ==>
              Align(solus, xys, query)[c][i] == Noise || Align(solus, xys, query)[c][i] in solus[Reference(solus)]
  {
    var r, ref := Align(solus, xys, query), Reference(solus);
    var refC := Centroids(xys, solus[ref]);
    forall c, i | 0 <= c < |solus| && 0 <= i < |xys| ensures r[c][i] == Noise || r[c][i] in solus[ref] {
      if c == ref {
        assert r[c][i] == solus[ref][i];
      } else if solus[c][i] != Noise {
        assert Nearest(refC, Centroid(xys, solus[c], solus[c][i]), r[c][i]);
      }
    }
  }

  /** A single run is its own reference and comes back unchanged. */
  lemma AlignSingleRun(solus: Matrix, xys: seq<Point>, query: Query)
    requires |solus| == 1 && |xys| > 0 && Shaped(solus, |xys|) && IsNearestQuery(query)
    ensures Align(solus, xys, query) == solus
  {
    var r := Align(solus, xys, query);
    assert r[0] == solus[0];
  }

  /**
   * `remap_lbls`, sequential path: fills a zero matrix column by column for
   * every non-reference run, then copies the reference run in. `noClusters`
   * is the "No clusters identified." warning, raised exactly when the
   * reference run has no non-noise label.
   */
  method RemapLabels(solus: Matrix, xys: seq<Point>, query: Query) returns (r: Matrix, noClusters: bool)
    requires |solus| > 0 && |xys| > 0 && Shaped(solus, |xys|) && IsNearestQuery(query)
    ensures noClusters <==> Centroids(xys, solus[Reference(solus)]) == map[]
    ensures r == Align(solus, xys, query)
  {
    var ref := Reference(solus);
    var refC := Centroids(xys, solus[ref]);
    noClusters := refC == map[];
    if !noClusters {
      r := seq(|solus|, _ => seq(|xys|, _ => 0));
      for c := 0 to |solus|
        invariant |r| == |solus|
        invariant forall d :: 0 <= d < c && d != ref ==> r[d] == RemapColumn(solus[d], refC, xys, query)
      {
        if c != ref {
          var remapIds := RemapIds(solus[c], refC, xys, query);
          r := r[c := Expand(solus[c], remapIds)];
        }
      }
      r := r[ref := solus[ref]];
      AlignColumns(solus, xys, query);
    } else {
      r := solus;
    }
  }
}
