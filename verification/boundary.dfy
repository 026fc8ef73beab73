/**
 * `get_cluster_boundary`: group the points by non-noise label and hand each
 * group to a boundary-polygon constructor (the auto alpha shape, which
 * comes in from outside).
 */
module Boundary {
  import opened Labels

  /** Strictly increasing, so also free of repeats. */
  predicate Increasing(s: seq<int>) {
    forall i, j :: 0 <= i < j < |s| ==> s[i] < s[j]
  }

  /** `x` placed into the increasing sequence `s`, unless it is there already. */
  function Insert(s: seq<int>, x: int): (r: seq<int>)
    requires Increasing(s)
    ensures Increasing(r)
    ensures forall l :: l in r <==> l in s || l == x
  {
    if s == [] then [x]
    else if x < s[0] then [x] + s
    else if x == s[0] then s
    else
      var rest := Insert(s[1..], x);
      var r := [s[0]] + rest;
      assert Increasing(r) by {
        forall i, j | 0 <= i < j < |r| ensures r[i] < r[j] {
          assert r[j] == rest[j - 1] && rest[j - 1] in rest;
          if i > 0 {
            assert r[i] == rest[i - 1];
          }
        }
      }
      r
  }

  /**
   * The group keys of the `groupby` over the non-noise labels: every
   * non-noise label once, in ascending order.
   */
  function ClusterLabels(labels: seq<int>): (keys: seq<int>)
    ensures Increasing(keys)
    ensures forall l :: l in keys <==> l in labels && l != Noise
  {
    if labels == [] then []
    else
      var init, last := labels[..|labels| - 1], labels[|labels| - 1];
      assert labels == init + [last];
      var keys := ClusterLabels(init);
      if last == Noise then keys else Insert(keys, last)
  }

  /** The ids of the points labelled `l`, in point order (`g.groups[l]`). */
  function GroupIds(labels: seq<int>, l: int): (ids: seq<nat>)
    ensures forall i :: 0 <= i < |ids| ==> ids[i] < |labels| && labels[ids[i]] == l
    ensures forall i :: 0 <= i < |labels| && labels[i] == l ==> i in ids
    ensures forall i, j :: 0 <= i < j < |ids| ==> ids[i] < ids[j]
  {
    if labels == [] then []
    else
      var init := labels[..|labels| - 1];
      var ids := GroupIds(init, l);
      if labels[|labels| - 1] == l then ids + [|labels| - 1] else ids
  }

  /** The coordinates of the points `ids`, in that order. */
  function GroupPoints(xys: seq<Point>, ids: seq<nat>): (pts: seq<Point>)
    requires forall i :: 0 <= i < |ids| ==> ids[i] < |xys|
    ensures |pts| == |ids| && forall i :: 0 <= i < |ids| ==> pts[i] == xys[ids[i]]
  {
    seq(|ids|, i requires 0 <= i < |ids| => xys[ids[i]])
  }

  /**
   * `get_cluster_boundary`, sequential path: the loop collects one chunk of
   * points and one key per group, then the polygon constructor `asa` is
   * mapped over the chunks. The result is keyed by every non-noise label,
   * ascending, and each polygon is built from exactly that label's points.
   */
  method ClusterBoundary<P>(labels: seq<int>, xys: seq<Point>, step: int, asa: (seq<Point>, int) -> P)
    returns (clusterLbls: seq<int>, polys: seq<P>)
    requires |labels| == |xys| && |labels| > 0
    ensures Increasing(clusterLbls)
    ensures forall l :: l in clusterLbls <==> l in labels && l != Noise
    ensures |polys| == |clusterLbls|
    ensures forall k :: 0 <= k < |clusterLbls| ==> polys[k] == asa(GroupPoints(xys, GroupIds(labels, clusterLbls[k])), step)
  {
    var groups := ClusterLabels(labels);
    var chunks: seq<(seq<Point>, int)> := [];
    clusterLbls := [];
    for g := 0 to |groups|
      invariant clusterLbls == groups[..g] && |chunks| == g
      invariant forall k :: 0 <= k < g ==> chunks[k] == (GroupPoints(xys, GroupIds(labels, groups[k])), step)
    {
      var sub := groups[g];
      chunks := chunks + [(GroupPoints(xys, GroupIds(labels, sub)), step)];
      clusterLbls := clusterLbls + [sub];
    }
    assert clusterLbls == groups;
    polys := seq(|chunks|, k requires 0 <= k < |chunks| => asa(chunks[k].0, chunks[k].1));
  }
}
