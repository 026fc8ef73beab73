# A-DBSCAN ensemble clustering and the FDR cut-off, in Dafny

This project models the core of A-DBSCAN (approximate DBSCAN) from the
`esda` package, and the `fdr` helper from the same package.

A-DBSCAN clusters a set of points by drawing many random subsamples. Each
subsample is clustered with DBSCAN, and every point of the full set is then
labelled by its nearest sampled neighbour.

The draws do not share label names, so the labels are aligned next. The run
with the most distinct labels becomes the reference run. Every cluster of
every other run is renamed after the reference cluster whose centroid lies
nearest to its own centroid.

Each point then votes across the runs. It gets its most frequent aligned
label, and the share of runs that voted for that label. A point whose share
is below the threshold `pct_thr` becomes noise (label -1).

`get_cluster_boundary` groups the points by their final label and builds
one polygon per cluster.

`fdr` computes the Benjamini-Hochberg step-up cut-off for `n` p-values. When
no p-value passes, it falls back to the Bonferroni bound `alpha / n`.

The Dafny modules:

- `Labels` (labels.dfy) holds points, the noise label, label columns and
  label matrices (one column per run), plus `FirstMax`, the first position
  of a maximum.
- `Remap` (remap.dfy) holds centroids, the choice of the reference run, and
  the alignment of labels (`remap_lbls`, `_remap_lbls_single` and
  `_remap_n_expand`).
- `Consensus` (consensus.dfy) holds majority voting (`ensemble`) and the
  confidence threshold.
- `Draw` (draw.dfy) holds one ensemble draw (`_one_draw`). This covers the
  subsample size, the scaled `min_samples`, the sampled ids and weights, and
  the DBSCAN and nearest-neighbour labelling.
- `Adbscan` (adbscan.dfy) holds the `ADBSCAN` estimator as a class, and its
  `fit` as a method with the loop over repetitions, the aligned vote and the
  in-place mask.
- `Boundary` (boundary.dfy) holds `get_cluster_boundary`.
- `Util` (fdr.dfy) holds `fdr`.
- `Doctests` (doctests.dfy) holds the docstring examples that are proved.

The outside collaborators are passed in as function parameters, each with a
predicate stating what the model relies on:

- **DBSCAN.** `Draw.IsDbscan`: it gives one label per point.
- **The 1-nearest-neighbour classifier.** `Draw.IsClassifier`: it gives one
  label per query point, always one of the training labels.
- **The cKDTree query.** `Remap.IsNearestQuery`: it answers with a
  centroid that no other centroid is strictly closer to. Which of several
  tied centroids it picks is left open.
- **The random shuffle of each draw.** It is a parameter holding one
  permutation of `0..n-1` per repetition.
- **The alpha-shape constructor.** It is a function parameter of
  `ClusterBoundary`.

Labels are integers, and noise is -1. Coordinates and shares are exact
reals.

Two choices follow the code rather than the written description of the
algorithm:

- **Choosing the reference run.** `remap_lbls` counts a run's distinct
  values with `x.unique()`, so noise counts as one value
  (esda/adbscan.py:315). `Remap.Reference` does the same, and the first run
  wins ties.
- **The `fdr` docstring.** It says the Bonferroni bound is returned when
  "all" null hypotheses are rejected (esda/util.py:9-11). The code returns
  it when no p-value passes the step-up test (esda/util.py:59-60).
  `Util.FdrBonferroni` states what the code does.

`fit` masks the array `votes["lbls"].values`, which is a view of the votes
table (esda/adbscan.py:227-230). The masked labels therefore show up both in
`labels_` and in `votes`. `ADBSCAN` models this with a single array that is
held in both the `votesLbls` and `labels` fields.

## Model

| member | source | states |
|---|---|---|
| Labels.FirstMax | esda/adbscan.py:317 | the position it returns holds a value no entry exceeds, and every earlier entry is strictly smaller, so it is the first maximum |
| Remap.Centroids | esda/adbscan.py:320-324 | the centroid table has one entry per non-noise label of the run, and each entry is the mean of the points carrying that label |
| Remap.Reference | esda/adbscan.py:315-317 | the reference run has the largest number of distinct values, noise included, and every earlier run has strictly fewer |
| Remap.ClusterReference | esda/adbscan.py:314-317 | the reference run as the comments describe it: it has the most cluster labels, noise not counted, and every earlier run has strictly fewer |
| Remap.ClusterReferenceHasCluster | esda/adbscan.py:314-326 | when any run has a non-noise label, the run with the most clusters has one too, so the alignment goes ahead |
| Remap.RemapIds | esda/adbscan.py:362-378 | every non-noise label of a run, and nothing else, is mapped, and it is mapped to a reference label whose centroid no other reference centroid beats in distance to the label's own centroid |
| Remap.Expand | esda/adbscan.py:347-349 | a label covered by the remapping takes its image, and a label outside it becomes noise (`map` then `fillna(-1)`) |
| Remap.RemapColumn | esda/adbscan.py:355-359 | a remapped run has the same length, noise stays noise and nothing else becomes noise, each label goes to a nearest reference centroid, and points that shared a label still share one |
| Remap.Align | esda/adbscan.py:326-352 | the reference run is copied through unchanged, the input comes back as it is when the reference run has no cluster, noise positions are kept, and every other run's labels go to nearest reference centroids consistently |
| Remap.AlignedIntoReference | esda/adbscan.py:342-349 | once the reference run has a cluster, every aligned label is noise or one of the reference run's own labels |
| Remap.AlignSingleRun | esda/adbscan.py:326-348 | a single run is its own reference and is returned unchanged |
| Remap.RemapLabels | esda/adbscan.py:326-352 | the sequential loop fills the zero matrix into exactly the aligned matrix, and the "No clusters identified." warning is raised exactly when the reference run has no non-noise label |
| Consensus.Winner | esda/adbscan.py:424 | the winner occurs in the row, no label occurs more often, and among equally frequent labels it is the one seen first (Counter keeps first-appearance order, and `most_common(1)` takes the first maximal entry) |
| Consensus.Elect | esda/adbscan.py:424-428 | the vote carries a most frequent label of the row and that label's count divided by the row length, a share in (0, 1] |
| Consensus.Ensemble | esda/adbscan.py:422-432 | one vote per point, holding a most frequent label of the point's row across runs and its count over the number of runs, a share in (0, 1] |
| Consensus.StrictMajority | esda/adbscan.py:422-428 | a label that gets strictly more votes than every other label in a row wins that row, with its count over the number of runs as its share |
| Consensus.SingleRunVotes | esda/adbscan.py:428-429 | with one run, every vote has share 1, so a threshold of at most 1 masks nothing and the run's labels come back |
| Consensus.Thresholded | esda/adbscan.py:229 | a point is noise exactly when its share is below the threshold or its winning label is noise, and otherwise it keeps its winning label |
| Consensus.ThresholdedLabelsFrom | esda/adbscan.py:422-429 | voting and masking bring in no new label: when every entry of the matrix is noise or a label of a given run, so is every final label |
| Consensus.ThresholdMonotone | esda/adbscan.py:229 | raising the threshold only adds noise points |
| Draw.SampleSize | esda/adbscan.py:244 | the sample size is the largest whole number not above `n * pct_exact`, and never more than `n` |
| Draw.ScaledMinSamples | esda/adbscan.py:252-253 | the scaled `min_samples` is 1 when `min_samples * pct_exact` is below 1, and otherwise the floor of that product |
| Draw.SampleIds | esda/adbscan.py:242-244 | the sampled ids are the first `SampleSize` entries of the shuffle, all below `n` and pairwise distinct |
| Draw.Thin | esda/adbscan.py:246 | the thinned points are the sampled points, in sample order |
| Draw.ThinWeights | esda/adbscan.py:248-250 | the thinned weights exist exactly when weights were given, and they are the weights of the sampled points, in sample order |
| Draw.ThinLabels | esda/adbscan.py:252-261 | DBSCAN runs on exactly the first `SampleSize` points of the shuffle, in shuffle order, with their weights and the scaled `min_samples`, and labels each of them |
| Draw.OneDraw | esda/adbscan.py:240-266 | a draw labels every point, each with a label that DBSCAN gave to some sampled point |
| Draw.FullSample | esda/adbscan.py:129-132 | with `pct_exact = 1`, every point is sampled and `min_samples` is kept unchanged |
| Adbscan.Draws | esda/adbscan.py:209-223 | the `solus` table has one column per repetition, and column `r` is the draw taken with the `r`-th shuffle |
| Adbscan.FitVotes | esda/adbscan.py:225-226 | one vote per point; its label is one that some aligned draw gave the point, no label gets more aligned votes, and its share is that label's count over the number of repetitions, in (0, 1] |
| Adbscan.FitLabelsFromReference | esda/adbscan.py:225-230 | when the reference draw has a cluster, every final label of `fit` is noise or a label of the reference draw |
| Adbscan.SingleDrawLabels | esda/adbscan.py:129-132 | with one repetition and a threshold of at most 1, `fit` returns that draw's labels unchanged |
| Adbscan.DrawAll | esda/adbscan.py:181-223 | filling the zero table one column per repetition, in order, yields exactly the `solus` table of the draws |
| Adbscan.MaskBelow | esda/adbscan.py:229 | the in-place write leaves the array equal to the thresholded labels |
| Adbscan.VoteAndMask | esda/adbscan.py:226-229 | the votes are the `ensemble` of the aligned draws, and the fresh label array holds the thresholded winners |
| Adbscan.ADBSCAN.constructor | esda/adbscan.py:139-157 | the parameters are stored as given, with the defaults `pct_exact = 0.1`, `reps = 100`, `keep_solus = False` and `pct_thr = 0.9` |
| Adbscan.ADBSCAN.Fit | esda/adbscan.py:159-237 | `labels_` is a fresh array over all points, aliased with the `lbls` column of `votes`, and holds the thresholded vote of the aligned draws; `pct` is the vote shares; the draws and the aligned draws are kept exactly when `keep_solus` is set |
| Boundary.ClusterLabels | esda/adbscan.py:516-518 | the group keys are the non-noise labels, each once, in ascending order |
| Boundary.GroupIds | esda/adbscan.py:518-522 | a group holds exactly the ids of the points with that label, in increasing order |
| Boundary.GroupPoints | esda/adbscan.py:522 | a chunk holds the coordinates of its ids, in that order |
| Boundary.ClusterBoundary | esda/adbscan.py:515-531 | one polygon per non-noise label, keyed in ascending label order, each built from exactly that label's points and the given step |
| Util.SortDesc | esda/util.py:54 | the sorted p-values are in non-increasing order and are a permutation of the input |
| Util.FirstHit | esda/util.py:57-58 | the scan stops at the first position of the descending sort whose p-value is below its rank's cut-off, or at the end when there is none |
| Util.CutoffRange | esda/util.py:55-56 | for a non-negative `alpha`, every rank's cut-off `k * alpha / n` lies between `alpha / n` and `alpha` |
| Util.FdrBonferroni | esda/util.py:59-60 | when no rank passes, the cut-off is the Bonferroni bound `alpha / n` |
| Util.FdrStepUp | esda/util.py:61-62 | when some rank passes, the cut-off is `k * alpha / n` for the largest passing rank `k` |
| Util.SortedCutoff | esda/util.py:55-62 | the cut-off read off the descending sort is one of the rank cut-offs `k * alpha / n` (the fallback `alpha / n` is rank 1), so for a non-negative `alpha` it lies between `alpha / n` and `alpha` |
| Util.Fdr | esda/util.py:53-62 | `fdr` returns `k * alpha / n` for some rank `k` from 1 to `n`, so for a non-negative `alpha` it lies between `alpha / n` and `alpha` |
| Util.DescendingUnique | esda/util.py:54 | two descending sequences with the same elements are equal, so the descending sort is unique |
| Util.FdrOrderFree | esda/util.py:53-62 | the cut-off depends only on the multiset of p-values, not on their order |
| Doctests.ReferenceExample | esda/adbscan.py:302-312 | in the three-run docstring example, the first run is the reference |
| Doctests.NoiseRunAsReference | esda/adbscan.py:315-317 | for the runs `[-1, -1]` and `[0, 0]`, the run of noise alone is the reference as written, so the alignment returns the runs unchanged, while counting clusters picks the second run |
| Doctests.ExampleVotes | esda/adbscan.py:403-418 | for the aligned runs the `remap_lbls` example prints, `ensemble` gives points 0 and 1 label 0 with share 1, point 3 label 7 with share 1, and points 2 and 4 label 7 with share 2/3 |
| Doctests.PrintedVotes | esda/adbscan.py:413-418 | the printed votes table, masked at the default threshold 0.9, turns the two points won by two votes in three into noise: `[0, 0, -1, 7, -1]` |
| Doctests.EnsembleExample | esda/adbscan.py:403-418 | `ensemble` of the aligned runs of the example is exactly the printed votes table, and `fit`'s default threshold masks it to `[0, 0, -1, 7, -1]` |

## Left out

- **The multi-core paths.** This covers `n_jobs` other than 1 in `fit`, in `remap_lbls` and in `get_cluster_boundary`, and `_setup_pool`. Only the sequential paths are modelled. The parallel `remap_lbls` path computes the same columns through `_remap_n_expand`, which `Remap.RemapColumn` models.
- **Warnings.** Only whether the "No clusters identified." warning is raised is modelled, as the flag `noClusters`. The multi-core warning of `fit` and the warning texts are left out.
- **DBSCAN, the nearest-neighbour classifier, the cKDTree and `alpha_shape_auto`.** These are outside code. They are parameters with the contracts stated above, and their internals, including the `algorithm` parameter, are not modelled.
- **`np.random.shuffle`.** Randomness is not modelled. The shuffles are a parameter, one permutation per repetition.
- **pandas details.** The string label dtype, the DataFrame indexes and column names, and the string sort order of `groupby` keys are not modelled. Labels are integers, so `ClusterBoundary` orders its keys numerically.
- **Floating point.** Coordinates, weights, shares, p-values and `alpha` are exact reals, so rounding is not modelled.
- **A negative `pct_exact`.** Python slices from the end for negative values, and the model requires `pct_exact > 0`.
- **Inputs on which the source fails.** The model requires these away:
  - `fdr` with no p-values (division by zero);
  - `ensemble` with no runs or no points;
  - a draw whose subsample is empty (DBSCAN rejects it);
  - `remap_lbls` with no points (`solus[ref].iloc[0]` fails at esda/adbscan.py:318);
  - `remap_lbls` with no runs, which is `fit` with `reps = 0` (`.iloc[[0]]` fails at esda/adbscan.py:317);
  - `get_cluster_boundary` with no labels (`labels.iloc[0]` fails).
- **Parameters not modelled.**
  - `y` of `fit` is ignored by the source.
  - `xy` only selects the coordinate columns. The model receives those columns directly, as `xys`.
  - `crs` of `get_cluster_boundary` is passed through unchanged to `GeoSeries`, and the model returns the polygons without it.
- **The `remap_lbls` docstring example.** Only its reference run is proved (`Doctests.ReferenceExample`). Its aligned matrix depends on concrete centroid distances and is not proved end to end. `Doctests.EnsembleExample` therefore starts from the aligned table as the example prints it.
- Draw.FullSample: does not prove that one repetition with `pct_exact = 1` is plain DBSCAN (esda/adbscan.py:126-132). The classifier is only known to answer with some training label, so its answer at a training point is not pinned to that point's own label. Duplicate points with different labels show the classifier need not return it. The lemma proves that every point is sampled and `min_samples` is unchanged.
- Consensus.Ensemble: the contract states a most frequent label and not which of several tied labels wins. The tie rule (first seen) is stated by `Consensus.Winner`.
- Remap.Align: alignment is not idempotent in general. A tie between reference centroids may be answered differently on a second pass, so no idempotence lemma is stated. The pass always keeps the reference run and the noise positions.

## Findings

| source | as written | input that shows it | evidently intended | confidence | as-written member | corrected member |
|---|---|---|---|---|---|---|
| esda/adbscan.py:314-317 | the reference run is the one with the most distinct values, and noise counts as a value (`x.unique()`) | runs `[-1, -1]` and `[0, 0]`: both have one value, so the all-noise run is chosen and the alignment stops with "No clusters identified." although the second run has a cluster | the comments say "N. of clusters": the run with the most cluster labels, noise not counted | medium, not executed | Doctests.NoiseRunAsReference | Remap.ClusterReference |

`Remap.ClusterReferenceHasCluster` proves the intended property of the corrected choice: whenever any run has a cluster, the chosen reference has one. `Remap.Align`, `Remap.RemapLabels` and `ADBSCAN.Fit` keep the reference the code actually picks (`Remap.Reference`), so that they describe what `fit` returns.
