# Region merging of the image difference finder

The image difference finder asks a vision model for rectangles that differ
between two images. Before it crops them, it consolidates them with
`ImageDifferenceFinder.merge_and_adjust_regions`.

That routine consumes the caller's list of rectangles. It works in passes:

- It pops the first remaining rectangle as a seed.
- It moves every other remaining rectangle whose centre lies within `distance_threshold` of the seed's centre into the seed's cluster, and removes each one from the list.
- It emits the cluster's bounding box, grown by `margin` on every side and clamped to the canvas `[0, width] x [0, height]`.

This project models that routine and proves what it promises.

The model has three modules:

- `Regions` (`regions.dfy`): the rectangle, the centre-distance test, and the padded, clamped box of a cluster.
- `RegionMerge` (`merge.dfy`): the clustering as pure functions. `Absorbed` and `Kept` are the two sides of one scan. `Clusters` is the sequence of clusters. `Merge` is the returned list. The lemmas state the partition, membership, order, containment and canvas properties.
- `ImageDifferenceFinder` (`image_difference_finder.dfy`): the routine as the loop it is.
  - `RegionList` is the caller's list, changed in place by `PopFront` (`pop(0)`) and `Remove` (`remove`).
  - `AbsorbNearRegions` is the inner scan over a copy of the list.
  - `MergeAndAdjustRegions` is the outer `while regions` loop.
  - Each method is proved against the functions of `RegionMerge`.

Coordinates, threshold and margin are integers, so the `int(...)` conversions are the identity.

The distance test `sqrt(dx² + dy²) <= t` on centres `(x + w/2, y + h/2)` is decided exactly on doubled centres: `(2x + w, 2y + h)`, with `dx² + dy² <= 4t²` and `t >= 0`. `NearIffDistanceAtMost` proves this equivalent to comparing the real square root with the threshold. That includes a negative threshold: it admits nothing, because a distance is never negative.

`list.remove` drops the first element *equal* to its argument, which need not be the element just scanned. `AbsorbNearRegions` proves that it always is. Any equal rectangle earlier in the list would have got the same verdict, so it is no longer in the list.

## Model

| member | source | states |
|---|---|---|
| Regions.DistanceSquared4IsScaled | image_difference_finder.py:141-143 | the integer distance on doubled centres is exactly four times the squared Euclidean distance between the real centres `(x + w/2, y + h/2)` |
| Regions.NearIffDistanceAtMost | image_difference_finder.py:141-153 | for the non-negative square root d of the squared centre distance, `Near(a, b, t)` holds iff `d <= t`; this is the inclusive test `distance(region, other) <= distance_threshold` |
| Regions.MinOf | image_difference_finder.py:157-158 | `min` over a non-empty cluster returns one of its values and is at most each of them |
| Regions.MaxOf | image_difference_finder.py:159-160 | `max` over a non-empty cluster returns one of its values and is at least each of them |
| Regions.AdjustedBox | image_difference_finder.py:157-168 | the emitted box lies in the canvas (`x >= 0`, `y >= 0`, `x + width <= W`, `y + height <= H`); for every member, its left/top edge is at most the member's padded edge clamped at 0, and its right/bottom edge at least the member's padded edge clamped at the canvas size |
| Regions.AdjustedBoxIsTight | image_difference_finder.py:157-168 | each of the four edges of the box equals the padded, clamped edge of some member, so it is the smallest box meeting those bounds |
| Regions.MemberInsideBox | image_difference_finder.py:157-165 | with `margin >= 0`, a member intersected with the canvas lies inside the box of its cluster |
| Regions.DegenerateBoxIsEmitted | image_difference_finder.py:162-175 | no guard rejects a degenerate result: a member at x = 50 on a canvas of width 20 gives a box of width -30 |
| RegionMerge.Absorbed | image_difference_finder.py:152-155 | the regions taken in one scan are at most as many as were scanned, and each is one of them and near the seed |
| RegionMerge.Kept | image_difference_finder.py:152-155 | the regions left in one scan are at most as many as were scanned, and each is one of them and not near the seed |
| RegionMerge.ScanSplits | image_difference_finder.py:152-155 | one scan sends every region to exactly one side: the multisets of taken and left regions add up to the scanned ones |
| RegionMerge.ScanDecidesByDistance | image_difference_finder.py:152-155 | a scanned region is taken iff it is near the seed, and left iff it is not |
| RegionMerge.AbsorbedConcat | image_difference_finder.py:152-155 | scanning a concatenation takes from each part in turn, in order |
| RegionMerge.KeptConcat | image_difference_finder.py:152-155 | scanning a concatenation leaves from each part in turn, in order |
| RegionMerge.KeptIsSubsequence | image_difference_finder.py:152-155 | the regions left by a scan keep their relative order |
| RegionMerge.Clusters | image_difference_finder.py:148-155 | there are at most as many clusters as input regions, at least one for a non-empty input, and no cluster is empty |
| RegionMerge.Merge | image_difference_finder.py:146-177 | the returned list has at most as many boxes as there are input regions; it is empty iff the input is empty; every box lies in the canvas |
| RegionMerge.ClustersPartition | image_difference_finder.py:149-155 | the input is partitioned: the clusters, concatenated, are a permutation of the input regions |
| RegionMerge.MemberOfClusters | image_difference_finder.py:150-154 | a member of any cluster is among the clustered regions |
| RegionMerge.MembersNearSeed | image_difference_finder.py:152-154 | every member of a cluster after the first is near that cluster's seed |
| RegionMerge.LaterClustersFarFromSeed | image_difference_finder.py:148-155 | a region in a later cluster is not near the seed of any earlier cluster, since it was in the list and left behind when that seed scanned |
| RegionMerge.NoChaining | image_difference_finder.py:148-155 | membership is seed-only: with threshold 10, B is near A and C is near B, yet C is not near A and the clusters of [A, B, C] are [[A, B], [C]] |
| RegionMerge.ClusterComesFromWorklist | image_difference_finder.py:148-155 | the k-th cluster is the first region of the list remaining after k passes, followed by what it absorbs from the rest of that list |
| RegionMerge.WorklistIsSubsequence | image_difference_finder.py:149-155 | the list remaining after any number of passes keeps the input's relative order |
| RegionMerge.WorklistIsUnclustered | image_difference_finder.py:149-155 | after k passes, the remaining list and the first k clusters together are a permutation of the input |
| RegionMerge.ClustersStep | image_difference_finder.py:148-155 | the first cluster is the first region followed by what it absorbs, and the remaining clusters are those of the regions it leaves |
| RegionMerge.SeedsInInputOrder | image_difference_finder.py:148-150 | the seeds of the clusters, hence the sources of the returned boxes, appear in input order |
| RegionMerge.BoxOfCluster | image_difference_finder.py:157-175 | the k-th returned box is the adjusted box of the k-th cluster |
| RegionMerge.ClusterMembersInsideBox | image_difference_finder.py:157-165 | with `margin >= 0`, every region of the k-th cluster, intersected with the canvas, lies inside the k-th returned box |
| RegionMerge.MergeStep | image_difference_finder.py:148-175 | one pass of the outer loop: the first box is that of the first region's cluster, and the rest is the merge of the regions it leaves |
| RegionMerge.SingleRegionIsPadded | image_difference_finder.py:157-175 | a single 10x10 region at (50, 50) with margin 20 becomes the box (30, 30, 50, 50) |
| RegionMerge.NearRegionsMerge | image_difference_finder.py:148-175 | two regions whose centres are about 14.1 apart merge under threshold 250 into their common bounding box |
| RegionMerge.FarRegionsStayApart | image_difference_finder.py:148-175 | the same two regions under threshold 1 stay two separate boxes, in input order |
| RegionMerge.PairClusters | image_difference_finder.py:148-155 | two regions form one cluster iff they are near, and two singleton clusters otherwise |
| RegionMerge.ClustersOfOne | image_difference_finder.py:148-155 | a single region forms a single cluster of its own |
| ImageDifferenceFinder.RemoveFirst | image_difference_finder.py:155 | `remove` of a present element shortens the list by one; of an absent one, leaves it unchanged |
| ImageDifferenceFinder.RemoveFirstAfterPrefix | image_difference_finder.py:155 | when no element before an occurrence of x equals x, `remove(x)` deletes exactly that occurrence |
| ImageDifferenceFinder.AbsorbedStep | image_difference_finder.py:152-154 | scanning one more region extends the taken regions by it iff it is near the seed |
| ImageDifferenceFinder.KeptStep | image_difference_finder.py:152-155 | scanning one more region extends the left regions by it iff it is not near the seed |
| ImageDifferenceFinder.RegionList.PopFront | image_difference_finder.py:149 | `pop(0)` returns the first element and leaves the list without it |
| ImageDifferenceFinder.RegionList.Remove | image_difference_finder.py:155 | `remove(x)` leaves the list without its first element equal to x |
| ImageDifferenceFinder.AbsorbNearRegions | image_difference_finder.py:150-155 | the cluster built is the seed followed by the near regions in list order, and the caller's list is left holding exactly the regions not near the seed, in order |
| ImageDifferenceFinder.MergeAndAdjustRegions | image_difference_finder.py:130-177 | the loop terminates, returns `Merge` of the original list (so every property above holds of its result), and leaves the caller's list empty |
| ImageDifferenceFinder.MergeOfEmptyList | image_difference_finder.py:146-148 | on an empty list the loop never runs and the result is empty |

## Left out

- Floating point: centres `x + w/2`, `math.sqrt` and its rounding are replaced by exact integer arithmetic on doubled centres. A non-integer coordinate, threshold or margin, and its truncation by `int(...)`, is not modelled.
- `encode_image`, `get_image_dimensions`, `save_cropped_region` and the output file names: image and file I/O.
- `prepare_payload` and `query_openai`: building and sending the HTTP request to the vision model.
- `process_images` and use_img_diff.py: orchestration, JSON parsing and printing. The only point that bears on the merge is that `process_images` calls it only for a non-empty list of regions; the model needs no such restriction.
- ImageDifferenceFinder.RegionList.PopFront: `pop(0)` on an empty list raises `IndexError` in Python; this is modelled as a precondition, which the merge loop always meets.
- ImageDifferenceFinder.RegionList.Remove: `remove` of an absent element raises `ValueError` in Python; this is modelled as a precondition, which the inner scan always meets.
- Aliasing: the caller's list is one `RegionList` object, and the scan iterates over a snapshot of its contents, as `list(regions)` does. Other references to the same Python list, or to the region dictionaries, are not modelled.
- Merging an already merged list again: the model states no property about it, since boxes grown by the margin can come within the threshold of each other.
