# map_decoder in Dafny

A model of the classification and aggregation pipeline of `map_decoder`. The
pipeline reads a choropleth map image of Sri Lanka and recovers, for every
administrative region, which legend label its pixels carry. The model covers
the steps that run once the image has been loaded:

- **Saturation mask and colour matrix.** Every washed-out pixel becomes the
  background. The masked image is clustered to a few colours and then masked
  again (`image.dfy`, module `ImageOps`). The clustering is a parameter.
- **Grid sampler.** The pixel box comes from the reference points tagged N, S,
  E and W. The grid step comes from the number of pixel rows per degree of
  latitude. The colour matrix is scanned column by column, and a sample is kept
  only when its colour is not the background, has a label, and lies in a
  region (`geo.dfy`, module `Geo`). The pixel-to-latlng fit and the region
  lookup are parameters.
- **Colour histogram.** Each colour's share of the samples, sorted by
  decreasing share with a stable sort (`image.dfy`; the sort is in
  `stable_sort.dfy`).
- **Region/label tally.** A nested counting dictionary: region id, then
  label, then number of samples (`ent_tally.dfy`).
- **Region resolver.**
  - A first-match search over the regions of one level whose id contains
    the parent id.
  - The walk down province, district, DSD and GND (`ent_future.dfy`).
  - The region lists and the polygon containment test are parameters.
- **Dominant-label colouring.** The legend is inverted. Each region is
  painted with the colour of its most frequent label, or left white. The
  population share of the coloured regions is computed
  (`choropleth.dfy`).

Python dictionaries keep insertion order. They are modelled by `Dicts.ODict`:
a key sequence without duplicates, plus a map over exactly those keys
(`dicts.dfy`). Colours are integer RGB triples (`colors.dfy`). The decoder's
own division by 255 does not change a saturation, so it is not modelled.
Every exception the core can raise on the modelled paths is an error value
of a `Result`.

The in-place parts are methods proved against specification functions:

| method | specification |
|---|---|
| `GetExtremePoints` | `ExtremePointsOf` |
| `ScanGrid` | `Scan` |
| `GetLatLngColorInfoList` | `InfoList` |
| `ReplaceLowSaturationColors` | `Masked` |
| `GetMostCommonColors` | `MostCommonColors` |
| `GetEntToLabelToN` | `TallyOf` |
| `FromLatLng` | `SearchLevel` |
| `ColourEnts` | `Colour` |

The lemmas beside each specification function state what the source
promises about it.

## Model

| member | source | states |
|---|---|---|
| Geo.LastTagged | src/map_decoder/MapDecoderGeoMixin.py:25-36 | the index found is the last reference carrying the tag; None exactly when no reference carries it |
| Geo.GetExtremePoints | src/map_decoder/MapDecoderGeoMixin.py:14-38 | the loop returns, for each of N, S, W and E, the pixel coordinate of the last reference with that tag (N gives y_min, S y_max, W x_min, E x_max); None stands for the untouched infinite start value |
| Geo.UntaggedReferenceIgnored | src/map_decoder/MapDecoderGeoMixin.py:27-36 | a reference without an extreme-point tag changes no bound |
| Geo.MaxOf | src/map_decoder/MapDecoderGeoMixin.py:42-44 | `max` over a non-empty sequence is an element and bounds every element |
| Geo.MinOf | src/map_decoder/MapDecoderGeoMixin.py:43-45 | `min` over a non-empty sequence is an element and is below every element |
| Geo.Trunc | src/map_decoder/MapDecoderGeoMixin.py:49 | `int()` of a float truncates toward zero: within one of the value, on the side of zero |
| Geo.GetStep | src/map_decoder/MapDecoderGeoMixin.py:40-52 | an empty reference list and equal latitudes everywhere are exactly the two ways `get_step` raises; otherwise the latitude span is positive, and with a non-negative box size the step is non-negative |
| Geo.GetInfo | src/map_decoder/MapDecoderGeoMixin.py:54-93 | the pixel is dropped as background iff its colour is the background; as unlabelled iff it is not background and its label is missing or empty; as unresolved iff it has a label and no region contains its transformed latlng; otherwise the sample carries the input xy, the colour, the colour's label, the transformed latlng and the id of the region found there |
| Geo.Range | src/map_decoder/MapDecoderGeoMixin.py:117 | `range(start, end, step)` with a positive step: empty iff start ≥ end; element i is start + i·step; every element lies in [start, end); strictly increasing; nothing in range is left out after the last element |
| Geo.GridLines | src/map_decoder/MapDecoderGeoMixin.py:115-120 | the grid lines of one axis strictly increase and lie inside both the image and the extreme-point bounds |
| Geo.ScanRangesSpec | src/map_decoder/MapDecoderGeoMixin.py:108-120 | the x and y grid lines increase and lie inside both the image and the extreme-point box; the zero-step error arises exactly when the step is 0 and both x bounds exist; a missing N tag is reported only when there is no N bound |
| Geo.ScanGrid | src/map_decoder/MapDecoderGeoMixin.py:121-134 | the nested loops (x outer, y inner) collect exactly the successful `get_info` results in scan order |
| Geo.GetLatLngColorInfoList | src/map_decoder/MapDecoderGeoMixin.py:95-135 | the result is the error raised first, in the source's order: an empty reference list (the fit fails on it before `get_step` runs), flat latitudes, missing W, missing E, zero step, missing N, missing S; or the scan of the grid built from the box and the step, with the transform fitted to the references |
| Geo.ColumnMembers | src/map_decoder/MapDecoderGeoMixin.py:123-134 | one column yields at most one sample per row; each sample lies in that column on one of the scanned rows, has the matrix colour at its pixel, and is well formed |
| Geo.ColumnOrder | src/map_decoder/MapDecoderGeoMixin.py:123-134 | within one column, samples come in increasing y |
| Geo.ScanMembers | src/map_decoder/MapDecoderGeoMixin.py:121-134 | every sample's pixel is a scanned grid point, its colour is `color_matrix[y, x]`, and it is well formed |
| Geo.ScanOrder | src/map_decoder/MapDecoderGeoMixin.py:121-134 | the samples are column-major: increasing x, and increasing y for equal x |
| Geo.ScanLength | src/map_decoder/MapDecoderGeoMixin.py:121-134 | there are at most \|x_range\| × \|y_range\| samples |
| Geo.InfoListSpec | src/map_decoder/MapDecoderGeoMixin.py:115-135 | for a successful call, every sample lies inside the image and inside the extreme-point box, the list is column-major, has at most as many entries as grid points, and each entry has the matrix colour at its pixel, is not background, has a label, carries that label, and carries the id of the region found at its transformed latlng |
| Colors.MaxChannel | src/map_decoder/MapDecoderImageMixin.py:43 | the largest channel: one of the three, and at least each of them |
| Colors.MinChannel | src/map_decoder/MapDecoderImageMixin.py:44 | the smallest channel: one of the three, and at most each of them |
| Colors.Saturation | src/map_decoder/MapDecoderImageMixin.py:43-47 | `(max - min) / max`, 0 for black: it lies in [0, 1] for non-negative channels and is 0 for a grey pixel |
| ImageOps.Masked | src/map_decoder/MapDecoderImageMixin.py:49-51 | a pixel becomes the background iff its saturation is strictly below the threshold; otherwise it is unchanged |
| ImageOps.MaskedIdempotent | src/map_decoder/MapDecoderImageMixin.py:49-51 | masking twice with the same parameters equals masking once |
| ImageOps.MaskedKeepsThreshold | src/map_decoder/MapDecoderImageMixin.py:49 | a pixel whose saturation equals the threshold is kept (the comparison is strict) |
| ImageOps.ReplaceLowSaturationColors | src/map_decoder/MapDecoderImageMixin.py:28-53 | the result is a new array of the input's shape whose every pixel is the masked input pixel; the input is not modified |
| ImageOps.ClusterColors | src/map_decoder/MapDecoderImageMixin.py:11-26 | a new array of the same shape with every pixel replaced by the centre of its cluster |
| ImageOps.DecodedPixel | src/map_decoder/MapDecoderImageMixin.py:64-77 | after mask, cluster, mask, a pixel is the background or has saturation at least the threshold, whatever the clustering returned |
| ImageOps.DecodedPixelMaskStable | src/map_decoder/MapDecoderImageMixin.py:64-77 | one more pass of the mask leaves the colour matrix unchanged |
| ImageOps.GetColorMatrix | src/map_decoder/MapDecoderImageMixin.py:55-79 | the result has the input's shape, each pixel is the input pixel through mask, cluster and mask, and so each is the background or saturated enough |
| ImageOps.GetMostCommonColors | src/map_decoder/MapDecoderImageMixin.py:81-104 | the counting loop, the division and the sort build exactly the histogram `MostCommonColors` |
| ImageOps.ColorCountsTotal | src/map_decoder/MapDecoderImageMixin.py:85-91 | the raw colour counts add up to the number of samples |
| ImageOps.FrequenciesCounts | src/map_decoder/MapDecoderImageMixin.py:85-95 | one pair per key of the colour counter, in its order; each share is the colour's count divided by the number of samples |
| ImageOps.FrequenciesCover | src/map_decoder/MapDecoderImageMixin.py:85-95 | the share list has no repeated colour and has a pair for exactly the colours of the samples |
| ImageOps.FrequenciesRanked | src/map_decoder/MapDecoderImageMixin.py:85-95 | before sorting, colours are listed in the order of their first occurrence among the samples |
| ImageOps.HistogramLayout | src/map_decoder/MapDecoderImageMixin.py:97-103 | the sorted list is a permutation of the share list and non-increasing; the resulting dict lists its pairs in sorted order with their shares |
| ImageOps.HistogramHasColor | src/map_decoder/MapDecoderImageMixin.py:85-104 | a colour is a key of the histogram iff some sample has that colour |
| ImageOps.MostCommonColorsKeys | src/map_decoder/MapDecoderImageMixin.py:85-104 | the histogram's keys are exactly the colours of the samples; no samples give an empty dict (and no division) |
| ImageOps.MostCommonColorsShares | src/map_decoder/MapDecoderImageMixin.py:85-95 | each colour maps to the number of samples with that colour divided by the number of samples |
| ImageOps.MostCommonColorsOrder | src/map_decoder/MapDecoderImageMixin.py:97-103 | shares never increase along the histogram, and colours with equal shares keep the order of their first appearance (the sort is stable even in reverse) |
| StableSort.SortDescSpec | src/map_decoder/MapDecoderImageMixin.py:97-103 | `sorted(..., reverse=True)` on the value: a permutation, non-increasing, and for every value the pairs with that value keep their relative order |
| StableSort.SortHeadIsFirstMaximum | src/map_decoder/MapDecoderDrawMixin.py:164-168 | the head of the descending sort is the first pair (in input order) holding the maximum value |
| StableSort.SortDescTiesByRank | src/map_decoder/MapDecoderImageMixin.py:97-103 | if the input is listed by increasing rank, equal values in the sorted output are still listed by increasing rank |
| Dicts.Put | src/map_decoder/MapDecoderEntMixin.py:14-19 | assignment to a dict key: the map gets the new value, and the key is appended to the order only when it is new |
| Dicts.CounterCounts | src/map_decoder/MapDecoderImageMixin.py:85-91 | the counting dict has exactly the elements of the sequence as keys, each with its number of occurrences |
| Dicts.CounterKeyOrder | src/map_decoder/MapDecoderImageMixin.py:86-90 | the counting dict lists its keys in the order of their first occurrence |
| Dicts.CounterTotal | src/map_decoder/MapDecoderImageMixin.py:85-91 | the counts add up to the length of the sequence |
| Dicts.FromItemsDistinct | src/map_decoder/MapDecoderImageMixin.py:97-103 | `dict(items)` of pairs with distinct keys keeps their order and values |
| Dicts.FromItemsKeys | src/map_decoder/MapDecoderDrawMixin.py:151-153 | `dict(items)` has exactly the keys of the items |
| Dicts.FromItemsLastWins | src/map_decoder/MapDecoderDrawMixin.py:151-153 | an item whose key no later item repeats gives that key its value: the last assignment wins |
| Dicts.FromItemsSource | src/map_decoder/MapDecoderDrawMixin.py:151-153 | every entry of `dict(items)` is one of the items |
| EntTally.GetEntToLabelToN | src/map_decoder/MapDecoderEntMixin.py:7-21 | the loop builds exactly `TallyOf(infos)`: for each sample, the region's dict and the label's count are created when missing, and the count is incremented |
| EntTally.TallyShape | src/map_decoder/MapDecoderEntMixin.py:10-19 | the outer keys are those of the counter of region ids; a region is a key iff one of its samples exists; each inner dict is the counter of that region's labels |
| EntTally.TallyCounts | src/map_decoder/MapDecoderEntMixin.py:10-19 | a region is a key iff some sample carries it; inner dicts are never empty; the inner keys are exactly the region's labels; `idx[e][l]` is the number of samples carrying both e and l, and is at least 1 |
| EntTally.RegionCounts | src/map_decoder/MapDecoderEntMixin.py:14-19 | for one region: a non-empty inner dict with exactly its labels, each counted |
| EntTally.TallyOrder | src/map_decoder/MapDecoderEntMixin.py:14-17 | regions appear in the order of their first sample, labels in the order of their first sample in that region |
| EntTally.BumpTotal | src/map_decoder/MapDecoderEntMixin.py:14-19 | counting one sample adds one to the sum of all counts |
| EntTally.TallyTotal | src/map_decoder/MapDecoderEntMixin.py:10-21 | the counts over all regions and labels add up to the number of samples |
| EntFuture.ContainsStr | src/gig_future/EntFuture.py:15 | Python's `in` on strings holds iff the needle occurs somewhere in the haystack (not only as a prefix) |
| EntFuture.Candidates | src/gig_future/EntFuture.py:15 | the candidates are exactly the regions whose id contains the parent id |
| EntFuture.FirstWhere | src/gig_future/EntFuture.py:18-23 | the first element accepted, with no earlier element accepted; None iff none is accepted |
| EntFuture.FirstWhereCandidates | src/gig_future/EntFuture.py:15-23 | searching the filtered candidates finds what searching all regions with both tests finds |
| EntFuture.FromLatLng | src/gig_future/EntFuture.py:7-23 | returns the first region, in list order, whose id contains the parent id and whose geometry contains the point built as (longitude, latitude); None when there is none; the level defaults to province and the parent id to "LK" |
| EntFuture.PutLevel | src/gig_future/EntFuture.py:38-39 | recording the region of the next level extends the levels found by that level and makes the region's id the parent of the following level |
| EntFuture.ParentAtPut | src/gig_future/EntFuture.py:38-39 | recording the region of the next level keeps every earlier level's region and parent |
| EntFuture.LocatedPut | src/gig_future/EntFuture.py:35-39 | when the recorded region is what the next level's search returns, every level found still holds its own search result |
| EntFuture.ListRegionsFromLatLng | src/gig_future/EntFuture.py:25-41 | the keys found are a prefix of province, district, DSD, GND; each level's region is the search result restricted by the previous level's id (the country "LK" first); when the walk stops early, the search at the next level finds nothing |
| Choropleth.InvertLabelsKeys | src/map_decoder/MapDecoderDrawMixin.py:151-153 | the inverted legend has exactly the labels of the legend as keys |
| Choropleth.InvertLabelsInverts | src/map_decoder/MapDecoderDrawMixin.py:151-153 | each label maps to a legend colour that carries that label |
| Choropleth.InvertLabelsLastWins | src/map_decoder/MapDecoderDrawMixin.py:151-153 | when several colours share a label, the one listed last in the legend wins |
| Choropleth.DominantLabelSpec | src/map_decoder/MapDecoderDrawMixin.py:163-168 | there is a dominant label iff the region has some label count; it has the largest count, and every label inserted before it has a smaller count, so ties go to the earliest-inserted label |
| Choropleth.FillsErrorPersists | src/map_decoder/MapDecoderDrawMixin.py:158-173 | once a region has raised, the loop's outcome is that error |
| Choropleth.ColourEnts | src/map_decoder/MapDecoderDrawMixin.py:151-173 | the population loop and the division produce exactly `Colour`: every region's fill in order and the coloured share, or the error of the first region that raises, or the division by a zero total |
| Choropleth.FillsSpec | src/map_decoder/MapDecoderDrawMixin.py:158-173 | the loop succeeds iff every region's fill does; it then yields one fill per region, each that region's own; otherwise it yields the error of the first failing region |
| Choropleth.FillOfSpec | src/map_decoder/MapDecoderDrawMixin.py:161-173 | a region is white iff it is absent from the tally; a painted region gets a legend colour whose label is its dominant label |
| Choropleth.TallyHasDominantLabels | src/map_decoder/MapDecoderDrawMixin.py:163-168 | a tally built from samples has a dominant label for every region in it |
| Choropleth.PopulationBounds | src/map_decoder/MapDecoderDrawMixin.py:156-162 | with non-negative populations, 0 ≤ coloured population ≤ total population |
| Choropleth.ColouredShareBounds | src/map_decoder/MapDecoderDrawMixin.py:187 | with non-negative populations, the coloured share is in [0, 1] |

## Left out

- The least-squares fit of the pixel-to-latlng polynomial (`Poly2GeoMapper.fit` and `transform`) is floating-point linear algebra. It is the parameter `fit`, and the transform it returns includes the rounding of the latlng to 6 places.
- The region lookup `idx_regions_from_latlng(latlng, map_ent_type)` and the choice of the map's level are the parameter `regionAt`. `idx_regions_from_latlng` is not part of this model.
- `Ent.list_from_type` and the shapely containment test are external data and geometry. They are the parameters `listFromType` and `contains`. The result that Colombo Town Hall lies in Western / Colombo / Thimbirigasyaya / Kurunduwatta depends on that data and is not stated.
- k-means clustering is the parameter `centreOf`, one cluster centre per pixel. `n_clusters` and the random seed only matter inside it.
- Pixels are modelled as integer RGB triples. The float arrays, `(c * 255).astype(int)`, the final division of the colour matrix by 255, and the float/int conversions in `get_info` are not modelled.
- Geo.GetStep: the step `int((y_max - y_min) / (lat_max - lat_min) * box_size_lat)` is computed over exact reals, not IEEE double precision. Where the exact product is a whole number, the source's rounding can land just below it and truncate to one less. For example, latitudes 7.3 and 6.1 twelve rows apart with a box size of 0.1 give 0.9999999999999999, so the source's step is 0 and `range` raises, while the model's step is 1 and it scans.
- ImageOps.Masked and Colors.Saturation: the saturation is computed over exact reals, not the float32 arithmetic of the source. A pixel whose exact saturation equals the threshold is kept by the model, as MaskedKeepsThreshold states, but the source can compute a value just below the threshold and mask it. For example, (255, 153, 153) with a threshold of 0.4 gives 0.39999998 in float32.
- ImageOps.MostCommonColors: shares are exact reals. `round(v / n, 4)` is not modelled, and it can make two unequal shares equal, which changes the order of the histogram.
- The top-left pixel of the sample image being white depends on the image file and on k-means, so it is not stated. The model proves only that every pixel is the background or saturated enough.
- Image loading, `cached_property` caching, logging and `tqdm` progress are I/O.
- Rendering (`generate_inspection_image`, `draw_map`, `draw_legend`, `format_axes`, `generate_info_list_image`, all matplotlib calls and temporary files) is I/O. Only the decisions inside `generate_image_for_ents` are modelled: the legend inversion, the fills and the population share. The annotation text and its count of regions are not.
- Geo.GetLatLngColorInfoList, Geo.InfoList and Geo.ScanRanges require a non-negative `box_size_lat`. With a negative one, `range` counts downward and numpy wraps negative indices, and neither is modelled.
- A reference's `extreme_point` is one of N, S, E, W or absent. Other strings are ignored by the source just as an absent tag is, and the model has no separate case for them.
- A sample dict without `ent_id` or `label`, or a reference without `xy` or `latlng`, raises `KeyError` in the source. Samples and references are records here, so those fields are always present.
- Choropleth.ColourEnts models `Ent.list_from_type(map_ent_type)` as the input sequence `regions`, each with an id and an integer population.
- The end-to-end decode test and the example script use an older calling convention and CLI glue, and are not modelled.
