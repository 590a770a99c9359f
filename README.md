# Indonesian postal-code map: aggregation pipeline

This project models the data pipeline of the Indonesian postal-code map
server (`main.py`). It leaves out the web server and the map rendering, and
models these steps:

- **Loading.** Each postal code is zero-filled to five characters, as Python
  `str.zfill(5)` does. Only rows with latitude in [-11, 6] and longitude in
  [95, 141] are kept, bounds inclusive (module `Records`).
- **Grouping.** The requested zoom level is clamped to [1, 5]. A record's
  prefix is the first `level` characters of its code. `groupby('prefix')`
  gives one group per distinct prefix, in ascending prefix order. Each group
  has a mean latitude, a mean longitude and a village count (module
  `Grouping`).
- **Outlier removal.** `remove_outliers` returns fewer than four points
  unchanged. Otherwise it keeps the points that lie within
  [Q1 - 1.5·IQR, Q3 + 1.5·IQR] on both axes. Q1 and Q3 are numpy's default
  linear-interpolation percentiles (module `Outliers`).
- **Region decision.** Each group yields exactly one region. It is a marker
  at the mean of all the group's records when:
  - the group has fewer than 3 points; or
  - fewer than 3 points survive the filter; or
  - the convex hull fails.

  Otherwise it is a polygon through the filtered points at the hull's vertex
  indices, in hull order (module `Regions`).
- **Colour.** `get_color` yields `'#'` and six lowercase hex digits. The
  digits encode Python's `hash` of the prefix modulo 2^24 (module `Colors`).

Two foreign pieces are parameters of `Regions.CreateMap`:

- `hull: seq<Point> -> Option<seq<nat>>` stands for scipy's `ConvexHull`.
  It gives the vertex indices, or `None` when the call raises.
- `hash: string -> int` stands for Python's `hash`.

If the hull gives an index that is out of range, numpy's fancy indexing
raises `IndexError`. The source's `except` catches this, so the model
returns a marker in that case too (`Regions.Gather`).

`hash(s) & 0xFFFFFF` on a Python integer equals `hash(s)` modulo 2^24,
because Python integers use unbounded two's complement. Dafny's `%` is
Euclidean and never negative, so `hash(s) % 0x100_0000` is exact, even for
negative hashes.

Behaviour of the code worth stating, because it is easy to assume
otherwise:

- The code keeps no level cache and no persisted snapshot. `create_map`
  runs again on every request (main.py:145).
- Regions come out in ascending prefix order, because pandas' `groupby`
  sorts its keys by default.
- The count shown on a region is pandas `count` on the `village` column.
  That is the number of records whose village is present, not a population
  figure.
- `remove_outliers` is not idempotent. Quartiles computed again over the
  kept points can drop more points. Five points on one meridian at
  latitudes 0, 0, 0, 1 and 3 show it: the first pass drops 3, and a second
  pass also drops 1 (`Outliers.RemoveOutliersNotIdempotent`).

## Model

| member | source | states |
|---|---|---|
| Strings.ZFill | main.py:15 | result length is max(len, width); a string already `width` long is unchanged; otherwise the original ends the result and only '0's precede it (after the sign, when it starts with '+' or '-') |
| Records.NormaliseCode | main.py:15 | the code has at least 5 characters; a short unsigned code becomes zeros followed by the original code; coordinates and village unchanged |
| Records.NormaliseCodes | main.py:15 | the column operation keeps row count and order, normalising every row |
| Records.InBounds | main.py:19-22 | the bounds mask: latitude in [-11, 6] and longitude in [95, 141], all four bounds inclusive |
| Records.WithinBounds | main.py:19-22 | an order-preserving subsequence holding exactly the records inside the inclusive bounds, each with all its occurrences |
| Records.Load | main.py:15-22 | the normalised rows that are in bounds, in row order (a subsequence) and each with all of its occurrences; every loaded record is in bounds with a code of length >= 5 and comes from some row |
| Records.LoadMembers | main.py:15-22 | the facts behind Load: the kept records are an order-preserving subsequence of the normalised rows with the in-bounds ones at full multiplicity; each is the normalisation of some row, and each in-bounds row survives |
| Records.Points | main.py:84 | `[['latitude', 'longitude']].values`: one point per record, in record order, carrying that record's coordinates |
| Grouping.ClampZoom | main.py:66-69 | the level is in [1, 5]; in-range values are unchanged, values below 1 give 1, values above 5 give 5 |
| Grouping.Prefix | main.py:72 | the prefix is a leading part of the code, of length min(level, length of code) |
| Grouping.PrefixOfPrefix | main.py:72 | prefixes are hierarchical: the coarse prefix of a fine prefix is the coarse prefix of the code |
| Grouping.KeyedBy | main.py:84 | the mask `df['prefix'] == key`: a record is selected exactly when its prefix at the level equals the key |
| Grouping.Group | main.py:84 | exactly the records whose prefix equals the key, in data-frame order, with all their occurrences |
| Grouping.GroupNested | main.py:72-84 | every group at a finer level lies inside the group of its coarser prefix |
| Grouping.InsertKey | main.py:75 | inserting a key into a strictly ascending key list keeps it strictly ascending and adds exactly that key |
| Grouping.GroupKeys | main.py:75-79 | the group keys are strictly ascending (hence distinct); every record's prefix is a key; every key is the prefix of some record |
| Grouping.GroupOfKeyNonEmpty | main.py:75-84 | the group of every key holds at least one record |
| Grouping.Mean | main.py:76-77 | the mean lies between the smallest and the largest value |
| Grouping.MeanWithin | main.py:76-77 | any bounds holding for every value also hold for the mean |
| Grouping.Centroid | main.py:75-77 | the mean latitude and mean longitude of a group, each between the smallest and the largest coordinate of the group |
| Grouping.CentroidWithin | main.py:75-79 | the group centroid lies in every box that contains all of the group's records |
| Grouping.VillageCount | main.py:78 | never more than the number of records; equal to it when every village is present |
| Grouping.PartitionCount | main.py:75-84 | for distinct keys covering all prefixes, the per-group counts of any record property add up to the total count |
| Grouping.GroupingPartitions | main.py:72-84 | the grouping is a partition: distinct keys, every record in the group of exactly its own prefix, and group sizes summing to the number of records |
| Outliers.Sort | main.py:35-41 | the order statistics: sorted, and a permutation of the input |
| Outliers.Interpolated | main.py:35-40 | numpy's linear interpolation on sorted values: the first value at p = 0, the last at p = 100, and always between the first and the last |
| Outliers.InterpolatedBetween | main.py:35-41 | a linear-interpolation percentile lies between the two order statistics at its virtual index |
| Outliers.Percentile | main.py:35-40 | `np.percentile(xs, p)`: lies between two elements of `xs`; is the minimum at p = 0 and the maximum at p = 100 |
| Outliers.PercentileMonotone | main.py:35-41 | a percentile never decreases as p grows, so Q1 <= Q3 on each axis |
| Outliers.IqrBounds | main.py:33-47 | the bounds Q1 - 1.5·IQR and Q3 + 1.5·IQR enclose [Q1, Q3] |
| Outliers.RemoveOutliers | main.py:27-54 | fewer than 4 points come back unchanged; otherwise an order-preserving subsequence holding exactly the points inside the latitude and the longitude bounds, with all their occurrences |
| Outliers.CentralPointKept | main.py:44-54 | a point between the quartiles on both axes is never removed |
| Outliers.RemoveOutliersNotIdempotent | main.py:27-54 | for latitudes 0, 0, 0, 1, 3 on one meridian the first pass keeps four points and a second pass keeps three, so the filter is not idempotent |
| Colors.ToHex | main.py:58 | the `x` format yields at least one lowercase hex digit |
| Colors.ParseToHex | main.py:58 | reading the hex numeral back gives the original value |
| Colors.ToHexLength | main.py:58 | a value below 16^w has at most w hex digits |
| Colors.ParseLeadingZeros | main.py:58 | zero padding does not change the value of a numeral |
| Colors.FormatHex | main.py:58 | the `06x` format yields lowercase hex digits that read back as the value, exactly `width` of them when the value fits |
| Colors.GetColor | main.py:56-58 | seven characters: '#' then six lowercase hex digits that decode to hash(feature) mod 2^24 |
| Colors.SameColor | main.py:56-58 | two prefixes have the same colour exactly when their hashes agree modulo 2^24 |
| Regions.Gather | main.py:115 | `points[indices]` succeeds exactly when every index is in range, and then picks those points in index order |
| Regions.HullOutline | main.py:113-115 | `filtered_points[ConvexHull(filtered_points).vertices]` succeeds exactly when the hull answers and all its indices are in range, and then yields only filtered points |
| Regions.Synthesize | main.py:83-137 | the region of one group carries the group's prefix, and a group of fewer than three records is always a marker; the whole decision is stated by SynthesizeDecision |
| Regions.SynthesizeDecision | main.py:85-137 | label, count and colour come from the group; a marker sits at the unfiltered centroid; a polygon arises exactly when raw and filtered sizes are >= 3 and the hull gives in-range indices, with the filtered points at those indices as its vertices |
| Regions.SmallGroupIsMarker | main.py:85-95 | a group of 1 or 2 records always yields a marker at its centroid |
| Regions.PolygonVerticesAreInliers | main.py:99-125 | every polygon vertex is a filtered point of the group, so it lies inside the IQR bounds on both axes |
| Regions.MarkerInBounds | main.py:87-94 | markers of in-bounds records lie inside the geographic bounds |
| Regions.TotalVillagesOverGroups | main.py:78-89 | the village totals over regions equal the per-group village counts added up |
| Regions.RegionsPartitionRecords | main.py:75-139 | one region per group: prefixes strictly ascending, every record's prefix present, and village counts summing to the villages of all records |
| Regions.GroupRegion | main.py:83-137 | one loop iteration (early exits, filter, hull with its fallback) yields exactly the region the decision describes |
| Regions.CreateMap | main.py:60-139 | for the clamped level, one region per group in key order, each the decided region; prefixes distinct and ascending, every record covered, village counts conserved |

## Left out

- The HTTP route `get_map` and the HTML/JavaScript controls (main.py:141-175): web plumbing and string assembly.
- Reading `kodepos.csv` with pandas, and the `print`/`raise` when that fails (main.py:12-13, 23-25): I/O. The model starts from the rows as records.
- The `astype(str)` conversion of the code column (main.py:15): codes are taken as text already. Only `zfill` is modelled.
- folium's `Map`, `CircleMarker` and `Polygon` and their styling: base location, zoom, radius, opacity and weight (main.py:63, 87-136). The output is a sequence of `Region` values that carry prefix, village count, colour and geometry. The popup text built from prefix and count is not modelled.
- scipy's `ConvexHull` (main.py:113): a foreign geometry routine, so it is the parameter `hull`. Hull geometry is not verified.
- Python's process-randomised `hash` (main.py:58): foreign and differs between runs, so it is the parameter `hash`.
- The `print` in the hull `except` branch (main.py:127): logging only.
- IEEE floating point: coordinates, means and percentiles are exact `real`s. Rounding, NaN and infinities are not modelled. In pandas a NaN coordinate fails the bounds mask, so no loaded record could carry one anyway. numpy's lerp swaps formulas when the fraction is at least 0.5; in exact arithmetic the two formulas agree.
- The in-place overwrite of the global `df['prefix']` column shared across requests (main.py:72): grouping is a function of the records and the level.
- A level cache with persistence: the code has none, so there is nothing to model.
- uvicorn start-up (main.py:177-179).
- The default argument of `create_map(zoom_level: int = 1)` (main.py:60): `Regions.CreateMap` always takes the level explicitly. Passing 1 gives the default behaviour.

