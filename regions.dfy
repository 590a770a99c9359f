/**
 * `create_map`: the zoom level is clamped, the records are grouped by
 * prefix, and each group yields exactly one region: a marker at the group's
 * centroid when it has too few points, when too few survive the outlier
 * filter, or when the convex hull cannot be formed; otherwise a polygon
 * through the hull vertices of the filtered points.
 *
 * scipy's `ConvexHull` is the parameter `hull`: given the filtered points it
 * answers the indices of the hull vertices in hull order, or None where it
 * raises. Python's `hash` is the parameter `hash`.
 */
module Regions {
  import opened Wrappers
  import opened Seqs
  import opened Strings
  import opened Records
  import opened Grouping
  import opened Outliers
  import opened Colors

  /** A group, raw or filtered, needs at least this many points for a polygon. */
  const MinPolygonPoints: nat := 3

  /** What is drawn for one prefix group: a circle marker or a polygon. */
  datatype Region =
    | Marker(prefix: string, villages: nat, color: string, location: Point)
    | Polygon(prefix: string, villages: nat, color: string, vertices: seq<Point>)

  /** numpy `points[indices]`: None where some index is out of range (an IndexError). */
  function Gather(points: seq<Point>, indices: seq<nat>): (r: Option<seq<Point>>)
    ensures r.Some? <==> forall i :: 0 <= i < |indices| ==> indices[i] < |points|
    ensures r.Some? ==> |r.value| == |indices|
    ensures r.Some? ==> forall i :: 0 <= i < |indices| ==> r.value[i] == points[indices[i]]
  {
    if indices == [] then Some([])
    else if indices[0] >= |points| then None
    else
      match Gather(points, indices[1..])
      case None => None
      case Some(rest) => Some([points[indices[0]]] + rest)
  }

  /** `filtered_points[ConvexHull(filtered_points).vertices]`, None where either step raises. */
  function HullOutline(filtered: seq<Point>, hull: seq<Point> -> Option<seq<nat>>): (r: Option<seq<Point>>)
    ensures r.Some? <==>
      hull(filtered).Some? && forall i :: 0 <= i < |hull(filtered).value| ==> hull(filtered).value[i] < |filtered|
    ensures r.Some? ==> forall v :: v in r.value ==> v in filtered
  {
    match hull(filtered)
    case None => None
    case Some(indices) => Gather(filtered, indices)
  }

  /** The region one group yields (the body of the `create_map` loop). */
  function Synthesize(prefix: string, group: seq<Record>, hull: seq<Point> -> Option<seq<nat>>, hash: string -> int): (r: Region)
    requires group != []
    ensures r.prefix == prefix
    ensures |group| < MinPolygonPoints ==> r.Marker?
  {
    var villages := VillageCount(group);
    var color := GetColor(hash, prefix);
    var marker := Marker(prefix, villages, color, Centroid(group));
    var points := Points(group);
    if |points| < MinPolygonPoints then marker
    else
      var filtered := RemoveOutliers(points);
      if |filtered| < MinPolygonPoints then marker
      else
        match HullOutline(filtered, hull)
        case None => marker
        case Some(vertices) => Polygon(prefix, villages, color, vertices)
  }

  /**
   * The fallback decision. The label, village count and colour of a region
   * come from its group; a marker sits at the centroid of ALL the group's
   * records; a polygon exists exactly when the group and its filtered points
   * both have at least three points and the hull answers in-range indices,
   * and its vertices are then the filtered points at those indices, in hull
   * order.
   */
  lemma SynthesizeDecision(prefix: string, group: seq<Record>, hull: seq<Point> -> Option<seq<nat>>, hash: string -> int)
    requires group != []
    ensures var r := Synthesize(prefix, group, hull, hash);
      r.prefix == prefix && r.villages == VillageCount(group) && r.color == GetColor(hash, prefix)
    ensures var r := Synthesize(prefix, group, hull, hash);
      r.Marker? ==> r.location == Centroid(group)
    ensures var r := Synthesize(prefix, group, hull, hash);
      var filtered := RemoveOutliers(Points(group));
      r.Polygon? <==>
        && |group| >= MinPolygonPoints
        && |filtered| >= MinPolygonPoints
        && hull(filtered).Some?
        && forall i :: 0 <= i < |hull(filtered).value| ==> hull(filtered).value[i] < |filtered|
    ensures var r := Synthesize(prefix, group, hull, hash);
      var filtered := RemoveOutliers(Points(group));
      r.Polygon? ==>
        && |r.vertices| == |hull(filtered).value|
        && forall i :: 0 <= i < |r.vertices| ==> r.vertices[i] == filtered[hull(filtered).value[i]]
  {
  }

  /** Groups of one or two records always become a marker at their centroid. */
  lemma SmallGroupIsMarker(prefix: string, group: seq<Record>, hull: seq<Point> -> Option<seq<nat>>, hash: string -> int)
    requires 0 < |group| < MinPolygonPoints
    ensures Synthesize(prefix, group, hull, hash) == Marker(prefix, VillageCount(group), GetColor(hash, prefix), Centroid(group))
  {
  }

  /**
   * Every polygon vertex is one of the group's own points that survived the
   * outlier filter, so it lies inside the IQR bounds on both axes.
   */
  lemma PolygonVerticesAreInliers(prefix: string, group: seq<Record>, hull: seq<Point> -> Option<seq<nat>>, hash: string -> int)
    requires group != []
    ensures var r := Synthesize(prefix, group, hull, hash);
      var points := Points(group);
      r.Polygon? ==>
        forall v :: v in r.vertices ==>
          && v in RemoveOutliers(points)
          && v in points
          && (|points| >= MinPoints ==> Inlier(IqrBounds(LatitudesOf(points)), IqrBounds(LongitudesOf(points)), v))
  {
    var r := Synthesize(prefix, group, hull, hash);
    var points := Points(group);
    var filtered := RemoveOutliers(points);
    SynthesizeDecision(prefix, group, hull, hash);
    if r.Polygon? {
      SubsequenceElements(filtered, points);
      forall v | v in r.vertices
        ensures v in filtered
      {
        var i :| 0 <= i < |r.vertices| && r.vertices[i] == v;
        assert v == filtered[hull(filtered).value[i]];
      }
    }
  }

  /** A marker of in-bounds records is itself inside the geographic bounds. */
  lemma MarkerInBounds(prefix: string, group: seq<Record>, hull: seq<Point> -> Option<seq<nat>>, hash: string -> int)
    requires group != [] && forall r :: r in group ==> InBounds(r)
    ensures var r := Synthesize(prefix, group, hull, hash);
      r.Marker? ==>
        MinLatitude <= r.location.lat <= MaxLatitude && MinLongitude <= r.location.lon <= MaxLongitude
  {
    CentroidWithin(group, MinLatitude, MaxLatitude, MinLongitude, MaxLongitude);
    SynthesizeDecision(prefix, group, hull, hash);
  }

  /** The villages shown on all regions together. */
  function TotalVillages(regions: seq<Region>): nat
  {
    if regions == [] then 0 else regions[0].villages + TotalVillages(regions[1..])
  }

  lemma {:induction false} TotalVillagesOverGroups(regions: seq<Region>, records: seq<Record>, level: nat, keys: seq<string>)
    requires |regions| == |keys|
    requires forall i :: 0 <= i < |keys| ==> regions[i].villages == VillageCount(Group(records, level, keys[i]))
    ensures TotalVillages(regions) == CountOver(records, level, keys, HasVillage)
  {
    if keys != [] {
      TotalVillagesOverGroups(regions[1..], records, level, keys[1..]);
    }
  }

  /** The regions of one zoom level, region i being the one group i of `groupby('prefix')` yields. */
  ghost predicate RegionsOfGroups(records: seq<Record>, level: nat, hull: seq<Point> -> Option<seq<nat>>, hash: string -> int, regions: seq<Region>)
  {
    var keys := GroupKeys(records, level);
    && |regions| == |keys|
    && forall i :: 0 <= i < |regions| ==>
         Group(records, level, keys[i]) != [] &&
         regions[i] == Synthesize(keys[i], Group(records, level, keys[i]), hull, hash)
  }

  /**
   * What one region per group gives the whole map: prefixes in strictly
   * ascending order (so no prefix twice), every record's prefix present,
   * and the village counts adding up to the villages of all records.
   */
  lemma RegionsPartitionRecords(records: seq<Record>, level: nat, hull: seq<Point> -> Option<seq<nat>>, hash: string -> int, regions: seq<Region>)
    requires RegionsOfGroups(records, level, hull, hash, regions)
    ensures forall i, j :: 0 <= i < j < |regions| ==> LexLess(regions[i].prefix, regions[j].prefix)
    ensures forall r :: r in records ==>
      exists i :: 0 <= i < |regions| && regions[i].prefix == Prefix(r.code, level)
    ensures TotalVillages(regions) == VillageCount(records)
  {
    var keys := GroupKeys(records, level);
    forall i | 0 <= i < |regions|
      ensures regions[i].prefix == keys[i]
      ensures regions[i].villages == VillageCount(Group(records, level, keys[i]))
    {
      SynthesizeDecision(keys[i], Group(records, level, keys[i]), hull, hash);
    }
    GroupingPartitions(records, level);
    PartitionCount(records, level, keys, HasVillage);
    TotalVillagesOverGroups(regions, records, level, keys);
    forall r | r in records
      ensures exists i :: 0 <= i < |regions| && regions[i].prefix == Prefix(r.code, level)
    {
      var k := Prefix(r.code, level);
      assert k in keys;
      var i :| 0 <= i < |keys| && keys[i] == k;
      assert regions[i].prefix == k;
    }
  }

  /**
   * One iteration of the `create_map` loop: the early exits to a marker, the
   * outlier filter, and the hull with its `except` fallback.
   */
  method GroupRegion(prefix: string, group: seq<Record>, hull: seq<Point> -> Option<seq<nat>>, hash: string -> int)
    returns (region: Region)
    requires group != []
    ensures region == Synthesize(prefix, group, hull, hash)
  {
    var villages := VillageCount(group);
    var color := GetColor(hash, prefix);
    var marker := Marker(prefix, villages, color, Centroid(group));
    var points := Points(group);
    if |points| < MinPolygonPoints {
      return marker;
    }
    var filtered := RemoveOutliers(points);
    if |filtered| < MinPolygonPoints {
      return marker;
    }
    match HullOutline(filtered, hull)
    case None =>
      region := marker;
    case Some(vertices) =>
      region := Polygon(prefix, villages, color, vertices);
  }

  /**
   * Builds the regions of the map for the requested zoom level: one region
   * per prefix group, in ascending prefix order, each the one `Synthesize`
   * describes. The prefixes are distinct and cover every record, and the
   * village counts of the regions add up to the villages of all records.
   */
  method CreateMap(records: seq<Record>, zoomLevel: int, hull: seq<Point> -> Option<seq<nat>>, hash: string -> int)
    returns (regions: seq<Region>)
    ensures var level := ClampZoom(zoomLevel);
      var keys := GroupKeys(records, level);
      && |regions| == |keys|
      && forall i :: 0 <= i < |regions| ==>
           Group(records, level, keys[i]) != [] &&
           regions[i] == Synthesize(keys[i], Group(records, level, keys[i]), hull, hash)
    ensures forall i, j :: 0 <= i < j < |regions| ==> LexLess(regions[i].prefix, regions[j].prefix)
    ensures forall r :: r in records ==>
      exists i :: 0 <= i < |regions| && regions[i].prefix == Prefix(r.code, ClampZoom(zoomLevel))
    ensures TotalVillages(regions) == VillageCount(records)
  {
    var zoom := zoomLevel;
    if zoom < 1 {
      zoom := 1;
    } else if zoom > 5 {
      zoom := 5;
    }
    var level: nat := zoom;
    assert level == ClampZoom(zoomLevel);

    var keys := GroupKeys(records, level);
    regions := [];
    for i := 0 to |keys|
      invariant |regions| == i
      invariant forall j :: 0 <= j < i ==>
        Group(records, level, keys[j]) != [] &&
        regions[j] == Synthesize(keys[j], Group(records, level, keys[j]), hull, hash)
    {
      var group := Group(records, level, keys[i]);
      GroupOfKeyNonEmpty(records, level, keys[i]);
      var region := GroupRegion(keys[i], group, hull, hash);
      regions := regions + [region];
    }
    assert RegionsOfGroups(records, level, hull, hash, regions);
    RegionsPartitionRecords(records, level, hull, hash, regions);
  }
}
