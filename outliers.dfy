/**
 * `remove_outliers`: the interquartile-range filter applied to a group's
 * coordinates before its convex hull is taken. Quartiles follow numpy's
 * default `percentile` (linear interpolation between order statistics).
 */
module Outliers {
  import opened Seqs
  import opened Records

  /** Below this many points the input is returned unchanged. */
  const MinPoints: nat := 4

  /** The IQR multiplier; the same at every zoom level. */
  const Multiplier: real := 1.5

  predicate Sorted(xs: seq<real>)
  {
    forall i, j :: 0 <= i < j < |xs| ==> xs[i] <= xs[j]
  }

  function InsertSorted(x: real, xs: seq<real>): (r: seq<real>)
    requires Sorted(xs)
    ensures Sorted(r)
    ensures multiset(r) == multiset(xs) + multiset{x}
  {
    if xs == [] || x <= xs[0] then [x] + xs
    else
      var rest := InsertSorted(x, xs[1..]);
      InsertBehindHead(x, xs, rest);
      [xs[0]] + rest
  }

  lemma InsertBehindHead(x: real, xs: seq<real>, rest: seq<real>)
    requires xs != [] && xs[0] < x && Sorted(xs)
    requires Sorted(rest) && multiset(rest) == multiset(xs[1..]) + multiset{x}
    ensures Sorted([xs[0]] + rest)
    ensures multiset([xs[0]] + rest) == multiset(xs) + multiset{x}
  {
    assert xs == [xs[0]] + xs[1..];
    forall j | 0 <= j < |rest|
      ensures xs[0] <= rest[j]
    {
      assert rest[j] in multiset(rest);
      if rest[j] != x {
        assert rest[j] in multiset(xs[1..]);
      }
    }
  }

  /** The order statistics of `xs`. */
  function Sort(xs: seq<real>): (r: seq<real>)
    ensures Sorted(r)
    ensures multiset(r) == multiset(xs)
  {
    if xs == [] then []
    else
      assert xs == [xs[0]] + xs[1..];
      InsertSorted(xs[0], Sort(xs[1..]))
  }

  /** numpy's linear interpolation between `a` and `b` at fraction `t`. */
  function Lerp(a: real, b: real, t: real): real
  {
    a + t * (b - a)
  }

  lemma LerpBetween(a: real, b: real, t: real)
    requires a <= b && 0.0 <= t <= 1.0
    ensures a <= Lerp(a, b, t) <= b
  {
    MulNonNegative(t, b - a);
    MulNonNegative(1.0 - t, b - a);
  }

  lemma LerpMonotone(a: real, b: real, t1: real, t2: real)
    requires a <= b && t1 <= t2
    ensures Lerp(a, b, t1) <= Lerp(a, b, t2)
  {
    MulNonNegative(t2 - t1, b - a);
  }

  lemma MulNonNegative(x: real, y: real)
    requires x >= 0.0 && y >= 0.0
    ensures x * y >= 0.0
  {
  }

  /** Whole part of the virtual index (n - 1) * p / 100. */
  function Whole(n: nat, p: nat): nat
    requires n >= 1
  {
    (n - 1) * p / 100
  }

  /** Fractional part of the virtual index (n - 1) * p / 100. */
  function Fraction(n: nat, p: nat): real
    requires n >= 1
  {
    ((n - 1) * p % 100) as real / 100.0
  }

  lemma IndexBound(n: nat, p: nat)
    requires n >= 1 && p <= 100
    ensures Whole(n, p) < n
    ensures 0.0 <= Fraction(n, p) < 1.0
  {
    assert (n - 1) * p <= (n - 1) * 100;
  }

  lemma IndexMonotone(n: nat, p1: nat, p2: nat)
    requires n >= 1 && p1 <= p2
    ensures Whole(n, p1) <= Whole(n, p2)
    ensures Whole(n, p1) == Whole(n, p2) ==> Fraction(n, p1) <= Fraction(n, p2)
  {
    var h1, h2 := (n - 1) * p1, (n - 1) * p2;
    assert h1 <= h2 by {
      assert h2 - h1 == (n - 1) * (p2 - p1);
    }
    assert h1 == 100 * (h1 / 100) + h1 % 100;
    assert h2 == 100 * (h2 / 100) + h2 % 100;
  }

  /**
   * The linear-interpolation percentile of a sorted sequence: the virtual
   * index h = (n - 1) * p / 100 is split into its whole part and its fraction,
   * and the value is interpolated between the two neighbouring elements.
   */
  function Interpolated(sorted: seq<real>, p: nat): (v: real)
    requires sorted != [] && p <= 100
    ensures p == 0 ==> v == sorted[0]
    ensures p == 100 ==> v == sorted[|sorted| - 1]
    ensures Sorted(sorted) ==> sorted[0] <= v <= sorted[|sorted| - 1]
  {
    var n := |sorted|;
    IndexBound(n, p);
    var lo := Whole(n, p);
    if lo + 1 < n then
      var v := Lerp(sorted[lo], sorted[lo + 1], Fraction(n, p));
      InterpolatedRange(sorted, lo, Fraction(n, p), v);
      v
    else sorted[lo]
  }

  lemma InterpolatedRange(sorted: seq<real>, lo: nat, t: real, v: real)
    requires lo + 1 < |sorted| && 0.0 <= t < 1.0 && v == Lerp(sorted[lo], sorted[lo + 1], t)
    ensures t == 0.0 ==> v == sorted[lo]
    ensures Sorted(sorted) ==> sorted[0] <= v <= sorted[|sorted| - 1]
  {
    if Sorted(sorted) {
      LerpBetween(sorted[lo], sorted[lo + 1], t);
    }
  }

  /**
   * numpy `percentile(xs, p)` with its default method: a value between the
   * smallest and the largest element, the smallest at p = 0 and the largest
   * at p = 100.
   */
  function Percentile(xs: seq<real>, p: nat): (v: real)
    requires xs != [] && p <= 100
    ensures exists x :: x in xs && x <= v
    ensures exists y :: y in xs && v <= y
    ensures p == 0 ==> v in xs && forall x :: x in xs ==> v <= x
    ensures p == 100 ==> v in xs && forall x :: x in xs ==> x <= v
  {
    SortLength(xs);
    PercentileRange(xs, p);
    Interpolated(Sort(xs), p)
  }

  lemma PercentileRange(xs: seq<real>, p: nat)
    requires xs != [] && p <= 100 && |Sort(xs)| == |xs|
    ensures var v := Interpolated(Sort(xs), p);
      && (exists x :: x in xs && x <= v)
      && (exists y :: y in xs && v <= y)
      && (p == 0 ==> v in xs && forall x :: x in xs ==> v <= x)
      && (p == 100 ==> v in xs && forall x :: x in xs ==> x <= v)
  {
    var sorted := Sort(xs);
    var v := Interpolated(sorted, p);
    SortedExtremes(xs, sorted);
    assert sorted[0] <= v <= sorted[|sorted| - 1];
  }

  /** The first and last order statistics are elements of `xs` and bound all of it. */
  lemma SortedExtremes(xs: seq<real>, sorted: seq<real>)
    requires xs != [] && sorted == Sort(xs) && |sorted| == |xs|
    ensures sorted[0] in xs && sorted[|sorted| - 1] in xs
    ensures forall x :: x in xs ==> sorted[0] <= x <= sorted[|sorted| - 1]
  {
    assert sorted[0] in multiset(sorted);
    assert sorted[|sorted| - 1] in multiset(sorted);
    forall x | x in xs
      ensures sorted[0] <= x <= sorted[|sorted| - 1]
    {
      assert x in multiset(xs);
      assert x in multiset(sorted);
      var k :| 0 <= k < |sorted| && sorted[k] == x;
    }
  }

  /** An interpolated value lies between the two order statistics it interpolates. */
  lemma InterpolatedBetween(sorted: seq<real>, p: nat)
    requires Sorted(sorted) && sorted != [] && p <= 100
    ensures Whole(|sorted|, p) < |sorted|
    ensures sorted[Whole(|sorted|, p)] <= Interpolated(sorted, p)
    ensures Whole(|sorted|, p) + 1 < |sorted| ==> Interpolated(sorted, p) <= sorted[Whole(|sorted|, p) + 1]
  {
    var n := |sorted|;
    IndexBound(n, p);
    var lo := Whole(n, p);
    if lo + 1 < n {
      LerpBetween(sorted[lo], sorted[lo + 1], Fraction(n, p));
    }
  }

  lemma {:induction false} SortLength(xs: seq<real>)
    ensures |Sort(xs)| == |xs|
  {
    assert |multiset(Sort(xs))| == |multiset(xs)|;
  }

  lemma InterpolatedMonotone(s: seq<real>, p1: nat, p2: nat)
    requires Sorted(s) && s != [] && p1 <= p2 <= 100
    ensures Interpolated(s, p1) <= Interpolated(s, p2)
  {
    var n := |s|;
    IndexMonotone(n, p1, p2);
    IndexBound(n, p1);
    IndexBound(n, p2);
    var lo1, lo2 := Whole(n, p1), Whole(n, p2);
    if lo1 == lo2 {
      if lo1 + 1 < n {
        LerpMonotone(s[lo1], s[lo1 + 1], Fraction(n, p1), Fraction(n, p2));
      }
    } else {
      InterpolatedBetween(s, p1);
      InterpolatedBetween(s, p2);
      assert s[lo1 + 1] <= s[lo2];
    }
  }

  /** A percentile never decreases as `p` grows; in particular Q1 <= Q3. */
  lemma PercentileMonotone(xs: seq<real>, p1: nat, p2: nat)
    requires xs != [] && p1 <= p2 <= 100
    ensures Percentile(xs, p1) <= Percentile(xs, p2)
  {
    SortLength(xs);
    InterpolatedMonotone(Sort(xs), p1, p2);
  }

  /** The inclusive interval [lower, upper] an axis value must fall in to be kept. */
  datatype Interval = Interval(lower: real, upper: real)

  predicate Contains(b: Interval, x: real)
  {
    b.lower <= x <= b.upper
  }

  /** [Q1 - 1.5 * IQR, Q3 + 1.5 * IQR] for the values `xs`; it always contains [Q1, Q3]. */
  function IqrBounds(xs: seq<real>): (b: Interval)
    requires xs != []
    ensures b.lower <= Percentile(xs, 25) <= Percentile(xs, 75) <= b.upper
  {
    var q1 := Percentile(xs, 25);
    var q3 := Percentile(xs, 75);
    PercentileMonotone(xs, 25, 75);
    var iqr := q3 - q1;
    Interval(q1 - Multiplier * iqr, q3 + Multiplier * iqr)
  }

  function LatitudesOf(ps: seq<Point>): (xs: seq<real>)
    ensures |xs| == |ps| && forall i :: 0 <= i < |ps| ==> xs[i] == ps[i].lat
  {
    seq(|ps|, i requires 0 <= i < |ps| => ps[i].lat)
  }

  function LongitudesOf(ps: seq<Point>): (xs: seq<real>)
    ensures |xs| == |ps| && forall i :: 0 <= i < |ps| ==> xs[i] == ps[i].lon
  {
    seq(|ps|, i requires 0 <= i < |ps| => ps[i].lon)
  }

  /** The mask of the filter: inside the latitude bounds and inside the longitude bounds. */
  predicate Inlier(latBounds: Interval, lonBounds: Interval, p: Point)
  {
    Contains(latBounds, p.lat) && Contains(lonBounds, p.lon)
  }

  function InlierMask(latBounds: Interval, lonBounds: Interval): Point -> bool
  {
    (p: Point) => Inlier(latBounds, lonBounds, p)
  }

  /**
   * Fewer than four points come back unchanged; otherwise the result is the
   * order-preserving subsequence of exactly the points inside the IQR bounds
   * of both axes, each kept point keeping all of its occurrences.
   */
  function RemoveOutliers(points: seq<Point>): (r: seq<Point>)
    ensures |r| <= |points|
    ensures IsSubsequence(r, points)
    ensures |points| < MinPoints ==> r == points
    ensures |points| >= MinPoints ==>
      var latBounds := IqrBounds(LatitudesOf(points));
      var lonBounds := IqrBounds(LongitudesOf(points));
      && (forall p :: p in r <==> p in points && Inlier(latBounds, lonBounds, p))
      && (forall p :: multiset(r)[p] == if Inlier(latBounds, lonBounds, p) then multiset(points)[p] else 0)
  {
    if |points| < MinPoints then
      assert IsSubsequence(points, points) by { SubsequenceRefl(points); }
      points
    else
      var latBounds := IqrBounds(LatitudesOf(points));
      var lonBounds := IqrBounds(LongitudesOf(points));
      Filter(points, InlierMask(latBounds, lonBounds))
  }

  /** A point between the quartiles on both axes always survives the filter. */
  lemma CentralPointKept(points: seq<Point>, p: Point)
    requires p in points
    requires |points| >= MinPoints ==>
      Percentile(LatitudesOf(points), 25) <= p.lat <= Percentile(LatitudesOf(points), 75) &&
      Percentile(LongitudesOf(points), 25) <= p.lon <= Percentile(LongitudesOf(points), 75)
    ensures p in RemoveOutliers(points)
  {
    if |points| >= MinPoints {
      var latBounds := IqrBounds(LatitudesOf(points));
      var lonBounds := IqrBounds(LongitudesOf(points));
      assert Inlier(latBounds, lonBounds, p);
    }
  }

  /** Sorting an already sorted sequence leaves it as it is. */
  lemma {:induction false} SortOfSorted(xs: seq<real>)
    requires Sorted(xs)
    ensures Sort(xs) == xs
  {
    if xs != [] {
      SortOfSorted(xs[1..]);
      assert xs == [xs[0]] + xs[1..];
    }
  }

  /** A percentile of sorted values, given the whole part and fraction of its virtual index. */
  lemma PercentileAt(xs: seq<real>, p: nat, k: nat, t: real)
    requires Sorted(xs) && p <= 100 && k + 1 < |xs| && Whole(|xs|, p) == k && Fraction(|xs|, p) == t
    ensures Percentile(xs, p) == Lerp(xs[k], xs[k + 1], t)
  {
    SortOfSorted(xs);
  }

  /** Values that are all equal to `c` give the single-point interval [c, c]. */
  lemma ConstantIqr(xs: seq<real>, c: real)
    requires xs != [] && forall x :: x in xs ==> x == c
    ensures IqrBounds(xs) == Interval(c, c)
  {
    assert Percentile(xs, 25) == c;
    assert Percentile(xs, 75) == c;
  }

  // A worked example: five points on one meridian, at latitudes 0, 0, 0, 1
  // and 3. The first pass drops 3; the quartiles of the four points left
  // then drop 1 as well.

  /** Latitudes 0, 0, 0, 1, 3 have Q1 = 0 and Q3 = 1. */
  lemma FirstPassLatitudes(lat: seq<real>)
    requires |lat| == 5 && lat[0] == lat[1] == lat[2] == 0.0 && lat[3] == 1.0 && lat[4] == 3.0
    ensures IqrBounds(lat) == Interval(-1.5, 2.5)
  {
    FirstPassQuartile(lat, 25, 1);
    FirstPassQuartile(lat, 75, 3);
  }

  lemma FirstPassQuartile(lat: seq<real>, p: nat, k: nat)
    requires |lat| == 5 && lat[0] == lat[1] == lat[2] == 0.0 && lat[3] == 1.0 && lat[4] == 3.0
    requires p <= 100 && k < 4 && 4 * p == 100 * k
    ensures Percentile(lat, p) == lat[k]
  {
    PercentileAt(lat, p, k, 0.0);
  }

  /** Latitudes 0, 0, 0, 1 have Q1 = 0 and Q3 = 0.25. */
  lemma SecondPassLatitudes(lat: seq<real>)
    requires |lat| == 4 && lat[0] == lat[1] == lat[2] == 0.0 && lat[3] == 1.0
    ensures IqrBounds(lat) == Interval(-0.375, 0.625)
  {
    SecondPassQ1(lat);
    SecondPassQ3(lat);
    assert Multiplier * (0.25 - 0.0) == 0.375;
  }

  lemma SecondPassQ1(lat: seq<real>)
    requires |lat| == 4 && lat[0] == lat[1] == lat[2] == 0.0 && lat[3] == 1.0
    ensures Percentile(lat, 25) == 0.0
  {
    PercentileAt(lat, 25, 0, 0.75);
  }

  lemma SecondPassQ3(lat: seq<real>)
    requires |lat| == 4 && lat[0] == lat[1] == lat[2] == 0.0 && lat[3] == 1.0
    ensures Percentile(lat, 75) == 0.25
  {
    assert 3 * 75 == 225;
    PercentileAt(lat, 75, 2, 0.25);
  }

  lemma FirstPassCoordinates(o: Point, a: Point, b: Point)
    requires o == Point(0.0, 100.0) && a == Point(1.0, 100.0) && b == Point(3.0, 100.0)
    ensures var lat := LatitudesOf([o, o, o, a, b]);
      |lat| == 5 && lat[0] == lat[1] == lat[2] == 0.0 && lat[3] == 1.0 && lat[4] == 3.0
    ensures forall x :: x in LongitudesOf([o, o, o, a, b]) ==> x == 100.0
  {
  }

  lemma SecondPassCoordinates(o: Point, a: Point)
    requires o == Point(0.0, 100.0) && a == Point(1.0, 100.0)
    ensures var lat := LatitudesOf([o, o, o, a]);
      |lat| == 4 && lat[0] == lat[1] == lat[2] == 0.0 && lat[3] == 1.0
    ensures forall x :: x in LongitudesOf([o, o, o, a]) ==> x == 100.0
  {
  }

  /** Once its bounds are known, the filter is the mask over those bounds. */
  lemma RemoveOutliersIsFilter(points: seq<Point>)
    ensures |points| >= MinPoints ==>
      RemoveOutliers(points) == Filter(points, InlierMask(IqrBounds(LatitudesOf(points)), IqrBounds(LongitudesOf(points))))
  {
  }

  lemma FilterFirstPass(o: Point, a: Point, b: Point, keep: Point -> bool)
    requires keep(o) && keep(a) && !keep(b)
    ensures Filter([o, o, o, a, b], keep) == [o, o, o, a]
  {
    FilterTail(o, a, b, keep);
    FilterKeptHead(o, [o, o, a, b], [o, o, a], keep);
  }

  lemma FilterTail(o: Point, a: Point, b: Point, keep: Point -> bool)
    requires keep(o) && keep(a) && !keep(b)
    ensures Filter([o, o, a, b], keep) == [o, o, a]
  {
    FilterTriple(o, a, b, keep);
    FilterKeptHead(o, [o, a, b], [o, a], keep);
  }

  lemma FilterTriple(o: Point, a: Point, b: Point, keep: Point -> bool)
    requires keep(o) && keep(a) && !keep(b)
    ensures Filter([o, a, b], keep) == [o, a]
  {
    FilterPair(a, b, keep);
    FilterKeptHead(o, [a, b], [a], keep);
  }

  lemma FilterPair(a: Point, b: Point, keep: Point -> bool)
    requires keep(a) && !keep(b)
    ensures Filter([a, b], keep) == [a]
  {
    FilterCons(b, [], keep);
    FilterKeptHead(a, [b], [], keep);
  }

  lemma FilterSecondPass(o: Point, a: Point, keep: Point -> bool)
    requires keep(o) && !keep(a)
    ensures Filter([o, o, o, a], keep) == [o, o, o]
  {
    FilterTriple(o, o, a, keep);
    FilterKeptHead(o, [o, o, a], [o, o], keep);
  }

  /** A kept head stays in front of what the rest filters to. */
  lemma FilterKeptHead(x: Point, s: seq<Point>, r: seq<Point>, keep: Point -> bool)
    requires keep(x) && Filter(s, keep) == r
    ensures Filter([x] + s, keep) == [x] + r
  {
    FilterCons(x, s, keep);
  }

  /** The first pass over latitudes 0, 0, 0, 1, 3 on one meridian drops 3. */
  lemma FirstPass(o: Point, a: Point, b: Point)
    requires o == Point(0.0, 100.0) && a == Point(1.0, 100.0) && b == Point(3.0, 100.0)
    ensures RemoveOutliers([o, o, o, a, b]) == [o, o, o, a]
  {
    var ps := [o, o, o, a, b];
    FirstPassCoordinates(o, a, b);
    FirstPassLatitudes(LatitudesOf(ps));
    ConstantIqr(LongitudesOf(ps), 100.0);
    var latBounds, lonBounds := Interval(-1.5, 2.5), Interval(100.0, 100.0);
    assert InlierMask(latBounds, lonBounds)(o) && InlierMask(latBounds, lonBounds)(a);
    assert !InlierMask(latBounds, lonBounds)(b);
    FilterFirstPass(o, a, b, InlierMask(latBounds, lonBounds));
    RemoveOutliersIsFilter(ps);
  }

  /** The second pass over latitudes 0, 0, 0, 1 drops 1 as well. */
  lemma SecondPass(o: Point, a: Point)
    requires o == Point(0.0, 100.0) && a == Point(1.0, 100.0)
    ensures RemoveOutliers([o, o, o, a]) == [o, o, o]
  {
    var ps := [o, o, o, a];
    SecondPassCoordinates(o, a);
    SecondPassLatitudes(LatitudesOf(ps));
    ConstantIqr(LongitudesOf(ps), 100.0);
    var latBounds, lonBounds := Interval(-0.375, 0.625), Interval(100.0, 100.0);
    assert InlierMask(latBounds, lonBounds)(o);
    assert !InlierMask(latBounds, lonBounds)(a);
    FilterSecondPass(o, a, InlierMask(latBounds, lonBounds));
    RemoveOutliersIsFilter(ps);
  }

  /**
   * The filter is not idempotent: quartiles taken again over the kept points
   * can drop points the first pass kept.
   */
  lemma RemoveOutliersNotIdempotent(o: Point, a: Point, b: Point)
    requires o == Point(0.0, 100.0) && a == Point(1.0, 100.0) && b == Point(3.0, 100.0)
    ensures RemoveOutliers([o, o, o, a, b]) == [o, o, o, a]
    ensures RemoveOutliers(RemoveOutliers([o, o, o, a, b])) == [o, o, o]
    ensures RemoveOutliers(RemoveOutliers([o, o, o, a, b])) != RemoveOutliers([o, o, o, a, b])
  {
    FirstPass(o, a, b);
    SecondPass(o, a);
    assert |[o, o, o]| != |[o, o, o, a]|;
  }
}
