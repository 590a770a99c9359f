/**
 * Grouping of the data frame by postal-code prefix: the zoom level is
 * clamped, every record's prefix is the first `level` characters of its
 * code, and `groupby('prefix')` yields one group per distinct prefix, in
 * ascending order of prefix, with the mean latitude, mean longitude and the
 * number of villages of the group.
 */
module Grouping {
  import opened Wrappers
  import opened Seqs
  import opened Strings
  import opened Records

  const MinLevel: nat := 1
  const MaxLevel: nat := 5

  /** The zoom level actually used: out-of-range requests are clamped, never rejected. */
  function ClampZoom(zoom: int): (level: nat)
    ensures MinLevel <= level <= MaxLevel
    ensures MinLevel <= zoom <= MaxLevel ==> level == zoom
    ensures zoom < MinLevel ==> level == MinLevel
    ensures zoom > MaxLevel ==> level == MaxLevel
  {
    if zoom < MinLevel then MinLevel else if zoom > MaxLevel then MaxLevel else zoom
  }

  /** Python `code[:level]`: the first `level` characters, or all of a shorter code. */
  function Prefix(code: string, level: nat): (p: string)
    ensures p <= code
    ensures |p| == if level <= |code| then level else |code|
  {
    if level <= |code| then code[..level] else code
  }

  /** Prefixes are hierarchical: the coarser prefix of a finer prefix is the coarser prefix. */
  lemma PrefixOfPrefix(code: string, coarse: nat, fine: nat)
    requires coarse <= fine
    ensures Prefix(Prefix(code, fine), coarse) == Prefix(code, coarse)
  {
  }

  /** The membership mask `df['prefix'] == key`. */
  function KeyedBy(level: nat, key: string): Record -> bool
  {
    (r: Record) => Prefix(r.code, level) == key
  }

  /** The records whose prefix at `level` is `key`, in data-frame order. */
  function Group(records: seq<Record>, level: nat, key: string): (g: seq<Record>)
    ensures IsSubsequence(g, records)
    ensures forall r :: r in g <==> r in records && Prefix(r.code, level) == key
    ensures forall r :: multiset(g)[r] == if Prefix(r.code, level) == key then multiset(records)[r] else 0
  {
    Filter(records, KeyedBy(level, key))
  }

  /** Every group at a finer level lies inside the group of its coarser prefix. */
  lemma GroupNested(records: seq<Record>, coarse: nat, fine: nat, key: string)
    requires coarse <= fine
    ensures forall r :: r in Group(records, fine, key) ==> r in Group(records, coarse, Prefix(key, coarse))
  {
    forall r | r in Group(records, fine, key)
      ensures r in Group(records, coarse, Prefix(key, coarse))
    {
      PrefixOfPrefix(r.code, coarse, fine);
    }
  }

  predicate StrictlyAscending(keys: seq<string>)
  {
    forall i, j :: 0 <= i < j < |keys| ==> LexLess(keys[i], keys[j])
  }

  lemma AscendingDistinct(keys: seq<string>)
    requires StrictlyAscending(keys)
    ensures Distinct(keys)
  {
    forall i, j | 0 <= i < j < |keys|
      ensures keys[i] != keys[j]
    {
      if keys[i] == keys[j] {
        LexIrreflexive(keys[i]);
      }
    }
  }

  /** Adds `key` to a strictly ascending key list, at its place, unless it is already there. */
  function InsertKey(key: string, keys: seq<string>): (r: seq<string>)
    requires StrictlyAscending(keys)
    ensures StrictlyAscending(r)
    ensures forall k :: k in r <==> k == key || k in keys
  {
    if keys == [] then [key]
    else if key == keys[0] then keys
    else if LexLess(key, keys[0]) then
      assert forall j :: 0 < j < |keys| ==> LexLess(key, keys[j]) by {
        forall j | 0 < j < |keys| ensures LexLess(key, keys[j]) {
          LexTransitive(key, keys[0], keys[j]);
        }
      }
      [key] + keys
    else
      var rest := InsertKey(key, keys[1..]);
      assert LexLess(keys[0], key) by {
        LexTotal(key, keys[0]);
      }
      assert forall k :: k in rest ==> LexLess(keys[0], k);
      [keys[0]] + rest
  }

  /** The distinct prefixes of the records at `level`, ascending: the rows of `groupby('prefix')`. */
  function GroupKeys(records: seq<Record>, level: nat): (keys: seq<string>)
    ensures StrictlyAscending(keys)
    ensures forall r :: r in records ==> Prefix(r.code, level) in keys
    ensures forall k :: k in keys ==> exists r :: r in records && Prefix(r.code, level) == k
  {
    if records == [] then []
    else
      assert forall r :: r in records ==> r == records[0] || r in records[1..];
      InsertKey(Prefix(records[0].code, level), GroupKeys(records[1..], level))
  }

  /** Every key produced by the grouping names a non-empty group. */
  lemma GroupOfKeyNonEmpty(records: seq<Record>, level: nat, key: string)
    requires key in GroupKeys(records, level)
    ensures Group(records, level, key) != []
  {
    var r :| r in records && Prefix(r.code, level) == key;
    assert r in Group(records, level, key);
  }

  function Sum(xs: seq<real>): real
  {
    if xs == [] then 0.0 else xs[0] + Sum(xs[1..])
  }

  lemma {:induction false} SumWithin(xs: seq<real>, lo: real, hi: real)
    requires forall i :: 0 <= i < |xs| ==> lo <= xs[i] <= hi
    ensures lo * |xs| as real <= Sum(xs) <= hi * |xs| as real
  {
    if xs != [] {
      SumWithin(xs[1..], lo, hi);
      assert |xs| as real == 1.0 + |xs[1..]| as real;
    }
  }

  function Minimum(xs: seq<real>): real
    requires xs != []
  {
    if |xs| == 1 then xs[0] else var m := Minimum(xs[1..]); if xs[0] <= m then xs[0] else m
  }

  function Maximum(xs: seq<real>): real
    requires xs != []
  {
    if |xs| == 1 then xs[0] else var m := Maximum(xs[1..]); if xs[0] >= m then xs[0] else m
  }

  lemma {:induction false} MinMaxBound(xs: seq<real>)
    requires xs != []
    ensures forall i :: 0 <= i < |xs| ==> Minimum(xs) <= xs[i] <= Maximum(xs)
  {
    if |xs| > 1 {
      MinMaxBound(xs[1..]);
      assert forall i :: 1 <= i < |xs| ==> xs[i] == xs[1..][i - 1];
    }
  }

  /** Any bounds on the inputs bound the mean. */
  lemma MeanWithin(xs: seq<real>, lo: real, hi: real)
    requires xs != []
    requires forall i :: 0 <= i < |xs| ==> lo <= xs[i] <= hi
    ensures lo <= Sum(xs) / |xs| as real <= hi
  {
    SumWithin(xs, lo, hi);
  }

  /** Arithmetic mean (pandas `mean`); it lies between the smallest and the largest input. */
  function Mean(xs: seq<real>): (m: real)
    requires xs != []
    ensures Minimum(xs) <= m <= Maximum(xs)
  {
    MinMaxBound(xs);
    MeanWithin(xs, Minimum(xs), Maximum(xs));
    Sum(xs) / |xs| as real
  }

  function Latitudes(rs: seq<Record>): (xs: seq<real>)
    ensures |xs| == |rs| && forall i :: 0 <= i < |rs| ==> xs[i] == rs[i].latitude
  {
    seq(|rs|, i requires 0 <= i < |rs| => rs[i].latitude)
  }

  function Longitudes(rs: seq<Record>): (xs: seq<real>)
    ensures |xs| == |rs| && forall i :: 0 <= i < |rs| ==> xs[i] == rs[i].longitude
  {
    seq(|rs|, i requires 0 <= i < |rs| => rs[i].longitude)
  }

  /** The aggregated `latitude`/`longitude` means of a group. */
  function Centroid(group: seq<Record>): (c: Point)
    requires group != []
    ensures Minimum(Latitudes(group)) <= c.lat <= Maximum(Latitudes(group))
    ensures Minimum(Longitudes(group)) <= c.lon <= Maximum(Longitudes(group))
  {
    Point(Mean(Latitudes(group)), Mean(Longitudes(group)))
  }

  /** The centroid of a group lies in every box that holds all of the group's records. */
  lemma CentroidWithin(group: seq<Record>, latLo: real, latHi: real, lonLo: real, lonHi: real)
    requires group != []
    requires forall r :: r in group ==> latLo <= r.latitude <= latHi && lonLo <= r.longitude <= lonHi
    ensures latLo <= Centroid(group).lat <= latHi
    ensures lonLo <= Centroid(group).lon <= lonHi
  {
    MeanWithin(Latitudes(group), latLo, latHi);
    MeanWithin(Longitudes(group), lonLo, lonHi);
  }

  predicate HasVillage(r: Record)
  {
    r.village.Some?
  }

  /** pandas `count` on the `village` column: the records whose village is present. */
  function VillageCount(rs: seq<Record>): (n: nat)
    ensures n <= |rs|
    ensures (forall r :: r in rs ==> HasVillage(r)) ==> n == |rs|
  {
    var present := Filter(rs, HasVillage);
    assert (forall r :: r in rs ==> HasVillage(r)) ==> present == rs by {
      if forall r :: r in rs ==> HasVillage(r) {
        FilterAll(rs, HasVillage);
      }
    }
    |present|
  }

  lemma {:induction false} FilterAll(rs: seq<Record>, keep: Record -> bool)
    requires forall r :: r in rs ==> keep(r)
    ensures Filter(rs, keep) == rs
    decreases |rs|
  {
    if rs != [] {
      FilterAll(rs[1..], keep);
      FilterCons(rs[0], rs[1..], keep);
      assert rs == [rs[0]] + rs[1..];
    }
  }

  /** Summed over `keys`, the number of records of each group that satisfy `q`. */
  function CountOver(records: seq<Record>, level: nat, keys: seq<string>, q: Record -> bool): nat
  {
    if keys == [] then 0
    else |Filter(Group(records, level, keys[0]), q)| + CountOver(records, level, keys[1..], q)
  }

  lemma {:induction false} CountOverCons(r: Record, rest: seq<Record>, level: nat, keys: seq<string>, q: Record -> bool)
    ensures CountOver([r] + rest, level, keys, q)
         == CountOver(rest, level, keys, q) + (if q(r) then Occurrences(keys, Prefix(r.code, level)) else 0)
  {
    if keys != [] {
      CountOverCons(r, rest, level, keys[1..], q);
      var k := keys[0];
      var keyed := KeyedBy(level, k);
      FilterCons(r, rest, keyed);
      FilterCons(r, Filter(rest, keyed), q);
      if !keyed(r) {
        assert Group([r] + rest, level, k) == Group(rest, level, k);
      }
    }
  }

  /**
   * The partition law: when the keys are distinct and cover every record's
   * prefix, the groups together hold every record exactly once, so summing
   * any per-group count over the groups gives the count over all records.
   */
  lemma {:induction false} PartitionCount(records: seq<Record>, level: nat, keys: seq<string>, q: Record -> bool)
    requires Distinct(keys)
    requires forall r :: r in records ==> Prefix(r.code, level) in keys
    ensures CountOver(records, level, keys, q) == |Filter(records, q)|
    decreases |records|
  {
    if records == [] {
      EmptyCount(level, keys, q);
    } else {
      var r, rest := records[0], records[1..];
      assert records == [r] + rest;
      PartitionCount(rest, level, keys, q);
      CountOverCons(r, rest, level, keys, q);
      OccursOnce(keys, Prefix(r.code, level));
      FilterCons(r, rest, q);
    }
  }

  lemma {:induction false} EmptyCount(level: nat, keys: seq<string>, q: Record -> bool)
    ensures CountOver([], level, keys, q) == 0
  {
    if keys != [] {
      EmptyCount(level, keys[1..], q);
    }
  }

  /**
   * `groupby('prefix')` partitions the records: each record lies in the group
   * of exactly one key, the one equal to its prefix, and the group sizes add
   * up to the number of records.
   */
  lemma GroupingPartitions(records: seq<Record>, level: nat)
    ensures Distinct(GroupKeys(records, level))
    ensures forall r :: r in records ==> Prefix(r.code, level) in GroupKeys(records, level)
    ensures forall r, k :: r in Group(records, level, k) <==> r in records && Prefix(r.code, level) == k
    ensures CountOver(records, level, GroupKeys(records, level), (_: Record) => true) == |records|
  {
    var keys := GroupKeys(records, level);
    AscendingDistinct(keys);
    PartitionCount(records, level, keys, (_: Record) => true);
    FilterAll(records, (_: Record) => true);
  }
}
