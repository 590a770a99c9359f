/**
 * The point store loaded at start-up from kodepos.csv: every row's postal
 * code is zero-filled to five characters, then only rows inside the rough
 * latitude/longitude box of Indonesia are kept.
 */
module Records {
  import opened Wrappers
  import opened Seqs
  import Strings

  /** A coordinate pair, (latitude, longitude), as the `[['latitude', 'longitude']]` rows. */
  datatype Point = Point(lat: real, lon: real)

  /**
   * One row of the data frame. `code` is the postal code after conversion to
   * text; `village` is the village name, absent where the CSV cell is empty.
   */
  datatype Record = Record(code: string, latitude: real, longitude: real, village: Option<string>)

  const CodeWidth: nat := 5

  const MinLatitude: real := -11.0
  const MaxLatitude: real := 6.0
  const MinLongitude: real := 95.0
  const MaxLongitude: real := 141.0

  /** The static geographic bounds, inclusive on all four sides. */
  predicate InBounds(r: Record)
  {
    MinLatitude <= r.latitude <= MaxLatitude && MinLongitude <= r.longitude <= MaxLongitude
  }

  /** The record with its code zero-filled to `CodeWidth`. */
  function NormaliseCode(r: Record): (n: Record)
    ensures n.latitude == r.latitude && n.longitude == r.longitude && n.village == r.village
    ensures |n.code| >= CodeWidth
    ensures |r.code| >= CodeWidth ==> n.code == r.code
    ensures |r.code| < CodeWidth && !Strings.HasSign(r.code) ==>
      n.code[CodeWidth - |r.code|..] == r.code && forall i :: 0 <= i < CodeWidth - |r.code| ==> n.code[i] == '0'
  {
    r.(code := Strings.ZFill(r.code, CodeWidth))
  }

  /** Applies `NormaliseCode` to every row, keeping the row order. */
  function NormaliseCodes(rows: seq<Record>): (rs: seq<Record>)
    ensures |rs| == |rows|
    ensures forall i :: 0 <= i < |rows| ==> rs[i] == NormaliseCode(rows[i])
  {
    seq(|rows|, i requires 0 <= i < |rows| => NormaliseCode(rows[i]))
  }

  /** The bounds mask applied to the data frame. */
  function WithinBounds(rs: seq<Record>): (kept: seq<Record>)
    ensures IsSubsequence(kept, rs)
    ensures forall r :: r in kept <==> r in rs && InBounds(r)
    ensures forall r :: multiset(kept)[r] == if InBounds(r) then multiset(rs)[r] else 0
  {
    Filter(rs, InBounds)
  }

  /** The data frame the server works on: normalised codes, then the bounds mask. */
  function Load(rows: seq<Record>): (rs: seq<Record>)
    ensures |rs| <= |rows|
    ensures IsSubsequence(rs, NormaliseCodes(rows))
    ensures forall r :: multiset(rs)[r] == if InBounds(r) then multiset(NormaliseCodes(rows))[r] else 0
    ensures forall r :: r in rs ==> InBounds(r) && |r.code| >= CodeWidth
    ensures forall i :: 0 <= i < |rows| && InBounds(rows[i]) ==> NormaliseCode(rows[i]) in rs
    ensures forall r :: r in rs ==> exists i :: 0 <= i < |rows| && r == NormaliseCode(rows[i])
  {
    LoadMembers(rows);
    WithinBounds(NormaliseCodes(rows))
  }

  lemma LoadMembers(rows: seq<Record>)
    ensures var kept := WithinBounds(NormaliseCodes(rows));
      && |kept| <= |rows|
      && IsSubsequence(kept, NormaliseCodes(rows))
      && (forall r :: multiset(kept)[r] == if InBounds(r) then multiset(NormaliseCodes(rows))[r] else 0)
      && (forall r :: r in kept ==> InBounds(r) && |r.code| >= CodeWidth)
      && (forall i :: 0 <= i < |rows| && InBounds(rows[i]) ==> NormaliseCode(rows[i]) in kept)
      && (forall r :: r in kept ==> exists i :: 0 <= i < |rows| && r == NormaliseCode(rows[i]))
  {
    var normalised := NormaliseCodes(rows);
    var kept := WithinBounds(normalised);
    SubsequenceElements(kept, normalised);
    forall i | 0 <= i < |rows| && InBounds(rows[i])
      ensures NormaliseCode(rows[i]) in kept
    {
      assert normalised[i] == NormaliseCode(rows[i]);
    }
    forall r | r in kept
      ensures InBounds(r) && |r.code| >= CodeWidth
      ensures exists i :: 0 <= i < |rows| && r == NormaliseCode(rows[i])
    {
      assert r in normalised;
      var i :| 0 <= i < |normalised| && normalised[i] == r;
      assert r == NormaliseCode(rows[i]);
    }
  }

  /** The `[['latitude', 'longitude']].values` of a run of records. */
  function Points(rs: seq<Record>): (ps: seq<Point>)
    ensures |ps| == |rs|
    ensures forall i :: 0 <= i < |rs| ==> ps[i] == Point(rs[i].latitude, rs[i].longitude)
  {
    seq(|rs|, i requires 0 <= i < |rs| => Point(rs[i].latitude, rs[i].longitude))
  }
}
