/**
 * `get_color`: the colour of a region is `'#'` followed by the low 24 bits
 * of Python's `hash` of the prefix, written as six lowercase hexadecimal
 * digits (the format `06x`).
 */
module Colors {
  import Strings

  /** 2^24: `hash(s) & 0xFFFFFF` keeps the value modulo this. */
  const ColorRange: nat := 0x100_0000

  const ColorDigits: nat := 6

  predicate IsLowerHex(c: char)
  {
    '0' <= c <= '9' || 'a' <= c <= 'f'
  }

  function HexDigit(d: nat): (c: char)
    requires d < 16
    ensures IsLowerHex(c)
  {
    if d < 10 then ('0' as int + d) as char else ('a' as int + d - 10) as char
  }

  /** The value of a hexadecimal digit character. */
  function DigitValue(c: char): (d: nat)
    requires IsLowerHex(c)
    ensures d < 16
  {
    if c <= '9' then c as int - '0' as int else c as int - 'a' as int + 10
  }

  lemma DigitRoundTrip(d: nat)
    requires d < 16
    ensures DigitValue(HexDigit(d)) == d
  {
  }

  /** Python `format(v, 'x')`: the shortest lowercase hexadecimal numeral of `v`. */
  function ToHex(v: nat): (s: string)
    ensures |s| >= 1
    ensures forall i :: 0 <= i < |s| ==> IsLowerHex(s[i])
    decreases v
  {
    (if v < 16 then [] else ToHex(v / 16)) + [HexDigit(v % 16)]
  }

  /** Reads a lowercase hexadecimal numeral back as a number. */
  function ParseHex(s: string): nat
    requires forall i :: 0 <= i < |s| ==> IsLowerHex(s[i])
  {
    if s == [] then 0 else ParseHex(s[..|s| - 1]) * 16 + DigitValue(s[|s| - 1])
  }

  function Pow16(w: nat): nat
  {
    if w == 0 then 1 else 16 * Pow16(w - 1)
  }

  lemma {:induction false} ParseToHex(v: nat)
    ensures ParseHex(ToHex(v)) == v
    decreases v
  {
    var front := if v < 16 then [] else ToHex(v / 16);
    var last := HexDigit(v % 16);
    var s := ToHex(v);
    assert s == front + [last];
    assert s[..|s| - 1] == front && s[|s| - 1] == last;
    DigitRoundTrip(v % 16);
    if v >= 16 {
      ParseToHex(v / 16);
    }
    assert ParseHex(s) == ParseHex(front) * 16 + v % 16;
  }

  lemma {:induction false} ToHexLength(v: nat, w: nat)
    requires w >= 1 && v < Pow16(w)
    ensures |ToHex(v)| <= w
    decreases v
  {
    if v >= 16 {
      assert w >= 2;
      assert v / 16 < Pow16(w - 1);
      ToHexLength(v / 16, w - 1);
    }
  }

  lemma {:induction false} ParseZeros(n: nat)
    ensures ParseHex(Strings.Zeros(n)) == 0
  {
    if n > 0 {
      assert Strings.Zeros(n)[..n - 1] == Strings.Zeros(n - 1);
      ParseZeros(n - 1);
    }
  }

  /** Leading zeros do not change the value of a numeral. */
  lemma {:induction false} ParseLeadingZeros(n: nat, s: string)
    requires forall i :: 0 <= i < |s| ==> IsLowerHex(s[i])
    ensures ParseHex(Strings.Zeros(n) + s) == ParseHex(s)
    decreases |s|
  {
    var z := Strings.Zeros(n);
    if s == [] {
      assert z + s == z;
      ParseZeros(n);
    } else {
      var t := z + s;
      assert t[..|t| - 1] == z + s[..|s| - 1];
      assert t[|t| - 1] == s[|s| - 1];
      ParseLeadingZeros(n, s[..|s| - 1]);
    }
  }

  /** Python `f'{v:0{width}x}'`: the hexadecimal numeral of `v`, zero-padded to `width`. */
  function FormatHex(v: nat, width: nat): (s: string)
    ensures forall i :: 0 <= i < |s| ==> IsLowerHex(s[i])
    ensures ParseHex(s) == v
    ensures 1 <= width && v < Pow16(width) ==> |s| == width
  {
    var digits := ToHex(v);
    PaddedHex(v, width, digits);
    Strings.ZFill(digits, width)
  }

  lemma PaddedHex(v: nat, width: nat, digits: string)
    requires digits == ToHex(v)
    ensures forall i :: 0 <= i < |Strings.ZFill(digits, width)| ==> IsLowerHex(Strings.ZFill(digits, width)[i])
    ensures ParseHex(Strings.ZFill(digits, width)) == v
    ensures 1 <= width && v < Pow16(width) ==> |Strings.ZFill(digits, width)| == width
  {
    ParseToHex(v);
    if 1 <= width && v < Pow16(width) {
      ToHexLength(v, width);
    }
    if |digits| < width {
      var z := Strings.Zeros(width - |digits|);
      assert !Strings.HasSign(digits);
      assert Strings.ZFill(digits, width) == z + digits;
      ParseLeadingZeros(width - |digits|, digits);
    }
  }

  /**
   * `get_color(feature)` with Python's process-specific `hash` as the
   * parameter `hash`: '#' and exactly six lowercase hex digits, which read
   * back as the hash masked to its low 24 bits.
   */
  function GetColor(hash: string -> int, feature: string): (c: string)
    ensures |c| == 1 + ColorDigits && c[0] == '#'
    ensures forall i :: 1 <= i < |c| ==> IsLowerHex(c[i])
    ensures ParseHex(c[1..]) == hash(feature) % ColorRange
  {
    var v := hash(feature) % ColorRange;
    var digits := FormatHex(v, ColorDigits);
    assert ColorRange == Pow16(ColorDigits);
    assert (['#'] + digits)[1..] == digits;
    ['#'] + digits
  }

  /** Two prefixes get the same colour exactly when their hashes agree modulo 2^24. */
  lemma SameColor(hash: string -> int, a: string, b: string)
    ensures GetColor(hash, a) == GetColor(hash, b) <==> hash(a) % ColorRange == hash(b) % ColorRange
  {
    var ca, cb := GetColor(hash, a), GetColor(hash, b);
    if ca == cb {
      assert ca[1..] == cb[1..];
    }
  }
}
