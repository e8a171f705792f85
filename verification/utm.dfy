/**
 * Choice of the metric projection used before measuring: the UTM zone that
 * covers the centre of the dataset's bounding box, as an EPSG code string
 * ("EPSG:326zz" north of the equator, "EPSG:327zz" south of it).
 */
module Utm {
  import opened Wrappers

  /** A float as the bounding box reports it: a finite value or NaN/infinity. */
  datatype Float = Finite(v: real) | NonFinite

  /** `total_bounds` of the roads: (minx, miny, maxx, maxy). */
  datatype Bounds = Bounds(minx: Float, miny: Float, maxx: Float, maxy: Float)

  predicate AllFinite(b: Bounds) {
    b.minx.Finite? && b.miny.Finite? && b.maxx.Finite? && b.maxy.Finite?
  }

  /** `int(math.floor((lon + 180) / 6) + 1)`: the 6-degree zone containing `lon`. */
  function Zone(lon: real): (z: int)
    ensures -180.0 + 6.0 * (z - 1) as real <= lon < -180.0 + 6.0 * z as real
  {
    ((lon + 180.0) / 6.0).Floor + 1
  }

  /** Longitudes of the half-open range [-180, 180) fall in zones 1 to 60. */
  lemma ZoneRange(lon: real)
    requires -180.0 <= lon < 180.0
    ensures 1 <= Zone(lon) <= 60
  {
  }

  function DigitChar(n: int): (c: char)
    requires 0 <= n < 10
    ensures '0' <= c <= '9' && c as int - '0' as int == n
  {
    "0123456789"[n]
  }

  /** Decimal digits of a natural number, without leading zeros. */
  function Digits(n: nat): (s: string)
    ensures |s| >= 1
    ensures n < 10 ==> s == [DigitChar(n)]
    ensures 10 <= n < 100 ==> s == [DigitChar(n / 10), DigitChar(n % 10)]
    ensures forall i :: 0 <= i < |s| ==> '0' <= s[i] <= '9'
    decreases n
  {
    if n < 10 then [DigitChar(n)] else Digits(n / 10) + [DigitChar(n % 10)]
  }

  /** Python's `f"{n:02d}"`: zero-padded to two characters, a sign counting as one. */
  function Pad2(n: int): (s: string)
    ensures 0 <= n < 100 ==> |s| == 2
  {
    if 0 <= n < 10 then ['0', DigitChar(n)]
    else if n >= 0 then Digits(n)
    else "-" + Digits(-n)
  }

  /** Value of a string of decimal digits. */
  function DigitsValue(s: string): (v: int)
    decreases |s|
  {
    if s == [] then 0 else 10 * DigitsValue(s[..|s| - 1]) + (s[|s| - 1] as int - '0' as int)
  }

  /** A two-digit zone can be read back from its padded form. */
  lemma Pad2RoundTrip(n: int)
    requires 0 <= n < 100
    ensures DigitsValue(Pad2(n)) == n
  {
    var s := Pad2(n);
    if n < 10 {
      assert s[..1] == ['0'];
      assert DigitsValue(s[..1]) == 0 by {
        assert s[..1][..0] == [];
      }
    } else {
      assert s[..1] == [DigitChar(n / 10)];
      assert s[..1][..0] == [];
      assert DigitsValue(s[..1]) == n / 10;
      assert DigitsValue(s) == 10 * (n / 10) + n % 10;
    }
  }

  function HemisphereCode(lat: real): (code: string)
    ensures code == "326" <==> lat >= 0.0
    ensures code == "327" <==> lat < 0.0
  {
    if lat >= 0.0 then "326" else "327"
  }

  /**
   * `_utm_crs_for_bounds`: None when a bound is not finite, otherwise the
   * EPSG code of the zone and hemisphere of the box centre.
   */
  function UtmCrsForBounds(b: Bounds): (r: Option<string>)
    ensures r.None? <==> !AllFinite(b)
  {
    if !AllFinite(b) then None
    else
      var lon := (b.minx.v + b.maxx.v) / 2.0;
      var lat := (b.miny.v + b.maxy.v) / 2.0;
      Some("EPSG:" + HemisphereCode(lat) + Pad2(Zone(lon)))
  }

  /**
   * For a box whose centre lies in [-180, 180) the code is ten characters:
   * "EPSG:", the hemisphere prefix chosen by the sign of the centre latitude,
   * then the zone in two digits, and that zone contains the centre.
   */
  lemma UtmCodeShape(b: Bounds)
    requires AllFinite(b)
    requires -180.0 <= (b.minx.v + b.maxx.v) / 2.0 < 180.0
    ensures UtmCrsForBounds(b).Some?
    ensures |UtmCrsForBounds(b).value| == 10
    ensures UtmCrsForBounds(b).value[..5] == "EPSG:"
    ensures UtmCrsForBounds(b).value[5..8] == (if (b.miny.v + b.maxy.v) / 2.0 >= 0.0 then "326" else "327")
    ensures 1 <= DigitsValue(UtmCrsForBounds(b).value[8..]) <= 60
    ensures
      var lon := (b.minx.v + b.maxx.v) / 2.0;
      var z := DigitsValue(UtmCrsForBounds(b).value[8..]);
      -180.0 + 6.0 * (z - 1) as real <= lon < -180.0 + 6.0 * z as real
  {
    var lon := (b.minx.v + b.maxx.v) / 2.0;
    var lat := (b.miny.v + b.maxy.v) / 2.0;
    var z := Zone(lon);
    ZoneRange(lon);
    Pad2RoundTrip(z);
    CodeParts(HemisphereCode(lat), Pad2(z));
  }

  /** The three parts of a code can be cut back out of it. */
  lemma CodeParts(hemisphere: string, zone: string)
    requires |hemisphere| == 3 && |zone| == 2
    ensures var s := "EPSG:" + hemisphere + zone;
      |s| == 10 && s[..5] == "EPSG:" && s[5..8] == hemisphere && s[8..] == zone
  {
    var s := "EPSG:" + hemisphere + zone;
    assert s[5..8] == hemisphere;
    assert s[8..] == zone;
  }
}
