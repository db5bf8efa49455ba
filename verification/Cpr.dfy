/** Compact position reporting as the decoder computes it, over exact reals. */
module Cpr {
  import opened Arithmetic

  // ---------- real arithmetic ----------

  function Trunc(x: real): int {
    if x >= 0.0 then x.Floor else -(-x).Floor
  }

  /** Go's math.Mod: the remainder takes the sign of the dividend. */
  function TruncMod(a: real, b: real): real
    requires b > 0.0
  {
    a - b * Trunc(a / b) as real
  }

  /** The decoder's own mod, made non-negative. */
  function Mod(a: real, b: real): real
    requires b > 0.0
  {
    var r := TruncMod(a, b);
    if r < 0.0 then r + b else r
  }

  function Abs(x: real): real {
    if x < 0.0 then -x else x
  }

  function Max(a: int, b: int): int {
    if a < b then b else a
  }

  // ---------- the decoder ----------

  datatype Fix = NoFix | Fix(lat: real, lon: real)

  /** The number of longitude zones at a latitude. */
  function CprNL(lat: real): (nl: int)
    ensures 1 <= nl <= 59
  {
    var x := Abs(lat);
    if x < 10.47047130 then 59
    else if x < 14.82817437 then 58
    else if x < 18.18626357 then 57
    else if x < 21.02939493 then 56
    else if x < 23.54504487 then 55
    else if x < 25.82924707 then 54
    else if x < 27.93898710 then 53
    else if x < 29.91135686 then 52
    else if x < 31.77209708 then 51
    else if x < 33.53993436 then 50
    else if x < 35.22899598 then 49
    else if x < 36.85025108 then 48
    else if x < 38.41241892 then 47
    else if x < 39.92256684 then 46
    else if x < 41.38651832 then 45
    else if x < 42.80914012 then 44
    else if x < 44.19454951 then 43
    else if x < 45.54626723 then 42
    else if x < 46.86733252 then 41
    else if x < 48.16039128 then 40
    else if x < 49.42776439 then 39
    else if x < 50.67150166 then 38
    else if x < 51.89342469 then 37
    else if x < 53.09516153 then 36
    else if x < 54.27817472 then 35
    else if x < 55.44378444 then 34
    else if x < 56.59318756 then 33
    else if x < 57.72747354 then 32
    else if x < 58.84763776 then 31
    else if x < 59.95459277 then 30
    else if x < 61.04917774 then 29
    else if x < 62.13216659 then 28
    else if x < 63.20427479 then 27
    else if x < 64.26616523 then 26
    else if x < 65.31845310 then 25
    else if x < 66.36171008 then 24
    else if x < 67.39646774 then 23
    else if x < 68.42322022 then 22
    else if x < 69.44242631 then 21
    else if x < 70.45451075 then 20
    else if x < 71.45986473 then 19
    else if x < 72.45884545 then 18
    else if x < 73.45177442 then 17
    else if x < 74.43893416 then 16
    else if x < 75.42056257 then 15
    else if x < 76.39684391 then 14
    else if x < 77.36789461 then 13
    else if x < 78.33374083 then 12
    else if x < 79.29428225 then 11
    else if x < 80.24923213 then 10
    else if x < 81.19801349 then 9
    else if x < 82.13956981 then 8
    else if x < 83.07199445 then 7
    else if x < 83.99173563 then 6
    else if x < 84.89166191 then 5
    else if x < 85.75541621 then 4
    else if x < 86.53536998 then 3
    else if x < 87.00000000 then 2
    else 1
  }

  /** The table is symmetric and falls towards the poles, from 59 zones near the equator to one beyond 87
      degrees. */
  lemma ZonesFall(lat: real, farther: real)
    requires Abs(lat) <= Abs(farther)
    ensures CprNL(farther) <= CprNL(lat) && CprNL(-lat) == CprNL(lat)
    ensures CprNL(lat) == 59 <==> Abs(lat) < 10.47047130
    ensures CprNL(lat) == 1 <==> Abs(lat) >= 87.0
  {
  }

  /** The number of longitude zones of one frame at a latitude. */
  function LonZones(lat: real, isOdd: bool): (ni: nat)
    ensures 1 <= ni <= 59
  {
    if isOdd then Max(CprNL(lat) - 1, 1) else Max(CprNL(lat), 1)
  }

  function LatZones(isOdd: bool): (n: nat)
    ensures n > 0
  {
    if isOdd then 59 else 60
  }

  /** The zone index from an even and an odd fraction of the same coordinate, for zone counts n + 1 and n. */
  function ZoneIndex(even: real, odd: real, n: int): int {
    (even * n as real - odd * (n + 1) as real + 0.5).Floor
  }

  /** The width of a zone. */
  function Width(span: real, z: nat): (w: real)
    requires span > 0.0 && z > 0
    ensures w > 0.0
  {
    span / z as real
  }

  /** Coordinate from a zone index and a fraction. */
  function InZone(span: real, index: int, z: nat, fraction: real): real
    requires span > 0.0 && z > 0
  {
    Width(span, z) * (Mod(index as real, z as real) + fraction)
  }

  function GlobalLat(span: real, j: int, z: nat, fraction: real): real
    requires span > 0.0 && z > 0
  {
    var lat := InZone(span, j, z, fraction);
    if lat >= 270.0 then lat - 360.0 else lat
  }

  function DecodeCPRGlobal(evenLat: real, evenLon: real, oddLat: real, oddLon: real, mostRecentOdd: bool): Fix {
    var j := ZoneIndex(evenLat, oddLat, 59);
    var latEven := GlobalLat(360.0, j, 60, evenLat);
    var latOdd := GlobalLat(360.0, j, 59, oddLat);
    if CprNL(latEven) != CprNL(latOdd) then NoFix
    else
      var lat := if mostRecentOdd then latOdd else latEven;
      var m := ZoneIndex(evenLon, oddLon, CprNL(lat) - 1);
      var lon := InZone(360.0, m, LonZones(lat, mostRecentOdd), if mostRecentOdd then oddLon else evenLon);
      var lon := if lon >= 180.0 then lon - 360.0 else lon;
      if lat < -90.0 || lat > 90.0 || lon < -180.0 || lon > 180.0 then NoFix else Fix(lat, lon)
  }

  /** The zone index closest to a reference coordinate, zones being d wide. */
  function LocalIndex(ref: real, d: real, fraction: real): int
    requires d > 0.0
  {
    (ref / d).Floor + (0.5 + TruncMod(ref, d) / d - fraction).Floor
  }

  function LocalCoordinate(ref: real, d: real, fraction: real): real
    requires d > 0.0
  {
    d * (LocalIndex(ref, d, fraction) as real + fraction)
  }

  /** One turn back into [-180, 180], if one turn is enough. */
  function WrapLon(lon: real): real {
    var l := if lon > 180.0 then lon - 360.0 else lon;
    if l < -180.0 then l + 360.0 else l
  }

  /** The local decode; span is 360 degrees in the air and 90 degrees on the ground. */
  function DecodeLocal(span: real, refLat: real, refLon: real, cprLat: real, cprLon: real, isOdd: bool): Fix
    requires span > 0.0
  {
    var lat := LocalCoordinate(refLat, Width(span, LatZones(isOdd)), cprLat);
    if lat < -90.0 || lat > 90.0 then NoFix
    else Fix(lat, WrapLon(LocalCoordinate(refLon, Width(span, LonZones(lat, isOdd)), cprLon)))
  }

  function DecodeCPRLocal(refLat: real, refLon: real, cprLat: real, cprLon: real, isOdd: bool): Fix {
    DecodeLocal(360.0, refLat, refLon, cprLat, cprLon, isOdd)
  }

  function DecodeCPRSurfaceLocal(refLat: real, refLon: real, cprLat: real, cprLon: real, isOdd: bool): Fix {
    DecodeLocal(90.0, refLat, refLon, cprLat, cprLon, isOdd)
  }

  function DecodeCPRSurfaceGlobal(evenLat: real, evenLon: real, oddLat: real, oddLon: real, mostRecentOdd: bool): Fix {
    var j := ZoneIndex(evenLat, oddLat, 59);
    var latEven := GlobalLat(90.0, j, 60, evenLat);
    var latOdd := GlobalLat(90.0, j, 59, oddLat);
    if CprNL(latEven) != CprNL(latOdd) then NoFix
    else
      var lat := if mostRecentOdd then latOdd else latEven;
      var m := ZoneIndex(evenLon, oddLon, CprNL(lat) - 1);
      var lon := InZone(90.0, m, LonZones(lat, mostRecentOdd), if mostRecentOdd then oddLon else evenLon);
      var lon := if lon > 180.0 then lon - 360.0 else lon;
      if lat < -90.0 || lat > 90.0 || lon < -180.0 || lon > 180.0 then NoFix else Fix(lat, lon)
  }

  // ---------- facts about the arithmetic ----------

  lemma FloorIs(x: real, k: int)
    requires k as real <= x < k as real + 1.0
    ensures x.Floor == k
  {
  }

  lemma QuotientOf(q: int, n: nat, r: real)
    requires n > 0
    ensures (q as real * n as real + r) / n as real == q as real + r / n as real
  {
  }

  lemma FloorQuotient(a: nat, n: nat)
    requires n > 0
    ensures (a as real / n as real).Floor == a / n
  {
    var q, r := a / n, a % n;
    assert a == q * n + r;
    assert a as real == q as real * n as real + r as real;
    QuotientOf(q, n, r as real);
    FractionBelowOne(r, n);
    FloorIs(a as real / n as real, q);
  }

  lemma FractionBelowOne(r: nat, n: nat)
    requires r < n
    ensures 0.0 <= r as real / n as real < 1.0
  {
  }

  lemma NegativeQuotient(a: int, n: nat)
    requires n > 0
    ensures (-a) as real / n as real == -(a as real / n as real)
  {
  }

  lemma TruncQuotient(m: int, n: nat)
    requires n > 0
    ensures Trunc(m as real / n as real) == if m < 0 then -((-m) / n) else m / n
  {
    if m < 0 {
      NegativeQuotient(-m, n);
      FloorQuotient(-m, n);
      assert (-m) as real / n as real > 0.0;
    } else {
      FloorQuotient(m, n);
    }
  }

  lemma RealDifference(m: int, n: int, q: int)
    ensures m as real - n as real * q as real == (m - n * q) as real
  {
    assert n as real * q as real == (n * q) as real;
  }

  lemma TruncModOfInts(m: int, n: nat)
    requires n > 0
    ensures TruncMod(m as real, n as real) == if m < 0 then -((-m) % n) as real else (m % n) as real
  {
    TruncQuotient(m, n);
    RealDifference(m, n, if m < 0 then -((-m) / n) else m / n);
  }

  lemma NegativeMod(a: int, n: nat)
    requires n > 0 && a >= 0
    ensures (-a) % n == if a % n == 0 then 0 else n - a % n
  {
    var q, r := a / n, a % n;
    assert a == q * n + r;
    if r == 0 {
      assert -a == (-q) * n;
      DivisionUnique(-a, n, -q, 0);
    } else {
      assert (-q - 1) * n == -(q * n) - n;
      DivisionUnique(-a, n, -q - 1, n - r);
    }
  }

  /** On whole numbers the decoder's mod is the mathematical one. */
  lemma ModOfInts(m: int, n: nat)
    requires n > 0
    ensures Mod(m as real, n as real) == (m % n) as real
  {
    TruncModOfInts(m, n);
    if m < 0 {
      NegativeMod(-m, n);
    }
  }
}
