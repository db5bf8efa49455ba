/** The encoder's side of compact position reporting, and the global decode: a pair of even and odd
    reports from nearby positions determines the position to within half a bin. */
module CprGlobal {
  import opened Arithmetic
  import opened Cpr

  // 2^17, the number of bins in a zone
  const BINS := 131072

  // ---------- the encoder (RTCA DO-260B section A.1.7.3) ----------

  /** The coordinate in zones, of which there are z in 360 degrees. */
  function InZones(x: real, z: nat): real {
    x * z as real / 360.0
  }

  /** The value transmitted: the position inside its zone, rounded to a bin and cut to 17 bits. */
  function Encode(x: real, z: nat): (v: nat)
    ensures v < BINS
  {
    var u := InZones(x, z);
    (BINS as real * (u - u.Floor as real) + 0.5).Floor % BINS
  }

  /** Bins from zero to x, without the cut to 17 bits. */
  function Bin(x: real, z: nat): int {
    (BINS as real * InZones(x, z) + 0.5).Floor
  }

  /** The coordinate the report stands for: the centre of the bin of x. */
  function Reported(x: real, z: nat): real
    requires z > 0
  {
    360.0 / z as real * (Bin(x, z) as real / BINS as real)
  }

  /** Half the width of a bin, in degrees: 360 / (z * 2^18). */
  function HalfBinWidth(z: nat): real
    requires z > 0
  {
    360.0 / (z as real * 262144.0)
  }

  function Fraction(x: real, z: nat): real {
    Encode(x, z) as real / BINS as real
  }

  function ZoneOf(x: real, z: nat): int {
    Bin(x, z) / BINS
  }

  lemma EncodeIsBin(x: real, z: nat)
    ensures Encode(x, z) == Bin(x, z) % BINS
    ensures Bin(x, z) == BINS * ZoneOf(x, z) + Encode(x, z)
  {
    var u := InZones(x, z);
    var yz := (BINS as real * (u - u.Floor as real) + 0.5).Floor;
    assert BINS as real * u + 0.5 == BINS as real * (u - u.Floor as real) + 0.5 + (BINS * u.Floor) as real;
    assert Bin(x, z) == yz + BINS * u.Floor;
    ModShift(yz, u.Floor);
  }

  lemma ModShift(y: int, k: int)
    ensures (y + BINS * k) % BINS == y % BINS
  {
  }

  /** A report is within half a bin of the position it encodes. */
  lemma HalfBin(x: real, z: nat)
    requires z > 0
    ensures Abs(Bin(x, z) as real / BINS as real - InZones(x, z)) <= 1.0 / 262144.0
    ensures Abs(Reported(x, z) - x) <= HalfBinWidth(z)
  {
    var d := Bin(x, z) as real / BINS as real - InZones(x, z);
    var w := 360.0 / z as real;
    assert w * InZones(x, z) == x;
    assert Reported(x, z) - x == w * d by { Distribute(w, Bin(x, z) as real / BINS as real, InZones(x, z)); }
    ScaleBound(w, d, 1.0 / 262144.0);
    assert 360.0 / (z as real * 262144.0) == w * (1.0 / 262144.0);
  }

  lemma Distribute(w: real, a: real, b: real)
    ensures w * (a - b) == w * a - w * b
  {
  }

  lemma ScaleBound(w: real, d: real, e: real)
    requires w > 0.0 && Abs(d) <= e
    ensures Abs(w * d) <= w * e
  {
    if d < 0.0 {
      assert w * -d <= w * e;
    } else {
      assert w * d <= w * e;
    }
  }

  // ---------- the zone index ----------

  /** The distance between two positions in units in which half a unit is too far apart for zone
      counts n + 1 and n: degrees times n(n + 1)/360. */
  function Gap(x0: real, x1: real, n: nat): real {
    (x0 - x1) * (n * (n + 1)) as real / 360.0
  }

  /** The even and odd positions are close enough for the zone counts n + 1 and n. */
  predicate CloseEnough(x0: real, x1: real, n: nat) {
    Abs(Gap(x0, x1, n)) + (2 * n + 1) as real / 262144.0 < 0.5
  }

  /** What rounding to a bin adds, in zones. */
  function Rounding(x: real, z: nat): real {
    Bin(x, z) as real / BINS as real - InZones(x, z)
  }

  lemma FractionParts(x: real, z: nat)
    requires z > 0
    ensures Abs(Rounding(x, z)) <= 1.0 / 262144.0
    ensures Fraction(x, z) == InZones(x, z) + Rounding(x, z) - ZoneOf(x, z) as real
  {
    HalfBin(x, z);
    EncodeIsBin(x, z);
  }

  lemma Expand(r: real, u: real, d: real, c: real)
    ensures (u + d - c) * r == r * u + r * d - r * c
  {
  }

  /** The expression that is rounded to the zone index, for fractions f = u + d - c. */
  lemma IndexParts(r: real, f0: real, u0: real, d0: real, c0: real, f1: real, u1: real, d1: real, c1: real)
    requires f0 == u0 + d0 - c0 && f1 == u1 + d1 - c1
    ensures f0 * r - f1 * (r + 1.0)
         == (r * u0 - (r + 1.0) * u1) + (r * d0 - (r + 1.0) * d1) + ((r + 1.0) * c1 - r * c0)
  {
    Expand(r, u0, d0, c0);
    Expand(r + 1.0, u1, d1, c1);
  }

  lemma ZoneCombination(c0: int, c1: int, n: nat)
    ensures ((n + 1) * c1 - n * c0) as real == (n as real + 1.0) * c1 as real - n as real * c0 as real
  {
    assert ((n + 1) * c1) as real == (n as real + 1.0) * c1 as real;
    assert (n * c0) as real == n as real * c0 as real;
  }

  /** With zone counts n + 1 and n, the two fractions determine the combination of the two zones. */
  lemma ZoneIndexExact(x0: real, x1: real, n: nat)
    requires n > 0 && CloseEnough(x0, x1, n)
    ensures ZoneIndex(Fraction(x0, n + 1), Fraction(x1, n), n) == (n + 1) * ZoneOf(x1, n) - n * ZoneOf(x0, n + 1)
  {
    hide InZones, Gap, Rounding, Fraction, ZoneOf, ZoneIndex;
    FractionParts(x0, n + 1);
    FractionParts(x1, n);
    CrossZones(x0, x1, n);
    IndexExact(n, Gap(x0, x1, n),
               Fraction(x0, n + 1), InZones(x0, n + 1), Rounding(x0, n + 1), ZoneOf(x0, n + 1),
               Fraction(x1, n), InZones(x1, n), Rounding(x1, n), ZoneOf(x1, n));
  }

  lemma IndexExact(n: nat, a: real, f0: real, u0: real, d0: real, c0: int, f1: real, u1: real, d1: real, c1: int)
    requires n > 0
    requires f0 == u0 + d0 - c0 as real && f1 == u1 + d1 - c1 as real
    requires Abs(d0) <= 1.0 / 262144.0 && Abs(d1) <= 1.0 / 262144.0
    requires n as real * u0 - (n as real + 1.0) * u1 == a
    requires Abs(a) + (2 * n + 1) as real / 262144.0 < 0.5
    ensures ZoneIndex(f0, f1, n) == (n + 1) * c1 - n * c0
  {
    hide Abs;
    var r := n as real;
    IndexParts(r, f0, u0, d0, c0 as real, f1, u1, d1, c1 as real);
    ErrorBound(r, d0, d1);
    ZoneCombination(c0, c1, n);
    Rounded(f0 * r - f1 * (r + 1.0), a, r * d0 - (r + 1.0) * d1, (n + 1) * c1 - n * c0, (2.0 * r + 1.0) / 262144.0);
  }

  lemma ErrorBound(r: real, d0: real, d1: real)
    requires r >= 1.0 && Abs(d0) <= 1.0 / 262144.0 && Abs(d1) <= 1.0 / 262144.0
    ensures Abs(r * d0 - (r + 1.0) * d1) <= (2.0 * r + 1.0) / 262144.0
  {
    var p, q := r * d0, (r + 1.0) * d1;
    assert Abs(p) <= r / 262144.0 by { ScaleBound(r, d0, 1.0 / 262144.0); }
    assert Abs(q) <= (r + 1.0) / 262144.0 by { ScaleBound(r + 1.0, d1, 1.0 / 262144.0); }
    AbsDifference(p, q);
  }

  lemma AbsDifference(p: real, q: real)
    ensures Abs(p - q) <= Abs(p) + Abs(q)
  {
  }

  lemma Rounded(t: real, a: real, e: real, k: int, bound: real)
    requires t == a + e + k as real && Abs(a) + bound < 0.5 && Abs(e) <= bound
    ensures (t + 0.5).Floor == k
  {
  }

  lemma CrossZones(x0: real, x1: real, n: nat)
    ensures n as real * InZones(x0, n + 1) - (n as real + 1.0) * InZones(x1, n) == Gap(x0, x1, n)
  {
    var r := n as real;
    var p := (n * (n + 1)) as real;
    assert p == r * (r + 1.0);
    assert r * (x0 * (r + 1.0)) == x0 * p;
    assert (r + 1.0) * (x1 * r) == x1 * p;
  }

  /** The combination of the two zones, seen from either of them. */
  lemma Combination(c0: int, c1: int, n: nat)
    ensures (n + 1) * c1 - n * c0 == c0 + (n + 1) * (c1 - c0) == c1 + n * (c1 - c0)
  {
  }

  /** The combination modulo either zone count is the zone of that report. */
  lemma ZoneIndexMod(m: int, c0: int, c1: int, n: nat)
    requires n > 0 && m == (n + 1) * c1 - n * c0
    ensures m % (n + 1) == c0 % (n + 1)
    ensures m % n == c1 % n
  {
    Combination(c0, c1, n);
    MultipleMod(m, c0, c1 - c0, n + 1);
    MultipleMod(m, c1, c1 - c0, n);
  }

  lemma MultipleMod(m: int, a: int, k: int, n: nat)
    requires n > 0 && m == a + n * k
    ensures m % n == a % n
  {
    var q, r := a / n, a % n;
    assert n * k == k * n;
    assert (q + k) * n == q * n + k * n;
    DivisionUnique(m, n, q + k, r);
  }

  // ---------- the decoded coordinate ----------

  lemma SplitZone(w: real, z: nat, c: int, f: real)
    requires z > 0 && w == 360.0 / z as real
    ensures w * ((c % z) as real + f) == w * (c as real + f) - 360.0 * (c / z) as real
  {
    var q := c / z;
    assert c == z * q + c % z;
    assert c as real == z as real * q as real + (c % z) as real by { assert (z * q) as real == z as real * q as real; }
    assert w * z as real == 360.0;
    assert w * (z as real * q as real) == 360.0 * q as real;
  }

  lemma ZoneRange(w: real, z: nat, r: nat, f: real)
    requires r < z && w == 360.0 / z as real && 0.0 <= f < 1.0
    ensures 0.0 <= w * (r as real + f) < 360.0
  {
    assert w * z as real == 360.0;
    assert r as real + f < z as real;
  }

  lemma FractionRange(x: real, z: nat)
    ensures 0.0 <= Fraction(x, z) < 1.0
  {
  }

  lemma ReportedParts(x: real, z: nat)
    requires z > 0
    ensures Reported(x, z) == 360.0 / z as real * (ZoneOf(x, z) as real + Fraction(x, z))
  {
    EncodeIsBin(x, z);
    assert ZoneOf(x, z) as real + Fraction(x, z) == Bin(x, z) as real / BINS as real;
  }

  /** A zone index that is right modulo the zone count gives the reported coordinate, in [0, 360). */
  lemma InZoneExact(x: real, z: nat, index: int)
    requires z > 0 && index % z == ZoneOf(x, z) % z
    ensures InZone(360.0, index, z, Fraction(x, z)) == Reported(x, z) - 360.0 * (ZoneOf(x, z) / z) as real
    ensures 0.0 <= InZone(360.0, index, z, Fraction(x, z)) < 360.0
  {
    FractionRange(x, z);
    hide Reported, ZoneOf, Fraction, Mod;
    ModOfInts(index, z);
    ReportedParts(x, z);
    SplitZone(360.0 / z as real, z, ZoneOf(x, z), Fraction(x, z));
    ZoneRange(360.0 / z as real, z, ZoneOf(x, z) % z, Fraction(x, z));
  }

  lemma ReportedLatRange(lat: real, isOdd: bool)
    requires -90.0 <= lat <= 90.0
    ensures -90.0 <= Reported(lat, LatZones(isOdd)) <= 90.0
  {
  }

  lemma Normalized(lat: real, p: real, turns: int)
    requires 0.0 <= lat < 360.0 && -90.0 <= p <= 90.0 && lat == p - 360.0 * turns as real
    ensures p == if lat >= 270.0 then lat - 360.0 else lat
  {
  }

  /** Both latitudes of the global decode are the reported ones, between the poles. */
  lemma GlobalLatitude(lat0: real, lat1: real)
    requires -90.0 <= lat0 <= 90.0 && -90.0 <= lat1 <= 90.0 && CloseEnough(lat0, lat1, 59)
    ensures var j := ZoneIndex(Fraction(lat0, 60), Fraction(lat1, 59), 59);
            && j == 60 * ZoneOf(lat1, 59) - 59 * ZoneOf(lat0, 60)
            && GlobalLat(360.0, j, 60, Fraction(lat0, 60)) == Reported(lat0, 60)
            && GlobalLat(360.0, j, 59, Fraction(lat1, 59)) == Reported(lat1, 59)
    ensures -90.0 <= Reported(lat0, 60) <= 90.0 && Abs(Reported(lat0, 60) - lat0) <= HalfBinWidth(60)
    ensures -90.0 <= Reported(lat1, 59) <= 90.0 && Abs(Reported(lat1, 59) - lat1) <= HalfBinWidth(59)
  {
    ReportedLatRange(lat0, false);
    ReportedLatRange(lat1, true);
    hide Fraction, Reported, ZoneOf, InZone, ZoneIndex, CloseEnough;
    var j := ZoneIndex(Fraction(lat0, 60), Fraction(lat1, 59), 59);
    ZoneIndexExact(lat0, lat1, 59);
    ZoneIndexMod(j, ZoneOf(lat0, 60), ZoneOf(lat1, 59), 59);
    InZoneExact(lat0, 60, j);
    Normalized(InZone(360.0, j, 60, Fraction(lat0, 60)), Reported(lat0, 60), ZoneOf(lat0, 60) / 60);
    InZoneExact(lat1, 59, j);
    Normalized(InZone(360.0, j, 59, Fraction(lat1, 59)), Reported(lat1, 59), ZoneOf(lat1, 59) / 59);
    HalfBin(lat0, 60);
    HalfBin(lat1, 59);
  }

  function Turns(k: int): real {
    360.0 * k as real
  }

  /** Equal modulo full turns up to an error. */
  ghost predicate NearModTurns(a: real, b: real, error: real) {
    exists k :: Abs(a + Turns(k) - b) <= error
  }

  /** The longitude zone index, for every number of longitude zones. */
  lemma LonIndex(lon0: real, lon1: real, nl: nat)
    requires nl > 0 && (nl > 1 ==> CloseEnough(lon0, lon1, nl - 1))
    ensures var n0, n1 := nl, Max(nl - 1, 1);
            var m := ZoneIndex(Fraction(lon0, n0), Fraction(lon1, n1), nl - 1);
            m % n0 == ZoneOf(lon0, n0) % n0 && m % n1 == ZoneOf(lon1, n1) % n1
  {
    if nl > 1 {
      hide Fraction, ZoneOf, ZoneIndex, CloseEnough;
      ZoneIndexExact(lon0, lon1, nl - 1);
      ZoneIndexMod(ZoneIndex(Fraction(lon0, nl), Fraction(lon1, nl - 1), nl - 1),
                   ZoneOf(lon0, nl), ZoneOf(lon1, nl - 1), nl - 1);
    }
  }

  /** Equal modulo full turns. */
  ghost predicate SameModTurns(a: real, b: real) {
    exists k :: a + Turns(k) == b
  }

  /** The longitude of the decode, brought into [-180, 180). */
  lemma GlobalLongitude(lon: real, z: nat, m: int)
    requires z > 0 && m % z == ZoneOf(lon, z) % z
    ensures var l := InZone(360.0, m, z, Fraction(lon, z));
            var l := if l >= 180.0 then l - 360.0 else l;
            && -180.0 <= l < 180.0
            && SameModTurns(l, Reported(lon, z)) && NearModTurns(l, lon, HalfBinWidth(z))
  {
    hide Fraction, ZoneOf, InZone, Reported;
    InZoneExact(lon, z, m);
    HalfBin(lon, z);
    var raw := InZone(360.0, m, z, Fraction(lon, z));
    var k := ZoneOf(lon, z) / z + if raw >= 180.0 then 1 else 0;
    var l := if raw >= 180.0 then raw - 360.0 else raw;
    assert l + Turns(k) == Reported(lon, z);
  }

  /** The fix is the reported position of (lat, lon), on the globe and within half a bin of it. */
  ghost predicate Recovers(fix: Fix, lat: real, lon: real, isOdd: bool) {
    && fix.Fix?
    && fix.lat == Reported(lat, LatZones(isOdd))
    && -90.0 <= fix.lat <= 90.0
    && -180.0 <= fix.lon < 180.0
    && Abs(fix.lat - lat) <= HalfBinWidth(LatZones(isOdd))
    && SameModTurns(fix.lon, Reported(lon, LonZones(fix.lat, isOdd)))
    && NearModTurns(fix.lon, lon, HalfBinWidth(LonZones(fix.lat, isOdd)))
  }

  lemma DecodeSteps(evenLat: real, evenLon: real, oddLat: real, oddLon: real, odd: bool, r0: real, r1: real, l: real)
    requires r0 == GlobalLat(360.0, ZoneIndex(evenLat, oddLat, 59), 60, evenLat)
    requires r1 == GlobalLat(360.0, ZoneIndex(evenLat, oddLat, 59), 59, oddLat)
    requires -90.0 <= r0 <= 90.0 && -90.0 <= r1 <= 90.0 && -180.0 <= l < 180.0
    requires CprNL(r0) == CprNL(r1)
    requires var lat := if odd then r1 else r0;
             var lon := InZone(360.0, ZoneIndex(evenLon, oddLon, CprNL(r0) - 1), LonZones(lat, odd), if odd then oddLon else evenLon);
             l == if lon >= 180.0 then lon - 360.0 else lon
    ensures DecodeCPRGlobal(evenLat, evenLon, oddLat, oddLon, odd) == Fix(if odd then r1 else r0, l)
  {
    hide CprNL, ZoneIndex, GlobalLat, InZone, LonZones;
  }

  /** The longitude half of the decode, once both latitudes are known and agree on nl. */
  lemma WithLatitudes(evenLat: real, oddLat: real, r0: real, r1: real, nl: nat, lon0: real, lon1: real, odd: bool)
    requires r0 == GlobalLat(360.0, ZoneIndex(evenLat, oddLat, 59), 60, evenLat)
    requires r1 == GlobalLat(360.0, ZoneIndex(evenLat, oddLat, 59), 59, oddLat)
    requires -90.0 <= r0 <= 90.0 && -90.0 <= r1 <= 90.0
    requires nl == CprNL(r0) == CprNL(r1) && (nl > 1 ==> CloseEnough(lon0, lon1, nl - 1))
    ensures var z := LonZones(if odd then r1 else r0, odd);
            var fix := DecodeCPRGlobal(evenLat, Fraction(lon0, LonZones(r0, false)), oddLat, Fraction(lon1, LonZones(r1, true)), odd);
            && fix.Fix? && fix.lat == (if odd then r1 else r0) && -180.0 <= fix.lon < 180.0
            && SameModTurns(fix.lon, Reported(if odd then lon1 else lon0, z))
            && NearModTurns(fix.lon, if odd then lon1 else lon0, HalfBinWidth(z))
  {
    hide CprNL;
    var n1 := Max(nl - 1, 1);
    assert LonZones(r0, false) == nl && LonZones(r1, true) == n1;
    hide Fraction, ZoneIndex, GlobalLat, InZone, Reported, NearModTurns, SameModTurns, CloseEnough, ZoneOf, HalfBinWidth, DecodeCPRGlobal, LonZones;
    LonIndex(lon0, lon1, nl);
    var m := ZoneIndex(Fraction(lon0, nl), Fraction(lon1, n1), nl - 1);
    var (z, f) := if odd then (n1, Fraction(lon1, n1)) else (nl, Fraction(lon0, nl));
    var lon := InZone(360.0, m, z, f);
    GlobalLongitude(if odd then lon1 else lon0, z, m);
    DecodeSteps(evenLat, Fraction(lon0, nl), oddLat, Fraction(lon1, n1), odd, r0, r1,
                if lon >= 180.0 then lon - 360.0 else lon);
  }

  /** Global decode: from an even report of (lat0, lon0) and an odd report of (lat1, lon1), close
      enough together, the decoder produces a fix exactly when the two reported latitudes have the
      same number of longitude zones, and the fix is within half a bin of the more recent position. */
  lemma GlobalDecode(lat0: real, lon0: real, lat1: real, lon1: real, mostRecentOdd: bool)
    requires -90.0 <= lat0 <= 90.0 && -90.0 <= lat1 <= 90.0 && CloseEnough(lat0, lat1, 59)
    requires var nl := CprNL(Reported(lat0, 60));
             nl == CprNL(Reported(lat1, 59)) && nl > 1 ==> CloseEnough(lon0, lon1, nl - 1)
    ensures var r0, r1 := Reported(lat0, 60), Reported(lat1, 59);
            var fix := DecodeCPRGlobal(Fraction(lat0, 60), Fraction(lon0, LonZones(r0, false)),
                                       Fraction(lat1, 59), Fraction(lon1, LonZones(r1, true)), mostRecentOdd);
            if CprNL(r0) != CprNL(r1) then fix == NoFix
            else Recovers(fix, if mostRecentOdd then lat1 else lat0, if mostRecentOdd then lon1 else lon0, mostRecentOdd)
  {
    hide Fraction, Reported, CprNL, ZoneIndex, GlobalLat, InZone, NearModTurns, SameModTurns, CloseEnough, HalfBinWidth, Abs, LonZones;
    GlobalLatitude(lat0, lat1);
    var r0, r1 := Reported(lat0, 60), Reported(lat1, 59);
    if CprNL(r0) == CprNL(r1) {
      hide DecodeCPRGlobal;
      WithLatitudes(Fraction(lat0, 60), Fraction(lat1, 59), r0, r1, CprNL(r0), lon0, lon1, mostRecentOdd);
    }
  }

  // ---------- any two sites ----------

  /** How many zones apart the decoder takes two reported coordinates to be, for zone counts n + 1 and n. */
  function RoundedGap(r0: real, r1: real, n: nat): int {
    (Gap(r0, r1, n) + 0.5).Floor
  }

  lemma FractionIs(x: real, z: nat)
    requires z > 0
    ensures Fraction(x, z) == Reported(x, z) * z as real / 360.0 - ZoneOf(x, z) as real
  {
    hide Reported, Fraction, ZoneOf;
    ReportedParts(x, z);
    var u := ZoneOf(x, z) as real + Fraction(x, z);
    assert 360.0 / z as real * u * z as real == 360.0 * u;
  }

  lemma GapParts(r0: real, r1: real, c0: int, c1: int, f0: real, f1: real, n: nat)
    requires f0 == r0 * (n + 1) as real / 360.0 - c0 as real && f1 == r1 * n as real / 360.0 - c1 as real
    ensures f0 * n as real - f1 * (n + 1) as real == Gap(r0, r1, n) + ((n + 1) * c1 - n * c0) as real
  {
    var r := n as real;
    ZoneCombination(c0, c1, n);
    assert (n * (n + 1)) as real == r * (r + 1.0);
    assert r0 * (r + 1.0) / 360.0 * r == r0 * (r * (r + 1.0)) / 360.0;
    assert r1 * r / 360.0 * (r + 1.0) == r1 * (r * (r + 1.0)) / 360.0;
  }

  lemma FloorPlus(x: real, k: int)
    ensures (x + k as real).Floor == x.Floor + k
  {
  }

  /** The zone index of any two reports: the combination of the two zones, plus the rounded gap. */
  lemma ZoneIndexIs(x0: real, x1: real, n: nat)
    requires n > 0
    ensures ZoneIndex(Fraction(x0, n + 1), Fraction(x1, n), n)
         == (n + 1) * ZoneOf(x1, n) - n * ZoneOf(x0, n + 1) + RoundedGap(Reported(x0, n + 1), Reported(x1, n), n)
  {
    hide Reported, Fraction, ZoneOf, Gap;
    FractionIs(x0, n + 1);
    FractionIs(x1, n);
    GapParts(Reported(x0, n + 1), Reported(x1, n), ZoneOf(x0, n + 1), ZoneOf(x1, n), Fraction(x0, n + 1), Fraction(x1, n), n);
    FloorPlus(Gap(Reported(x0, n + 1), Reported(x1, n), n) + 0.5, (n + 1) * ZoneOf(x1, n) - n * ZoneOf(x0, n + 1));
  }

  /** Modulo either zone count it is that report's own zone, the rounded gap further on. */
  lemma GapIndexMod(j: int, c0: int, c1: int, g: int, n: nat)
    requires n > 0 && j == (n + 1) * c1 - n * c0 + g
    ensures j % (n + 1) == (c0 + g) % (n + 1)
    ensures j % n == (c1 + g) % n
  {
    Combination(c0, c1, n);
    MultipleMod(j, c0 + g, c1 - c0, n + 1);
    MultipleMod(j, c1 + g, c1 - c0, n);
  }

  lemma InZoneMod(span: real, i: int, j: int, z: nat, fraction: real)
    requires span > 0.0 && z > 0 && i % z == j % z
    ensures InZone(span, i, z, fraction) == InZone(span, j, z, fraction)
  {
    ModOfInts(i, z);
    ModOfInts(j, z);
    hide Mod;
  }

  lemma AddedZones(c: int, g: int, z: nat)
    requires z > 0
    ensures (c + g) % z == c % z <==> g % z == 0
  {
    var q := (c + g) / z - c / z;
    assert c + g == z * ((c + g) / z) + (c + g) % z && c == z * (c / z) + c % z;
    assert g == z * q + ((c + g) % z - c % z);
    if (c + g) % z == c % z {
      MultipleMod(g, 0, q, z);
    }
    if g % z == 0 {
      MultipleMod(c + g, c, g / z, z);
    }
  }

  /** In a turn, a coordinate in [0, 360) and its zone determine each other. */
  lemma SameInZone(z: nat, i: nat, j: nat, f: real)
    requires i < z && j < z
    ensures Width(360.0, z) * (i as real + f) == Width(360.0, z) * (j as real + f) <==> i == j
  {
    var w := Width(360.0, z);
    if i < j {
      assert w * (j as real - i as real) > 0.0;
    } else if j < i {
      assert w * (i as real - j as real) > 0.0;
    }
  }

  lemma InZoneIs(index: int, z: nat, f: real)
    requires z > 0 && 0.0 <= f < 1.0
    ensures InZone(360.0, index, z, f) == Width(360.0, z) * ((index % z) as real + f)
    ensures 0.0 <= InZone(360.0, index, z, f) < 360.0
  {
    ModOfInts(index, z);
    hide Mod;
    ZoneRange(Width(360.0, z), z, index % z, f);
  }

  lemma InZoneSame(i: int, j: int, z: nat, f: real)
    requires z > 0 && 0.0 <= f < 1.0
    ensures InZone(360.0, i, z, f) == InZone(360.0, j, z, f) <==> i % z == j % z
    ensures 0.0 <= InZone(360.0, i, z, f) < 360.0
  {
    InZoneIs(i, z, f);
    InZoneIs(j, z, f);
    hide InZone, Width;
    SameInZone(z, i % z, j % z, f);
  }

  /** The point in [0, 360) of a zone index is that of the site if and only if the index is the site's zone
      modulo the zone count. */
  lemma InZoneIff(x: real, z: nat, index: int)
    requires z > 0
    ensures var here, there := InZone(360.0, ZoneOf(x, z), z, Fraction(x, z)), InZone(360.0, index, z, Fraction(x, z));
            && here == Reported(x, z) - 360.0 * (ZoneOf(x, z) / z) as real
            && 0.0 <= here < 360.0 && 0.0 <= there < 360.0
            && (there == here <==> index % z == ZoneOf(x, z) % z)
  {
    InZoneExact(x, z, ZoneOf(x, z));
    FractionRange(x, z);
    hide *;
    InZoneSame(index, ZoneOf(x, z), z, Fraction(x, z));
  }

  /** A latitude of the decode is the reported one if and only if the index is right modulo the zone count. */
  lemma LatitudeIff(lat: real, odd: bool, index: int)
    requires -90.0 <= lat <= 90.0
    ensures var z := LatZones(odd);
            GlobalLat(360.0, index, z, Fraction(lat, z)) == Reported(lat, z) <==> index % z == ZoneOf(lat, z) % z
  {
    ReportedLatRange(lat, odd);
    hide Reported, ZoneOf, Fraction, InZone;
    var z := LatZones(odd);
    InZoneIff(lat, z, index);
    Normalized(InZone(360.0, ZoneOf(lat, z), z, Fraction(lat, z)), Reported(lat, z), ZoneOf(lat, z) / z);
  }

  /** The longitude of the decode, brought into [-180, 180), is the reported one modulo turns if and only if
      the index is right modulo the zone count. */
  lemma LongitudeIff(lon: real, z: nat, index: int, l: real)
    requires z > 0 && -180.0 <= l < 180.0 && SameModTurns(l, Reported(lon, z))
    ensures var raw := InZone(360.0, index, z, Fraction(lon, z));
            (if raw >= 180.0 then raw - 360.0 else raw) == l <==> index % z == ZoneOf(lon, z) % z
  {
    hide Reported, ZoneOf, Fraction, InZone;
    InZoneIff(lon, z, index);
    var k :| l + Turns(k) == Reported(lon, z);
    OneTurn(l, InZone(360.0, ZoneOf(lon, z), z, Fraction(lon, z)), k - ZoneOf(lon, z) / z);
  }

  lemma OneTurn(l: real, x: real, t: int)
    requires -180.0 <= l < 180.0 && 0.0 <= x < 360.0 && x == l + Turns(t)
    ensures l == if x >= 180.0 then x - 360.0 else x
  {
  }

  /** The latitude that the decoder takes a report for, when it is wrong by g zones about the other one. */
  function OffBy(lat: real, odd: bool, g: int): real {
    var z := LatZones(odd);
    GlobalLat(360.0, ZoneOf(lat, z) + g, z, Fraction(lat, z))
  }

  /** The longitude index of two reports, for the number of longitude zones at the latitude decoded. */
  function LonIndexOf(lat0: real, lon0: real, lat1: real, lon1: real, nl: nat): int
    requires nl > 0
  {
    ZoneIndex(Fraction(lon0, LonZones(Reported(lat0, 60), false)), Fraction(lon1, LonZones(Reported(lat1, 59), true)), nl - 1)
  }

  /** Exactly when the global decode is right about the more recent of two sites anywhere: the rounded gap
      between the reported latitudes is a multiple of its zone count, both latitudes decoded have the same
      number of longitude zones, and the longitude index is its zone modulo the zone count. */
  predicate DecodesRight(lat0: real, lon0: real, lat1: real, lon1: real, odd: bool) {
    var g := RoundedGap(Reported(lat0, 60), Reported(lat1, 59), 59);
    var r := if odd then Reported(lat1, 59) else Reported(lat0, 60);
    var lon, ni := if odd then lon1 else lon0, LonZones(r, odd);
    && g % LatZones(odd) == 0
    && CprNL(OffBy(lat0, false, g)) == CprNL(OffBy(lat1, true, g))
    && LonIndexOf(lat0, lon0, lat1, lon1, CprNL(r)) % ni == ZoneOf(lon, ni) % ni
  }

  lemma DecodedLats(lat0: real, lat1: real)
    requires -90.0 <= lat0 <= 90.0 && -90.0 <= lat1 <= 90.0
    ensures var j := ZoneIndex(Fraction(lat0, 60), Fraction(lat1, 59), 59);
            var g := RoundedGap(Reported(lat0, 60), Reported(lat1, 59), 59);
            && GlobalLat(360.0, j, 60, Fraction(lat0, 60)) == OffBy(lat0, false, g)
            && GlobalLat(360.0, j, 59, Fraction(lat1, 59)) == OffBy(lat1, true, g)
            && (OffBy(lat0, false, g) == Reported(lat0, 60) <==> g % 60 == 0)
            && (OffBy(lat1, true, g) == Reported(lat1, 59) <==> g % 59 == 0)
  {
    hide Fraction, Reported, ZoneOf, InZone, ZoneIndex, RoundedGap;
    var j := ZoneIndex(Fraction(lat0, 60), Fraction(lat1, 59), 59);
    var g := RoundedGap(Reported(lat0, 60), Reported(lat1, 59), 59);
    ZoneIndexIs(lat0, lat1, 59);
    GapIndexMod(j, ZoneOf(lat0, 60), ZoneOf(lat1, 59), g, 59);
    InZoneMod(360.0, j, ZoneOf(lat0, 60) + g, 60, Fraction(lat0, 60));
    InZoneMod(360.0, j, ZoneOf(lat1, 59) + g, 59, Fraction(lat1, 59));
    LatitudeIff(lat0, false, ZoneOf(lat0, 60) + g);
    LatitudeIff(lat1, true, ZoneOf(lat1, 59) + g);
    AddedZones(ZoneOf(lat0, 60), g, 60);
    AddedZones(ZoneOf(lat1, 59), g, 59);
  }

  lemma DecodeCases(evenLat: real, evenLon: real, oddLat: real, oddLon: real, odd: bool, e: real, o: real, fix: Fix)
    requires e == GlobalLat(360.0, ZoneIndex(evenLat, oddLat, 59), 60, evenLat)
    requires o == GlobalLat(360.0, ZoneIndex(evenLat, oddLat, 59), 59, oddLat)
    requires fix.Fix? && -90.0 <= fix.lat <= 90.0 && -180.0 <= fix.lon < 180.0
    ensures DecodeCPRGlobal(evenLat, evenLon, oddLat, oddLon, odd) == fix <==>
              && CprNL(e) == CprNL(o) && fix.lat == (if odd then o else e)
              && var raw := InZone(360.0, ZoneIndex(evenLon, oddLon, CprNL(fix.lat) - 1), LonZones(fix.lat, odd), if odd then oddLon else evenLon);
                 fix.lon == if raw >= 180.0 then raw - 360.0 else raw
  {
    hide CprNL, ZoneIndex, GlobalLat, InZone, LonZones;
  }

  /** The global decode of any two reports, from anywhere. */
  lemma GlobalRightIff(lat0: real, lon0: real, lat1: real, lon1: real, odd: bool, l: real)
    requires -90.0 <= lat0 <= 90.0 && -90.0 <= lat1 <= 90.0 && -180.0 <= l < 180.0
    requires var r := if odd then Reported(lat1, 59) else Reported(lat0, 60);
             SameModTurns(l, Reported(if odd then lon1 else lon0, LonZones(r, odd)))
    ensures var r0, r1 := Reported(lat0, 60), Reported(lat1, 59);
            DecodeCPRGlobal(Fraction(lat0, 60), Fraction(lon0, LonZones(r0, false)),
                            Fraction(lat1, 59), Fraction(lon1, LonZones(r1, true)), odd) == Fix(if odd then r1 else r0, l)
            <==> DecodesRight(lat0, lon0, lat1, lon1, odd)
  {
    ReportedLatRange(lat0, false);
    ReportedLatRange(lat1, true);
    hide Fraction, Reported, CprNL, ZoneOf, ZoneIndex, GlobalLat, InZone, LonZones, OffBy, RoundedGap, SameModTurns, DecodeCPRGlobal;
    var r0, r1 := Reported(lat0, 60), Reported(lat1, 59);
    var r := if odd then r1 else r0;
    var lon := if odd then lon1 else lon0;
    var g := RoundedGap(r0, r1, 59);
    var evenLon, oddLon := Fraction(lon0, LonZones(r0, false)), Fraction(lon1, LonZones(r1, true));
    DecodedLats(lat0, lat1);
    DecodeCases(Fraction(lat0, 60), evenLon, Fraction(lat1, 59), oddLon, odd, OffBy(lat0, false, g), OffBy(lat1, true, g), Fix(r, l));
    LongitudeIff(lon, LonZones(r, odd), ZoneIndex(evenLon, oddLon, CprNL(r) - 1), l);
  }

  lemma ZoneCounts(lat: real)
    ensures LonZones(lat, false) == CprNL(lat) && LonZones(lat, true) == Max(CprNL(lat) - 1, 1)
  {
    hide CprNL;
  }

  lemma LonIndexRight(lat0: real, lon0: real, lat1: real, lon1: real, nl: nat)
    requires nl > 1 && CprNL(Reported(lat0, 60)) == nl == CprNL(Reported(lat1, 59))
    ensures var m := LonIndexOf(lat0, lon0, lat1, lon1, nl);
            var g := RoundedGap(Reported(lon0, nl), Reported(lon1, nl - 1), nl - 1);
            && (m % nl == ZoneOf(lon0, nl) % nl <==> g % nl == 0)
            && (m % (nl - 1) == ZoneOf(lon1, nl - 1) % (nl - 1) <==> g % (nl - 1) == 0)
  {
    ZoneCounts(Reported(lat0, 60));
    ZoneCounts(Reported(lat1, 59));
    hide Reported, CprNL, LonZones, ZoneOf, Fraction, ZoneIndex, RoundedGap;
    var m := LonIndexOf(lat0, lon0, lat1, lon1, nl);
    var g := RoundedGap(Reported(lon0, nl), Reported(lon1, nl - 1), nl - 1);
    ZoneIndexIs(lon0, lon1, nl - 1);
    hide LonIndexOf;
    GapIndexMod(m, ZoneOf(lon0, nl), ZoneOf(lon1, nl - 1), g, nl - 1);
    AddedZones(ZoneOf(lon0, nl), g, nl);
    AddedZones(ZoneOf(lon1, nl - 1), g, nl - 1);
  }

  lemma ModOne(m: int)
    ensures m % 1 == 0
  {
  }

  /** With reported latitudes at most half a unit apart: both are right, and what is left to ask is that they
      have the same number of longitude zones and that the rounded gap between the reported longitudes is a
      multiple of the later zone count. */
  lemma CloseDecode(lat0: real, lon0: real, lat1: real, lon1: real, odd: bool)
    requires -90.0 <= lat0 <= 90.0 && -90.0 <= lat1 <= 90.0
    requires -0.5 <= Gap(Reported(lat0, 60), Reported(lat1, 59), 59) < 0.5
    ensures var nl := CprNL(Reported(lat0, 60));
            DecodesRight(lat0, lon0, lat1, lon1, odd) <==>
              && nl == CprNL(Reported(lat1, 59))
              && (nl > 1 ==> RoundedGap(Reported(lon0, nl), Reported(lon1, nl - 1), nl - 1) % (if odd then nl - 1 else nl) == 0)
  {
    assert RoundedGap(Reported(lat0, 60), Reported(lat1, 59), 59) == 0;
    hide Reported, CprNL, LonZones, ZoneOf, OffBy, Gap, RoundedGap, LonIndexOf;
    DecodedLats(lat0, lat1);
    var nl := CprNL(Reported(lat0, 60));
    if nl == CprNL(Reported(lat1, 59)) {
      ZoneCounts(Reported(lat0, 60));
      ZoneCounts(Reported(lat1, 59));
      if nl > 1 {
        LonIndexRight(lat0, lon0, lat1, lon1, nl);
      } else {
        ModOne(LonIndexOf(lat0, lon0, lat1, lon1, nl));
        ModOne(ZoneOf(if odd then lon1 else lon0, 1));
      }
    }
  }

  /** Positions at most 0.05 degrees of latitude apart, about 3 nautical miles, are close enough. */
  lemma CloseLatitudes(lat0: real, lat1: real)
    requires Abs(lat0 - lat1) <= 0.05
    ensures CloseEnough(lat0, lat1, 59)
  {
  }
}
