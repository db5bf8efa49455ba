/** The global decode on the ground: surface reports divide a quarter turn into zones, so a pair of them
    determines a position modulo 90 degrees, and the decoder takes the one from 0 to 90. */
module CprSurface {
  import opened Cpr
  import opened CprGlobal

  /** A coordinate modulo a quarter turn, in [0, 90). */
  function Fold(x: real): (r: real)
    ensures 0.0 <= r < 90.0
  {
    x - 90.0 * (x / 90.0).Floor as real
  }

  lemma FoldIs(x: real, k: int, r: real)
    requires x == r + 90.0 * k as real && 0.0 <= r < 90.0
    ensures Fold(x) == r
  {
    FloorIs(x / 90.0, k);
  }

  /** Reports on the ground have four times as many zones: they are those of four times the coordinate. */
  lemma FourFold(x: real, z: nat)
    requires z > 0
    ensures Fraction(x, 4 * z) == Fraction(4.0 * x, z) && ZoneOf(x, 4 * z) == ZoneOf(4.0 * x, z)
    ensures 4.0 * Reported(x, 4 * z) == Reported(4.0 * x, z)
  {
    assert x * (4 * z) as real == 4.0 * x * z as real;
    assert InZones(x, 4 * z) == InZones(4.0 * x, z);
    var b := Bin(x, 4 * z) as real / BINS as real;
    Quarters(360.0, z, b);
  }

  lemma Quarters(span: real, z: nat, y: real)
    requires z > 0
    ensures 4.0 * (span / (4 * z) as real * y) == span / z as real * y
    ensures 4.0 * (span / 4.0 / z as real * y) == span / z as real * y
  {
    var d := span / (4 * z) as real;
    assert d * (4 * z) as real == span;
    assert (4.0 * d) * z as real == span;
    assert 4.0 * d == span / z as real;
    assert 4.0 * (span / 4.0 / z as real) == span / z as real;
    assert 4.0 * (d * y) == 4.0 * d * y;
    var e := span / 4.0 / z as real;
    assert 4.0 * (e * y) == 4.0 * e * y;
  }

  /** A zone index that is right modulo the zone count gives the reported coordinate modulo 90 degrees. */
  lemma InQuarter(x: real, z: nat, index: int)
    requires z > 0 && index % z == ZoneOf(4.0 * x, z) % z
    ensures InZone(90.0, index, z, Fraction(x, 4 * z)) == Fold(Reported(x, 4 * z))
  {
    hide Fraction, ZoneOf, Reported, Fold, Mod;
    FourFold(x, z);
    InZoneExact(4.0 * x, z, index);
    var f := Fraction(x, 4 * z);
    Quarters(360.0, z, Mod(index as real, z as real) + f);
    assert 4.0 * InZone(90.0, index, z, f) == InZone(360.0, index, z, f);
    FoldIs(Reported(x, 4 * z), ZoneOf(4.0 * x, z) / z, InZone(90.0, index, z, f));
  }

  /** Close enough for the zones on the ground. */
  predicate CloseOnGround(x0: real, x1: real, n: nat) {
    CloseEnough(4.0 * x0, 4.0 * x1, n)
  }

  /** Both latitudes of the decode are the reported ones modulo 90 degrees. */
  lemma GroundLatitude(lat0: real, lat1: real)
    requires CloseOnGround(lat0, lat1, 59)
    ensures var j := ZoneIndex(Fraction(lat0, 240), Fraction(lat1, 236), 59);
            && GlobalLat(90.0, j, 60, Fraction(lat0, 240)) == Fold(Reported(lat0, 240))
            && GlobalLat(90.0, j, 59, Fraction(lat1, 236)) == Fold(Reported(lat1, 236))
  {
    hide Fraction, Reported, ZoneOf, InZone, ZoneIndex, CloseEnough, Fold;
    FourFold(lat0, 60);
    FourFold(lat1, 59);
    var j := ZoneIndex(Fraction(lat0, 240), Fraction(lat1, 236), 59);
    ZoneIndexExact(4.0 * lat0, 4.0 * lat1, 59);
    ZoneIndexMod(j, ZoneOf(4.0 * lat0, 60), ZoneOf(4.0 * lat1, 59), 59);
    InQuarter(lat0, 60, j);
    InQuarter(lat1, 59, j);
  }

  lemma GroundSteps(evenLat: real, evenLon: real, oddLat: real, oddLon: real, odd: bool, r0: real, r1: real)
    requires r0 == GlobalLat(90.0, ZoneIndex(evenLat, oddLat, 59), 60, evenLat)
    requires r1 == GlobalLat(90.0, ZoneIndex(evenLat, oddLat, 59), 59, oddLat)
    requires 0.0 <= r0 < 90.0 && 0.0 <= r1 < 90.0
    ensures var lat := if odd then r1 else r0;
            var lon := InZone(90.0, ZoneIndex(evenLon, oddLon, CprNL(lat) - 1), LonZones(lat, odd), if odd then oddLon else evenLon);
            0.0 <= lon < 90.0 ==>
              DecodeCPRSurfaceGlobal(evenLat, evenLon, oddLat, oddLon, odd) == if CprNL(r0) == CprNL(r1) then Fix(lat, lon) else NoFix
  {
    hide CprNL, ZoneIndex, GlobalLat, InZone, LonZones;
  }

  /** Whatever the longitudes, the decode of two reports sent close together has the reported latitude modulo 90
      degrees and a longitude in [0, 90), and there is none exactly if the two latitudes modulo 90 degrees have
      different numbers of longitude zones. */
  lemma GroundDecode(lat0: real, lat1: real, x0: nat, x1: nat, odd: bool)
    requires CloseOnGround(lat0, lat1, 59) && x0 < BINS && x1 < BINS
    ensures var (r0, r1) := (Fold(Reported(lat0, 240)), Fold(Reported(lat1, 236)));
            var fix := DecodeCPRSurfaceGlobal(Fraction(lat0, 240), x0 as real / BINS as real, Fraction(lat1, 236), x1 as real / BINS as real, odd);
            && (fix.Fix? <==> CprNL(r0) == CprNL(r1))
            && (fix.Fix? ==> fix.lat == (if odd then r1 else r0) && 0.0 <= fix.lon < 90.0)
  {
    hide Fraction, Reported, ZoneIndex, CloseEnough, Fold, CprNL, InZone, GlobalLat, DecodeCPRSurfaceGlobal, LonZones;
    var (e, o) := (x0 as real / BINS as real, x1 as real / BINS as real);
    var (r0, r1) := (Fold(Reported(lat0, 240)), Fold(Reported(lat1, 236)));
    var lat := if odd then r1 else r0;
    GroundLatitude(lat0, lat1);
    InQuarterRange(ZoneIndex(e, o, CprNL(lat) - 1), LonZones(lat, odd), if odd then o else e);
    GroundSteps(Fraction(lat0, 240), e, Fraction(lat1, 236), o, odd, r0, r1);
  }

  lemma InQuarterRange(index: int, z: nat, f: real)
    requires z > 0 && 0.0 <= f < 1.0
    ensures 0.0 <= InZone(90.0, index, z, f) < 90.0
  {
    hide Mod;
    ModOfInts(index, z);
    ZoneRange(360.0 / z as real, z, index % z, f);
    Quarters(360.0, z, (index % z) as real + f);
  }

  /** With longitudes close enough for the zones of the decoded latitude, the longitude is the reported one modulo
      90 degrees. */
  lemma GroundLongitude(lon0: real, lon1: real, nl: nat)
    requires nl > 0 && (nl > 1 ==> CloseOnGround(lon0, lon1, nl - 1))
    ensures var (n0, n1) := (nl, Max(nl - 1, 1));
            var m := ZoneIndex(Fraction(lon0, 4 * n0), Fraction(lon1, 4 * n1), nl - 1);
            && InZone(90.0, m, n0, Fraction(lon0, 4 * n0)) == Fold(Reported(lon0, 4 * n0))
            && InZone(90.0, m, n1, Fraction(lon1, 4 * n1)) == Fold(Reported(lon1, 4 * n1))
  {
    hide Fraction, Reported, ZoneOf, InZone, ZoneIndex, CloseEnough, Fold;
    var (n0, n1) := (nl, Max(nl - 1, 1));
    var m := ZoneIndex(Fraction(lon0, 4 * n0), Fraction(lon1, 4 * n1), nl - 1);
    FourFold(lon0, n0);
    FourFold(lon1, n1);
    LonIndex(4.0 * lon0, 4.0 * lon1, nl);
    InQuarter(lon0, n0, m);
    InQuarter(lon1, n1, m);
  }

  /** In the quarter from 0 to 90 degrees, modulo full turns. */
  ghost predicate InFirstQuarter(x: real) {
    exists k :: 0.0 <= x + Turns(k) < 90.0
  }

  lemma FoldRightIff(x: real)
    ensures SameModTurns(Fold(x), x) <==> InFirstQuarter(x)
  {
    hide Fold;
    if SameModTurns(Fold(x), x) {
      var k :| Fold(x) + Turns(k) == x;
      assert 0.0 <= x + Turns(-k) < 90.0;
    }
    if InFirstQuarter(x) {
      var k :| 0.0 <= x + Turns(k) < 90.0;
      FoldIs(x, -4 * k, x + Turns(k));
      assert Fold(x) + Turns(-k) == x;
    }
  }

  /** Two reported latitudes that fold to the same number of longitude zones and of which one is from 0 to 90
      are both from 0 to 90. */
  lemma BothNorth(q: real, r: real)
    requires Abs(q - r) < 0.1 && r <= 90.0
    requires 0.0 <= q < 90.0 && CprNL(q) == CprNL(Fold(r))
    ensures 0.0 <= r < 90.0
  {
    if r < 0.0 {
      FoldIs(r, -1, r + 90.0);
    } else if r == 90.0 {
      FoldIs(r, 1, 0.0);
    }
  }

  lemma NearLatitudes(lat0: real, lat1: real)
    requires CloseOnGround(lat0, lat1, 59)
    ensures Abs(Reported(lat0, 240) - Reported(lat1, 236)) < 0.1
  {
    hide Reported;
    HalfBin(lat0, 240);
    HalfBin(lat1, 236);
    assert HalfBinWidth(240) < 0.01 && HalfBinWidth(236) < 0.01;
    assert Gap(4.0 * lat0, 4.0 * lat1, 59) == (lat0 - lat1) * (4.0 * 3540.0 / 360.0);
  }

  lemma GroundLatRange(lat: real)
    requires -90.0 <= lat <= 90.0
    ensures Reported(lat, 240) <= 90.0 && Reported(lat, 236) <= 90.0
  {
  }

  /** The latitude is the reported one and the longitude is it modulo full turns. */
  ghost predicate RightAbout(fix: Fix, lat: real, lon: real) {
    fix.Fix? && fix.lat == lat && SameModTurns(fix.lon, lon)
  }

  /** The number of longitude zones in a full turn for a surface report. */
  function GroundZones(lat: real, odd: bool): (z: nat)
    ensures z > 0
  {
    4 * LonZones(lat, odd)
  }

  /** The global decode of two surface reports sent close together is right about the later one if and only if
      both reported latitudes are from 0 to 90 degrees, with the same number of longitude zones, and the later
      reported longitude is from 0 to 90 degrees: nothing selects another quarter of the globe. */
  lemma GroundRightIff(lat0: real, lon0: real, lat1: real, lon1: real, odd: bool)
    requires -90.0 <= lat0 <= 90.0 && -90.0 <= lat1 <= 90.0 && CloseOnGround(lat0, lat1, 59)
    requires var nl := CprNL(Reported(lat0, 240)); nl > 1 ==> CloseOnGround(lon0, lon1, nl - 1)
    ensures var (q0, q1) := (Reported(lat0, 240), Reported(lat1, 236));
            var (z0, z1) := (GroundZones(q0, false), GroundZones(q1, true));
            var fix := DecodeCPRSurfaceGlobal(Fraction(lat0, 240), Fraction(lon0, z0), Fraction(lat1, 236), Fraction(lon1, z1), odd);
            var lon := if odd then Reported(lon1, z1) else Reported(lon0, z0);
            var north := 0.0 <= q0 < 90.0 && 0.0 <= q1 < 90.0 && CprNL(q0) == CprNL(q1);
            && (RightAbout(fix, if odd then q1 else q0, lon) <==> north && InFirstQuarter(lon))
            && (north ==> fix == Fix(if odd then q1 else q0, Fold(lon)))
  {
    hide Fraction, Reported, CloseEnough, Fold, CprNL, InZone, GlobalLat, ZoneIndex, DecodeCPRSurfaceGlobal, SameModTurns, InFirstQuarter, LonZones;
    var (q0, q1) := (Reported(lat0, 240), Reported(lat1, 236));
    var (z0, z1) := (GroundZones(q0, false), GroundZones(q1, true));
    NearLatitudes(lat0, lat1);
    GroundLatRange(lat0);
    GroundLatRange(lat1);
    GroundDecode(lat0, lat1, Encode(lon0, z0), Encode(lon1, z1), odd);
    FractionIs(lon0, z0);
    FractionIs(lon1, z1);
    if 0.0 <= q0 < 90.0 && 0.0 <= q1 < 90.0 && CprNL(q0) == CprNL(q1) {
      NorthernFix(lat0, lon0, lat1, lon1, odd);
      FoldRightIff(if odd then Reported(lon1, z1) else Reported(lon0, z0));
    } else {
      FoldSame(q0);
      FoldSame(q1);
      if 0.0 <= q0 < 90.0 && CprNL(q0) == CprNL(Fold(q1)) {
        BothNorth(q0, q1);
      }
      if 0.0 <= q1 < 90.0 && CprNL(q1) == CprNL(Fold(q0)) {
        BothNorth(q1, q0);
      }
    }
  }

  lemma FractionIs(x: real, z: nat)
    ensures Fraction(x, z) == Encode(x, z) as real / BINS as real && Encode(x, z) < BINS
  {
  }

  lemma FoldSame(x: real)
    ensures 0.0 <= x < 90.0 <==> Fold(x) == x
  {
    if 0.0 <= x < 90.0 {
      FoldIs(x, 0, x);
    }
  }

  lemma NorthernFix(lat0: real, lon0: real, lat1: real, lon1: real, odd: bool)
    requires CloseOnGround(lat0, lat1, 59)
    requires 0.0 <= Reported(lat0, 240) < 90.0 && 0.0 <= Reported(lat1, 236) < 90.0
    requires var nl := CprNL(Reported(lat0, 240)); nl == CprNL(Reported(lat1, 236)) && (nl > 1 ==> CloseOnGround(lon0, lon1, nl - 1))
    ensures var (q0, q1) := (Reported(lat0, 240), Reported(lat1, 236));
            var (z0, z1) := (GroundZones(q0, false), GroundZones(q1, true));
            var lon := if odd then Reported(lon1, z1) else Reported(lon0, z0);
            DecodeCPRSurfaceGlobal(Fraction(lat0, 240), Fraction(lon0, z0), Fraction(lat1, 236), Fraction(lon1, z1), odd)
              == Fix(if odd then q1 else q0, Fold(lon))
  {
    hide Fraction, Reported, CloseEnough, Fold, CprNL, InZone, GlobalLat, ZoneIndex, DecodeCPRSurfaceGlobal, GroundZones, LonZones;
    var (q0, q1) := (Reported(lat0, 240), Reported(lat1, 236));
    GroundLatitude(lat0, lat1);
    FoldSame(q0);
    FoldSame(q1);
    GroundLongitude(lon0, lon1, CprNL(q0));
    ZonesAre(q0, q1);
    GroundSteps(Fraction(lat0, 240), Fraction(lon0, GroundZones(q0, false)), Fraction(lat1, 236), Fraction(lon1, GroundZones(q1, true)), odd, q0, q1);
  }

  lemma ZonesAre(q0: real, q1: real)
    requires CprNL(q0) == CprNL(q1)
    ensures LonZones(q0, false) == CprNL(q0) && LonZones(q1, true) == Max(CprNL(q0) - 1, 1)
    ensures GroundZones(q0, false) == 4 * CprNL(q0) && GroundZones(q1, true) == 4 * Max(CprNL(q0) - 1, 1)
  {
    hide CprNL;
  }
}
