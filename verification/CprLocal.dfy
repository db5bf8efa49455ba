/** The local decode: which position near a reference a single report stands for, where the decoder
    finds it, and where its truncating remainder makes it miss by one zone. */
module CprLocal {
  import opened Cpr

  /** ref is a whole number of zones. */
  predicate OnBoundary(ref: real, d: real)
    requires d > 0.0
  {
    ref / d == (ref / d).Floor as real
  }

  /** The references for which the decoder's remainder is the mathematical one. */
  predicate SafeReference(ref: real, d: real)
    requires d > 0.0
  {
    ref >= 0.0 || OnBoundary(ref, d)
  }

  /** p is at most half a zone from ref, the half zone below excluded. */
  predicate WithinHalfZone(p: real, ref: real, d: real) {
    ref - d / 2.0 < p <= ref + d / 2.0
  }

  /** The index of the zone whose point at the given fraction is closest to the reference. */
  function NearestIndex(ref: real, d: real, fraction: real): int
    requires d > 0.0
  {
    (0.5 + ref / d - fraction).Floor
  }

  function Nearest(ref: real, d: real, fraction: real): real
    requires d > 0.0
  {
    d * (NearestIndex(ref, d, fraction) as real + fraction)
  }

  lemma ScaleHalf(d: real, x: real)
    requires d > 0.0
    ensures -d / 2.0 < d * x <= d / 2.0 <==> -0.5 < x <= 0.5
  {
    if x > 0.5 {
      assert d * (x - 0.5) > 0.0;
    } else if x <= -0.5 {
      assert d * (-0.5 - x) >= 0.0;
    } else {
      assert d * (0.5 - x) >= 0.0 && d * (x + 0.5) > 0.0;
    }
  }

  lemma Offset(ref: real, d: real, y: real)
    requires d > 0.0
    ensures d * (y - ref / d) == d * y - ref
  {
  }

  /** Of all positions with the given fraction in their zone, exactly one is within half a zone of
      the reference. */
  lemma NearestUnique(ref: real, d: real, fraction: real, k: int)
    requires d > 0.0
    ensures WithinHalfZone(d * (k as real + fraction), ref, d) <==> k == NearestIndex(ref, d, fraction)
  {
    var x := k as real + fraction - ref / d;
    Offset(ref, d, k as real + fraction);
    ScaleHalf(d, x);
    if -0.5 < x <= 0.5 {
      FloorIs(0.5 + ref / d - fraction, k);
    }
  }

  lemma TruncModRatio(ref: real, d: real)
    requires d > 0.0
    ensures TruncMod(ref, d) / d == ref / d - Trunc(ref / d) as real
  {
    var t := Trunc(ref / d) as real;
    assert d * (TruncMod(ref, d) / d) == TruncMod(ref, d) == ref - d * t;
    Offset(ref, d, t);
    assert d * (ref / d - t) == ref - d * t;
    Cancel(d, TruncMod(ref, d) / d, ref / d - t);
  }

  lemma Cancel(d: real, x: real, y: real)
    requires d > 0.0 && d * x == d * y
    ensures x == y
  {
    assert d * (x - y) == 0.0;
  }

  lemma TruncCases(u: real)
    ensures Trunc(u) == if u >= 0.0 || u == u.Floor as real then u.Floor else u.Floor + 1
  {
  }

  lemma QuotientSign(ref: real, d: real)
    requires d > 0.0
    ensures ref >= 0.0 <==> ref / d >= 0.0
  {
  }

  lemma FloorShift(x: real, k: int)
    ensures (x - k as real).Floor == x.Floor - k
  {
  }

  /** The decoder's index is the nearest one, or for an unsafe reference the one below it. */
  lemma LocalIndexExact(ref: real, d: real, fraction: real)
    requires d > 0.0
    ensures LocalIndex(ref, d, fraction) == NearestIndex(ref, d, fraction) - if SafeReference(ref, d) then 0 else 1
  {
    var u := ref / d;
    QuotientSign(ref, d);
    TruncModRatio(ref, d);
    TruncCases(u);
    FloorShift(0.5 + u - fraction, Trunc(u));
  }

  lemma OneZoneLower(d: real, k: int, fraction: real)
    ensures d * ((k - 1) as real + fraction) == d * (k as real + fraction) - d
  {
  }

  /** One coordinate of the local decode. It is within half a zone of the reference if and only if
      the reference is non-negative or a whole number of zones; otherwise it is one zone too low. */
  lemma LocalCoordinateExact(ref: real, d: real, fraction: real)
    requires d > 0.0
    ensures LocalCoordinate(ref, d, fraction) == Nearest(ref, d, fraction) - if SafeReference(ref, d) then 0.0 else d
    ensures WithinHalfZone(LocalCoordinate(ref, d, fraction), ref, d) <==> SafeReference(ref, d)
  {
    var k := NearestIndex(ref, d, fraction);
    LocalIndexExact(ref, d, fraction);
    OneZoneLower(d, k, fraction);
    NearestUnique(ref, d, fraction, LocalIndex(ref, d, fraction));
  }

  /** The local decode, in the air (span 360) and on the ground (span 90). */
  lemma LocalDecode(span: real, refLat: real, refLon: real, cprLat: real, cprLon: real, isOdd: bool)
    requires span > 0.0
    ensures var fix := DecodeLocal(span, refLat, refLon, cprLat, cprLon, isOdd);
            var d := Width(span, LatZones(isOdd));
            var lat := Nearest(refLat, d, cprLat) - if SafeReference(refLat, d) then 0.0 else d;
            && (fix.Fix? <==> -90.0 <= lat <= 90.0)
            && (fix.Fix? ==>
                  && fix.lat == lat
                  && (WithinHalfZone(fix.lat, refLat, d) <==> SafeReference(refLat, d))
                  && var e := Width(span, LonZones(lat, isOdd));
                     fix.lon == WrapLon(Nearest(refLon, e, cprLon) - if SafeReference(refLon, e) then 0.0 else e))
  {
    var d := Width(span, LatZones(isOdd));
    LocalCoordinateExact(refLat, d, cprLat);
    hide LocalCoordinate, Nearest, SafeReference, CprNL, WrapLon, Width;
    var lat := LocalCoordinate(refLat, d, cprLat);
    LocalCoordinateExact(refLon, Width(span, LonZones(lat, isOdd)), cprLon);
  }

  // ---------- feeding a fix back ----------

  /** A reference that already has the fraction: the decoder returns it, or the point one zone below. */
  lemma OwnReference(ref: real, k: int, d: real, fraction: real)
    requires d > 0.0 && 0.0 <= fraction < 1.0 && ref == d * (k as real + fraction)
    ensures LocalCoordinate(ref, d, fraction) == ref - if ref >= 0.0 || fraction == 0.0 then 0.0 else d
  {
    assert ref / d == k as real + fraction;
    FloorIs(k as real + fraction, k);
    FloorIs(0.5 + ref / d - fraction, k);
    LocalCoordinateExact(ref, d, fraction);
  }

  lemma InZonePoint(index: int, z: nat, fraction: real, wrap: bool) returns (k: int)
    requires z > 0
    ensures InZone(360.0, index, z, fraction) - (if wrap then 360.0 else 0.0) == Width(360.0, z) * (k as real + fraction)
  {
    ModOfInts(index, z);
    var r := index % z;
    var d := Width(360.0, z);
    k := if wrap then r - z else r;
    assert d * z as real == 360.0;
    assert d * ((r - z) as real + fraction) == d * (r as real + fraction) - d * z as real;
  }

  lemma FullTurn(z: nat)
    requires z > 0
    ensures Width(360.0, z) == 360.0 <==> z == 1
    ensures 0.0 < Width(360.0, z) <= 360.0
  {
    var d := Width(360.0, z);
    assert d * z as real == 360.0;
    if d == 360.0 {
      assert 360.0 * (z as real - 1.0) == 0.0;
    }
    if z > 1 {
      assert d * (z as real - 1.0) > 0.0;
    }
  }

  /** A global fix fed back as the reference for the same report comes back unchanged if and only if
      both coordinates are non-negative or have fraction zero; a single longitude zone also does,
      because one zone too low is then one full turn. */
  lemma GlobalFeedback(evenLat: real, evenLon: real, oddLat: real, oddLon: real, odd: bool)
    requires 0.0 <= evenLat < 1.0 && 0.0 <= evenLon < 1.0 && 0.0 <= oddLat < 1.0 && 0.0 <= oddLon < 1.0
    ensures var fix := DecodeCPRGlobal(evenLat, evenLon, oddLat, oddLon, odd);
            var cprLat, cprLon := if odd then oddLat else evenLat, if odd then oddLon else evenLon;
            fix.Fix? ==>
              (DecodeCPRLocal(fix.lat, fix.lon, cprLat, cprLon, odd) == fix <==>
                && (fix.lat >= 0.0 || cprLat == 0.0)
                && (fix.lon >= 0.0 || cprLon == 0.0 || LonZones(fix.lat, odd) == 1))
  {
    hide CprNL;
    var fix := DecodeCPRGlobal(evenLat, evenLon, oddLat, oddLon, odd);
    var cprLat, cprLon := if odd then oddLat else evenLat, if odd then oddLon else evenLon;
    if fix.Fix? {
      var z, ni := LatZones(odd), LonZones(fix.lat, odd);
      var j := ZoneIndex(evenLat, oddLat, 59);
      var m := ZoneIndex(evenLon, oddLon, CprNL(fix.lat) - 1);
      var k := InZonePoint(j, z, cprLat, InZone(360.0, j, z, cprLat) >= 270.0);
      var w := InZonePoint(m, ni, cprLon, InZone(360.0, m, ni, cprLon) >= 180.0);
      assert fix.lat == Width(360.0, z) * (k as real + cprLat);
      assert fix.lon == Width(360.0, ni) * (w as real + cprLon);
      assert -90.0 <= fix.lat <= 90.0 && -180.0 <= fix.lon < 180.0 by {
        LonBelow180(m, ni, cprLon);
      }
      hide DecodeCPRGlobal, ZoneIndex, InZone, LonZones, LocalCoordinate;
      FeedbackPoint(k, z, w, ni, cprLat, cprLon, odd, fix);
    }
  }

  lemma LonBelow180(m: int, ni: nat, fraction: real)
    requires ni > 0 && 0.0 <= fraction < 1.0
    ensures InZone(360.0, m, ni, fraction) < 360.0
  {
    ModOfInts(m, ni);
    var d := Width(360.0, ni);
    assert d * ni as real == 360.0;
    assert (m % ni) as real + fraction < ni as real;
  }

  lemma FeedbackPoint(k: int, z: nat, w: int, ni: nat, cprLat: real, cprLon: real, odd: bool, fix: Fix)
    requires fix.Fix? && z == LatZones(odd) && ni == LonZones(fix.lat, odd)
    requires 0.0 <= cprLat < 1.0 && 0.0 <= cprLon < 1.0
    requires fix.lat == Width(360.0, z) * (k as real + cprLat)
    requires fix.lon == Width(360.0, ni) * (w as real + cprLon)
    requires -90.0 <= fix.lat <= 90.0 && -180.0 <= fix.lon < 180.0
    ensures DecodeCPRLocal(fix.lat, fix.lon, cprLat, cprLon, odd) == fix <==>
              && (fix.lat >= 0.0 || cprLat == 0.0)
              && (fix.lon >= 0.0 || cprLon == 0.0 || ni == 1)
  {
    hide Width, CprNL, LocalCoordinate, LonZones, DecodeLocal, DecodeCPRLocal, LatZones;
    OwnReference(fix.lat, k, Width(360.0, z), cprLat);
    OwnReference(fix.lon, w, Width(360.0, ni), cprLon);
    FullTurn(ni);
    FeedbackFix(cprLat, cprLon, odd, fix);
  }

  lemma FeedbackFix(cprLat: real, cprLon: real, odd: bool, fix: Fix)
    requires fix.Fix? && -90.0 <= fix.lat <= 90.0 && -180.0 <= fix.lon < 180.0
    requires LocalCoordinate(fix.lat, Width(360.0, LatZones(odd)), cprLat)
          == fix.lat - if fix.lat >= 0.0 || cprLat == 0.0 then 0.0 else Width(360.0, LatZones(odd))
    requires var e := Width(360.0, LonZones(fix.lat, odd));
             LocalCoordinate(fix.lon, e, cprLon) == fix.lon - (if fix.lon >= 0.0 || cprLon == 0.0 then 0.0 else e)
             && e <= 360.0
    ensures DecodeCPRLocal(fix.lat, fix.lon, cprLat, cprLon, odd) == fix <==>
              && (fix.lat >= 0.0 || cprLat == 0.0)
              && (fix.lon >= 0.0 || cprLon == 0.0 || Width(360.0, LonZones(fix.lat, odd)) == 360.0)
  {
    hide CprNL, LocalCoordinate, LonZones, Width;
  }
}
