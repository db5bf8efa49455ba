/** What a position report stands for, in the air and on the ground, and what the local decode makes of it
    at any reference: the position nearest to the reference, or one zone below it. */
module AdsbReference {
  import opened BitStrings
  import opened Cpr
  import opened CprGlobal
  import opened CprLocal
  import opened AircraftTracking
  import opened Geometry
  import opened AdsbEndToEnd

  // ---------- reports in the air and on the ground ----------

  /** The degrees that the zones divide. */
  function Span(ground: bool): (span: real)
    ensures span > 0.0
  {
    if ground then 90.0 else 360.0
  }

  /** The number of those zones in a full turn. */
  function Zones(ground: bool, z: nat): nat {
    if ground then 4 * z else z
  }

  lemma WidthIs(ground: bool, z: nat)
    requires z > 0
    ensures Zones(ground, z) > 0
    ensures Width(Span(ground), z) == 360.0 / Zones(ground, z) as real
    ensures Width(Span(ground), z) * Zones(ground, z) as real == 360.0
  {
    var d := Width(Span(ground), z);
    assert d * z as real == Span(ground);
    assert d * (4 * z) as real == 4.0 * (d * z as real);
    assert 360.0 / Zones(ground, z) as real * Zones(ground, z) as real == 360.0;
    if ground {
      Cancel((4 * z) as real, d, 360.0 / (4 * z) as real);
    }
  }

  /** The latitude and longitude that a report from a site stands for. */
  function SentLat(p: Site, odd: bool, ground: bool): real {
    Reported(p.lat, Zones(ground, LatZones(odd)))
  }

  function SentLon(p: Site, odd: bool, ground: bool): real {
    Reported(p.lon, Zones(ground, LonZones(SentLat(p, odd, ground), odd)))
  }

  /** The fix that a report stands for. */
  function FixOf(p: Site, odd: bool, ground: bool, now: real): Position {
    Position(SentLat(p, odd, ground), WrapLon(SentLon(p, odd, ground)), now)
  }

  lemma SentLatRange(p: Site, odd: bool, ground: bool)
    requires Valid(p)
    ensures -90.0 <= SentLat(p, odd, ground) <= 90.0
  {
  }

  lemma WrappedBy(raw: real) returns (k: int)
    ensures -1 <= k <= 1 && WrapLon(raw) + Turns(k) == raw
  {
    k := (if raw > 180.0 then 1 else 0) - if WrapLon(raw) > (if raw > 180.0 then raw - 360.0 else raw) then 1 else 0;
  }

  /** It is within half a bin of where the report was sent, in longitude modulo full turns. */
  lemma FixAccuracy(p: Site, odd: bool, ground: bool, now: real)
    requires Valid(p)
    ensures var f := FixOf(p, odd, ground, now);
            && -90.0 <= f.lat <= 90.0
            && Abs(f.lat - p.lat) <= HalfBinWidth(Zones(ground, LatZones(odd)))
            && NearModTurns(f.lon, p.lon, HalfBinWidth(Zones(ground, LonZones(f.lat, odd))))
  {
    SentLatRange(p, odd, ground);
    hide Reported, CprNL, LonZones, HalfBinWidth, WrapLon;
    HalfBin(p.lat, Zones(ground, LatZones(odd)));
    HalfBin(p.lon, Zones(ground, LonZones(SentLat(p, odd, ground), odd)));
    var k := WrappedBy(SentLon(p, odd, ground));
  }

  function LatCode(p: Site, odd: bool, ground: bool): real {
    Fraction(p.lat, Zones(ground, LatZones(odd)))
  }

  function LonCode(p: Site, odd: bool, ground: bool): real {
    Fraction(p.lon, Zones(ground, LonZones(SentLat(p, odd, ground), odd)))
  }

  /** The surface position message of a site (RTCA DO-260B section 2.2.3.2.4): movement and, with its
      status bit, heading. */
  function GroundReport(p: Site, odd: bool, tc: nat, movement: nat, heading: nat, timed: bool): (me: seq<byte>)
    requires Valid(p) && 5 <= tc <= 8 && movement < 128 && heading < 256
    ensures |me| == 7 && me[0] / 8 == tc
  {
    PackReport(tc, movement / 16, movement % 16 * 256 + heading, timed, odd,
               Encode(p.lat, Zones(true, LatZones(odd))), Encode(p.lon, Zones(true, LonZones(SentLat(p, odd, true), odd))))
  }

  predicate Sent(me: seq<byte>, p: Site, odd: bool, ground: bool) {
    if !ground then Sends(me, p, odd)
    else
      && Valid(p) && |me| >= 7
      && exists tc: nat, movement: nat, heading: nat, timed ::
           5 <= tc <= 8 && movement < 128 && heading < 256 && me[..7] == GroundReport(p, odd, tc, movement, heading, timed)
  }

  /** What the receiver reads in it. */
  lemma SentFields(me: seq<byte>, p: Site, odd: bool, ground: bool)
    requires Sent(me, p, odd, ground)
    ensures Valid(p) && |me| >= 7
    ensures LatField(me) == LatCode(p, odd, ground) && LonField(me) == LonCode(p, odd, ground) && OddFlag(me) == odd
    ensures !ground ==> Altitude(me) == 25 * p.height - 1000 && ValidAltitude(Altitude(me))
  {
    hide LatField, LonField, OddFlag, Altitude, ValidAltitude, PackReport, Encode, Reported, CprNL, Valid;
    if ground {
      var tc: nat, movement: nat, heading: nat, timed :|
        5 <= tc <= 8 && movement < 128 && heading < 256 && me[..7] == GroundReport(p, odd, tc, movement, heading, timed);
      FrontFields(me);
      PositionFields(tc, movement / 16, movement % 16 * 256 + heading, timed, odd,
                     Encode(p.lat, Zones(true, LatZones(odd))), Encode(p.lon, Zones(true, LonZones(SentLat(p, odd, true), odd))));
    } else {
      ReportFields(me, p, odd);
    }
  }

  // ---------- the local decode at any reference ----------

  /** How far below the nearest position with the right fraction the decoder ends up. */
  function Shift(ref: real, d: real): real
    requires d > 0.0
  {
    if SafeReference(ref, d) then 0.0 else d
  }

  /** The width of the latitude zones, and of the longitude zones at a latitude. */
  function LatWidth(odd: bool, ground: bool): (d: real)
    ensures d > 0.0
  {
    Width(Span(ground), LatZones(odd))
  }

  function LonWidth(lat: real, odd: bool, ground: bool): (d: real)
    ensures d > 0.0
  {
    Width(Span(ground), LonZones(lat, odd))
  }

  /** The fix of a report at a reference: in each coordinate the position nearest to the reference, less
      the shift; the longitude zones are those of the shifted latitude. */
  function NearFix(from: Position, p: Site, odd: bool, ground: bool): Fix {
    var d := LatWidth(odd, ground);
    var lat := Nearest(from.lat, d, LatCode(p, odd, ground)) - Shift(from.lat, d);
    if -90.0 <= lat <= 90.0 then
      var e := LonWidth(lat, odd, ground);
      Fix(lat, WrapLon(Nearest(from.lon, e, LonCode(p, odd, ground)) - Shift(from.lon, e)))
    else NoFix
  }

  lemma LocalIsNear(from: Position, p: Site, odd: bool, ground: bool)
    ensures DecodeLocal(Span(ground), from.lat, from.lon, LatCode(p, odd, ground), LonCode(p, odd, ground), odd)
         == NearFix(from, p, odd, ground)
  {
    hide DecodeLocal, LatCode, LonCode, Nearest, SafeReference, CprNL, WrapLon, Width, WithinHalfZone;
    LocalDecode(Span(ground), from.lat, from.lon, LatCode(p, odd, ground), LonCode(p, odd, ground), odd);
  }

  lemma OnLattice(ref: real, d: real, fraction: real, k: int, x: real)
    requires d > 0.0 && x == d * (k as real + fraction)
    ensures Nearest(ref, d, fraction) == x <==> WithinHalfZone(x, ref, d)
  {
    hide WithinHalfZone, NearestIndex;
    NearestUnique(ref, d, fraction, k);
    if Nearest(ref, d, fraction) == x {
      Cancel(d, NearestIndex(ref, d, fraction) as real + fraction, k as real + fraction);
    }
  }

  lemma OneUp(d: real, k: int, fraction: real)
    ensures d * (k as real + fraction) + d == d * ((k + 1) as real + fraction)
  {
  }

  /** One coordinate comes out as x if and only if x plus the shift is within half a zone. */
  lemma ShiftedTo(ref: real, d: real, fraction: real, k: int, x: real)
    requires d > 0.0 && x == d * (k as real + fraction)
    ensures Nearest(ref, d, fraction) - Shift(ref, d) == x <==> WithinHalfZone(x + Shift(ref, d), ref, d)
  {
    hide WithinHalfZone, Nearest, SafeReference;
    OneUp(d, k, fraction);
    OnLattice(ref, d, fraction, k, x);
    OnLattice(ref, d, fraction, k + 1, x + d);
  }

  lemma LatLattice(p: Site, odd: bool, ground: bool) returns (k: int)
    ensures SentLat(p, odd, ground) == LatWidth(odd, ground) * (k as real + LatCode(p, odd, ground))
  {
    hide Reported, Fraction, ZoneOf, Width;
    var z := Zones(ground, LatZones(odd));
    WidthIs(ground, LatZones(odd));
    ReportedParts(p.lat, z);
    k := ZoneOf(p.lat, z);
  }

  lemma LonLattice(p: Site, odd: bool, ground: bool) returns (k: int)
    ensures SentLon(p, odd, ground) == LonWidth(SentLat(p, odd, ground), odd, ground) * (k as real + LonCode(p, odd, ground))
  {
    hide Reported, Fraction, ZoneOf, Width, SentLat, LonZones;
    var z := Zones(ground, LonZones(SentLat(p, odd, ground), odd));
    WidthIs(ground, LonZones(SentLat(p, odd, ground), odd));
    ReportedParts(p.lon, z);
    k := ZoneOf(p.lon, z);
  }

  /** A full turn is a whole number of zones. */
  lemma TurnLattice(d: real, z: nat, k: int, fraction: real, t: int)
    requires d * z as real == 360.0
    ensures d * (k as real + fraction) + Turns(t) == d * ((k + t * z) as real + fraction)
  {
    assert (t * z) as real == t as real * z as real;
    assert d * (t as real * z as real) == 360.0 * t as real;
  }

  lemma WrapTurns(x: real, y: real) returns (t: int)
    requires WrapLon(x) == WrapLon(y)
    ensures -2 <= t <= 2 && y == x + Turns(t)
  {
    var a := WrappedBy(x);
    var b := WrappedBy(y);
    t := b - a;
  }

  /** The same longitude after wrapping, t turns on. */
  predicate SameLon(x: real, t: int) {
    WrapLon(x + Turns(t)) == WrapLon(x)
  }

  predicate WithinTurns(ref: real, e: real, x: real)
    requires e > 0.0
  {
    exists t :: -2 <= t <= 2 && SameLon(x, t) && WithinHalfZone(x + Turns(t) + Shift(ref, e), ref, e)
  }

  /** Exactly when the local decode at a reference is right: in each coordinate, the position that the
      report stands for is, once shifted up, within half a zone of the reference. Longitudes may differ
      by turns that wrap to the same value. */
  predicate LocallyRight(from: Position, p: Site, odd: bool, ground: bool) {
    var lat, d := SentLat(p, odd, ground), LatWidth(odd, ground);
    var lon, e := SentLon(p, odd, ground), LonWidth(lat, odd, ground);
    && WithinHalfZone(lat + Shift(from.lat, d), from.lat, d)
    && WithinTurns(from.lon, e, lon)
  }

  lemma TurnRight(ref: real, e: real, z: nat, fraction: real, k: int, x: real, t: int)
    requires e > 0.0 && e * z as real == 360.0 && x == e * (k as real + fraction)
    ensures Nearest(ref, e, fraction) - Shift(ref, e) == x + Turns(t) <==> WithinHalfZone(x + Turns(t) + Shift(ref, e), ref, e)
  {
    hide Nearest, Shift, WithinHalfZone, Turns;
    TurnLattice(e, z, k, fraction, t);
    ShiftedTo(ref, e, fraction, k + t * z, x + Turns(t));
  }

  lemma LonRight(ref: real, e: real, z: nat, fraction: real, k: int, x: real)
    requires e > 0.0 && e * z as real == 360.0 && x == e * (k as real + fraction)
    ensures WrapLon(Nearest(ref, e, fraction) - Shift(ref, e)) == WrapLon(x) <==> WithinTurns(ref, e, x)
  {
    hide Nearest, Shift, WithinHalfZone, Turns, WrapLon;
    var y := Nearest(ref, e, fraction) - Shift(ref, e);
    if WrapLon(y) == WrapLon(x) {
      var t := WrapTurns(x, y);
      TurnRight(ref, e, z, fraction, k, x, t);
      assert SameLon(x, t);
    }
    if WithinTurns(ref, e, x) {
      var t :| -2 <= t <= 2 && SameLon(x, t) && WithinHalfZone(x + Turns(t) + Shift(ref, e), ref, e);
      TurnRight(ref, e, z, fraction, k, x, t);
    }
  }

  lemma LatRight(from: Position, p: Site, odd: bool, ground: bool)
    ensures var lat, d := SentLat(p, odd, ground), LatWidth(odd, ground);
            Nearest(from.lat, d, LatCode(p, odd, ground)) - Shift(from.lat, d) == lat <==>
            WithinHalfZone(lat + Shift(from.lat, d), from.lat, d)
  {
    hide SentLat, LatCode, LatWidth, Nearest, Shift, WithinHalfZone;
    var k := LatLattice(p, odd, ground);
    ShiftedTo(from.lat, LatWidth(odd, ground), LatCode(p, odd, ground), k, SentLat(p, odd, ground));
  }

  lemma LonWithLat(from: Position, p: Site, odd: bool, ground: bool)
    ensures var lon, e := SentLon(p, odd, ground), LonWidth(SentLat(p, odd, ground), odd, ground);
            WrapLon(Nearest(from.lon, e, LonCode(p, odd, ground)) - Shift(from.lon, e)) == WrapLon(lon) <==>
            WithinTurns(from.lon, e, lon)
  {
    hide SentLat, SentLon, LonCode, Nearest, Shift, WithinTurns, WrapLon, LonZones, Span, Width, Zones;
    var z := LonZones(SentLat(p, odd, ground), odd);
    var m := LonLattice(p, odd, ground);
    WidthIs(ground, z);
    LonRight(from.lon, Width(Span(ground), z), Zones(ground, z), LonCode(p, odd, ground), m, SentLon(p, odd, ground));
  }

  /** The local decode of a report, at any reference, in the air and on the ground. */
  lemma LocalRight(from: Position, p: Site, odd: bool, ground: bool)
    requires Valid(p)
    ensures NearFix(from, p, odd, ground) == Fix(SentLat(p, odd, ground), WrapLon(SentLon(p, odd, ground)))
       <==> LocallyRight(from, p, odd, ground)
  {
    SentLatRange(p, odd, ground);
    hide SentLat, SentLon, LatCode, LonCode, LatWidth, LonWidth, Nearest, Shift, WithinHalfZone, WithinTurns, WrapLon;
    LatRight(from, p, odd, ground);
    LonWithLat(from, p, odd, ground);
  }

  /** The site is at most half a zone from the reference in both coordinates. */
  predicate Nearby(from: Position, p: Site, odd: bool, ground: bool) {
    var lat := SentLat(p, odd, ground);
    && WithinHalfZone(lat, from.lat, LatWidth(odd, ground))
    && WithinHalfZone(SentLon(p, odd, ground), from.lon, LonWidth(lat, odd, ground))
  }

  lemma OneOf(x: real, y: real, ref: real, e: real)
    requires WithinHalfZone(x, ref, e) && WithinHalfZone(y, ref, e)
    ensures -e < x - y < e
  {
  }

  lemma LowerTurn(x: real)
    ensures SameLon(x, -1) <==> -180.0 <= x <= 540.0 && x != 180.0
  {
  }

  /** From nearby, the local decode is right if and only if both coordinates of the reference are
      non-negative or whole numbers of zones. One longitude zone in the whole turn also does, because
      one zone low is then one turn. */
  lemma NearbyRight(from: Position, p: Site, odd: bool, ground: bool)
    requires Valid(p) && Nearby(from, p, odd, ground)
    ensures var lon, e := SentLon(p, odd, ground), LonWidth(SentLat(p, odd, ground), odd, ground);
            LocallyRight(from, p, odd, ground) <==>
              && SafeReference(from.lat, LatWidth(odd, ground))
              && (SafeReference(from.lon, e) || (e == 360.0 && -180.0 <= lon <= 540.0 && lon != 180.0))
  {
    hide SentLat, SentLon, SafeReference, Width, Span, CprNL, LonZones, WrapLon, SameLon, Turns, WithinHalfZone, WithinTurns;
    var lat, d := SentLat(p, odd, ground), LatWidth(odd, ground);
    var lon, e := SentLon(p, odd, ground), LonWidth(lat, odd, ground);
    if WithinHalfZone(lat + Shift(from.lat, d), from.lat, d) {
      OneOf(lat + Shift(from.lat, d), lat, from.lat, d);
    }
    NearbyLon(from.lon, e, lon, ground, LonZones(lat, odd));
  }

  lemma NearbyLon(ref: real, e: real, lon: real, ground: bool, z: nat)
    requires z > 0 && e == Width(Span(ground), z) && WithinHalfZone(lon, ref, e)
    ensures WithinTurns(ref, e, lon) <==>
            SafeReference(ref, e) || (e == 360.0 && -180.0 <= lon <= 540.0 && lon != 180.0)
  {
    assert 0.0 < e <= 360.0 by { WidthIs(ground, z); WidthBound(e, Zones(ground, z)); }
    hide SafeReference, Width, Span, WithinHalfZone, SameLon;
    LowerTurn(lon);
    if SafeReference(ref, e) {
      ThisTurn(lon);
      assert WithinHalfZone(lon + Turns(0) + Shift(ref, e), ref, e);
    } else {
      forall t | WithinHalfZone(lon + Turns(t) + e, ref, e)
        ensures e == 360.0 && t == -1
      {
        OneOf(lon + Turns(t) + e, lon, ref, e);
        NoTurn(e, t, ground, z);
      }
      if e == 360.0 {
        assert lon + Turns(-1) + Shift(ref, e) == lon;
      }
    }
  }

  lemma ThisTurn(x: real)
    ensures SameLon(x, 0) && Turns(0) == 0.0
  {
  }

  lemma WidthBound(e: real, z: nat)
    requires z > 0 && e * z as real == 360.0
    ensures 0.0 < e <= 360.0
  {
    assert e * (z as real - 1.0) >= 0.0;
  }

  /** Less than a zone away, and a turn is a whole number of zones. */
  lemma NoTurn(e: real, t: int, ground: bool, z: nat)
    requires z > 0 && e == Width(Span(ground), z) && -e < Turns(t) + e < e
    ensures e == 360.0 && t == -1
  {
    WidthIs(ground, z);
    WidthBound(e, Zones(ground, z));
    assert t == -1;
    var n := Zones(ground, z);
    assert Turns(t) == -(e * n as real);
    assert e * (n as real - 1.0) < e;
    assert n >= 2 ==> e * (n as real - 2.0) >= 0.0;
  }
}
