/** A tracked aircraft report by report: exactly when the next report leads to the fix it stands for, and
    exactly when the gate lets a fix one zone low through. */
module AdsbFlight {
  import opened BitStrings
  import opened Cpr
  import opened CprGlobal
  import opened CprLocal
  import opened Geometry
  import opened AircraftTracking
  import opened AdsbEndToEnd
  import opened AdsbReference

  // ---------- one report ----------

  datatype Stored = Nothing | Stored(lat: real, lon: real, time: real)

  /** The stored report of the format other than this one. */
  function OtherReport(ac: AircraftState, odd: bool): Stored {
    if odd then (if ac.hasEven then Stored(ac.evenLat, ac.evenLon, ac.evenTime) else Nothing)
    else if ac.hasOdd then Stored(ac.oddLat, ac.oddLon, ac.oddTime) else Nothing
  }

  /** The global decode of a report together with a stored one of the other format, if that is under ten
      seconds away. */
  function FarFix(other: Stored, p: Site, odd: bool, ground: bool, now: real): Fix {
    if other.Nothing? || Abs(other.time - now) >= 10.0 then NoFix
    else if odd then
      if ground then DecodeCPRSurfaceGlobal(other.lat, other.lon, LatCode(p, odd, ground), LonCode(p, odd, ground), odd)
      else DecodeCPRGlobal(other.lat, other.lon, LatCode(p, odd, ground), LonCode(p, odd, ground), odd)
    else
      if ground then DecodeCPRSurfaceGlobal(LatCode(p, odd, ground), LonCode(p, odd, ground), other.lat, other.lon, odd)
      else DecodeCPRGlobal(LatCode(p, odd, ground), LonCode(p, odd, ground), other.lat, other.lon, odd)
  }

  predicate Passes(from: Position, fix: Fix, now: real) {
    fix.Fix? && Allowed(from, Position(fix.lat, fix.lon, now))
  }

  function Outcome(from: Position, near: Fix, far: Fix, now: real): Position {
    if Passes(from, near, now) then Position(near.lat, near.lon, now)
    else if Passes(from, far, now) then Position(far.lat, far.lon, now)
    else from
  }

  lemma AttemptOutcome(ac: AircraftState, ground: bool, lat: real, lon: real, odd: bool, now: real, near: Fix, far: Fix)
    requires ac.posValid
    requires near == DecodeLocal(Span(ground), ac.latitude, ac.longitude, lat, lon, odd)
    requires far == if !(ac.hasEven && ac.hasOdd && Abs(ac.evenTime - ac.oddTime) < 10.0) then NoFix
                    else if ground then DecodeCPRSurfaceGlobal(ac.evenLat, ac.evenLon, ac.oddLat, ac.oddLon, odd)
                    else DecodeCPRGlobal(ac.evenLat, ac.evenLon, ac.oddLat, ac.oddLon, odd)
    ensures Here(ApplyFix(ac, Attempt(ac, ground, lat, lon, odd, now), now)) == Outcome(Here(ac), near, far, now)
  {
    hide DecodeLocal, DecodeCPRGlobal, DecodeCPRSurfaceGlobal, Hop, MaxJump, Allowed, Abs;
    if near.Fix? {
      GateInNumbers(Here(ac), Position(near.lat, near.lon, now));
    }
    if far.Fix? {
      GateInNumbers(Here(ac), Position(far.lat, far.lon, now));
    }
  }

  /** A report sent from a site: where the aircraft stands afterwards, and what is stored. */
  lemma ReportStep(ac: AircraftState, me: seq<byte>, p: Site, odd: bool, ground: bool, now: real)
    requires ac.posValid && Sent(me, p, odd, ground)
    ensures var next := Apply(ac, Report(ground, me, now));
            && next.posValid
            && Here(next) == Outcome(Here(ac), NearFix(Here(ac), p, odd, ground), FarFix(OtherReport(ac, odd), p, odd, ground, now), now)
            && next.altitude == (if ground then 0 else 25 * p.height - 1000)
            && OtherReport(next, !odd) == Stored(LatCode(p, odd, ground), LonCode(p, odd, ground), now)
            && OtherReport(next, odd) == OtherReport(ac, odd)
  {
    hide LatField, LonField, OddFlag, Altitude, ValidAltitude, LatCode, LonCode, NearFix, Sent, Valid, DecodeLocal;
    hide DecodeCPRGlobal, DecodeCPRSurfaceGlobal, Attempt, Outcome;
    SentFields(me, p, odd, ground);
    LocalIsNear(Here(ac), p, odd, ground);
    var ac' := if ground then ac.(onGround := true, altitude := 0, msgCount := ac.msgCount + 1)
               else ac.(altitude := Altitude(me), msgCount := ac.msgCount + 1);
    var stored := StoreReport(ac', LatField(me), LonField(me), odd, now);
    AttemptOutcome(stored, ground, LatField(me), LonField(me), odd, now,
                   NearFix(Here(ac), p, odd, ground), FarFix(OtherReport(ac, odd), p, odd, ground, now));
  }

  // ---------- fixes one zone low ----------

  lemma StayHop(q: Position)
    ensures Allowed(q, q)
  {
    DistSelf(q);
  }

  lemma FarRange(other: Stored, p: Site, odd: bool, ground: bool, now: real)
    ensures var far := FarFix(other, p, odd, ground, now); far.Fix? ==> -90.0 <= far.lat <= 90.0
  {
    hide LatCode, LonCode, GlobalLat, InZone, ZoneIndex, CprNL, LonZones, Abs;
  }

  /** Where the local decode of a report puts an aircraft: in each coordinate the nearest position less the
      shift of an unsafe reference, with the longitude zones of that latitude. */
  function LocalPoint(from: Position, p: Site, odd: bool, ground: bool, now: real): Position {
    var d := LatWidth(odd, ground);
    var lat := Nearest(from.lat, d, LatCode(p, odd, ground)) - Shift(from.lat, d);
    var e := LonWidth(lat, odd, ground);
    Position(lat, WrapLon(Nearest(from.lon, e, LonCode(p, odd, ground)) - Shift(from.lon, e)), now)
  }

  lemma LocalPointIs(from: Position, p: Site, odd: bool, ground: bool, now: real)
    ensures var q := LocalPoint(from, p, odd, ground, now);
            NearFix(from, p, odd, ground) == if -90.0 <= q.lat <= 90.0 then Fix(q.lat, q.lon) else NoFix
  {
    hide LatCode, LonCode, LatWidth, LonWidth, Nearest, Shift, WrapLon;
  }

  /** From any reference: the position becomes the local fix, shifted as it may be, if and only if that is on
      the globe and passes the gate. */
  lemma LocalTaken(ac: AircraftState, me: seq<byte>, p: Site, odd: bool, ground: bool, now: real)
    requires ac.posValid && -90.0 <= ac.latitude <= 90.0 && Sent(me, p, odd, ground)
    ensures var q := LocalPoint(Here(ac), p, odd, ground, now);
            Here(Apply(ac, Report(ground, me, now))) == q <==> -90.0 <= q.lat <= 90.0 && Allowed(Here(ac), q)
  {
    hide NearFix, Sent, Apply, FarFix, Allowed;
    ReportStep(ac, me, p, odd, ground, now);
    LocalPointIs(Here(ac), p, odd, ground, now);
    FarRange(OtherReport(ac, odd), p, odd, ground, now);
    StayHop(Here(ac));
    LocalPointTime(Here(ac), p, odd, ground, now);
    hide LocalPoint;
  }

  lemma LocalPointTime(from: Position, p: Site, odd: bool, ground: bool, now: real)
    ensures LocalPoint(from, p, odd, ground, now).time == now
  {
  }

  /** At most a quarter of a degree per elapsed second, and under sixty seconds. */
  predicate InReach(p: Position, q: Position) {
    var dt := q.time - p.time;
    0.0 < dt < 60.0 && 16.0 * Dist2(p, q) <= dt * dt
  }

  /** A jump of more than 0.83 degrees passes the gate if and only if it is in reach. */
  lemma FarJump(p: Position, q: Position)
    requires Dist2(p, q) > 0.83 * 0.83
    ensures Allowed(p, q) <==> InReach(p, q)
  {
    var dt := q.time - p.time;
    var d2 := Dist2(p, q);
    hide Dist2;
    assert (0.25 * dt) * (0.25 * dt) == dt * dt / 16.0;
    if 0.0 < dt < 0.04 {
      SquareMonotone(dt, 0.04);
    }
  }

  lemma SquareRoot(d: real, t: real)
    requires d > 0.0
    ensures 0.0 < t && 16.0 * (d * d) <= t * t <==> 4.0 * d <= t
  {
    assert 16.0 * (d * d) == (4.0 * d) * (4.0 * d);
    if 4.0 * d <= t {
      SquareMonotone(4.0 * d, t);
    } else if t > 0.0 {
      SquareStrict(4.0 * d, t);
    }
  }

  /** The gate lets a jump of d degrees through from 4 d seconds on, until its limit drops at sixty. */
  lemma JumpWindow(p: Position, q: Position, d: real)
    requires d > 0.83 && Dist2(p, q) == d * d
    ensures Allowed(p, q) <==> 4.0 * d <= q.time - p.time < 60.0
  {
    hide Dist2, Allowed;
    SquareStrict(d, 0.83);
    FarJump(p, q);
    SquareRoot(d, q.time - p.time);
  }

  lemma ZoneAtLeast(odd: bool, ground: bool, lat: real)
    ensures LatWidth(odd, ground) > 0.83 && LonWidth(lat, odd, ground) > 0.83
  {
    var z := LonZones(lat, odd);
    hide CprNL, LonZones;
    WidthAtLeast(ground, z);
    WidthAtLeast(ground, LatZones(odd));
  }

  lemma WidthAtLeast(ground: bool, z: nat)
    requires 0 < z <= 60
    ensures Width(Span(ground), z) >= 1.5
  {
    var d := Width(Span(ground), z);
    assert d * z as real == Span(ground);
    assert d < 1.5 ==> (1.5 - d) * z as real > 0.0;
  }

  lemma OwnZone(ref: real, d: real, fraction: real, k: int)
    requires d > 0.0 && ref == d * (k as real + fraction)
    ensures WithinHalfZone(ref, ref, d) && Nearest(ref, d, fraction) == ref
  {
    OnLattice(ref, d, fraction, k, ref);
  }

  lemma OwnLat(p: Site, odd: bool, ground: bool)
    ensures var lat, d := SentLat(p, odd, ground), LatWidth(odd, ground);
            WithinHalfZone(lat, lat, d) && Nearest(lat, d, LatCode(p, odd, ground)) == lat
  {
    hide *;
    var k := LatLattice(p, odd, ground);
    OwnZone(SentLat(p, odd, ground), LatWidth(odd, ground), LatCode(p, odd, ground), k);
  }

  lemma OwnLon(p: Site, odd: bool, ground: bool)
    ensures var lon, e := SentLon(p, odd, ground), LonWidth(SentLat(p, odd, ground), odd, ground);
            Nearest(lon, e, LonCode(p, odd, ground)) == lon
  {
    hide *;
    var m := LonLattice(p, odd, ground);
    OwnZone(SentLon(p, odd, ground), LonWidth(SentLat(p, odd, ground), odd, ground), LonCode(p, odd, ground), m);
  }

  lemma LowZone(ref: real, d: real)
    requires d > 0.0
    ensures Shift(ref, d) == 0.0 || (Shift(ref, d) == d && ref < 0.0)
    ensures Shift(ref, d) == 0.0 <==> SafeReference(ref, d)
  {
  }

  lemma StandsAt(ac: AircraftState)
    ensures Here(ac) == Position(ac.latitude, ac.longitude, ac.lastPosTime)
  {
  }

  lemma WrapsTo(lon: real)
    requires -180.0 <= lon <= 180.0
    ensures WrapLon(lon) == lon
  {
  }

  /** A point one zone away in one coordinate. */
  lemma ZoneJump(p: Position, q: Position, d: real)
    requires d > 0.83
    requires (q.lat == p.lat - d && q.lon == p.lon) || (q.lat == p.lat && q.lon == p.lon - d)
    ensures Allowed(p, q) <==> 4.0 * d <= q.time - p.time < 60.0
  {
    assert Dist2(p, q) == d * d;
    hide Allowed, Dist2;
    JumpWindow(p, q, d);
  }

  /** At an unsafe latitude the local fix is one zone below the reported latitude. */
  lemma LowPoint(from: Position, p: Site, odd: bool, ground: bool, now: real)
    requires WithinHalfZone(SentLat(p, odd, ground), from.lat, LatWidth(odd, ground))
    requires !SafeReference(from.lat, LatWidth(odd, ground))
    ensures var q := LocalPoint(from, p, odd, ground, now);
            q.lat == SentLat(p, odd, ground) - LatWidth(odd, ground) && q.time == now
  {
    hide SentLat, LatCode, LonCode, LatWidth, LonWidth, Nearest, Shift, WithinHalfZone, SafeReference, WrapLon;
    var d := LatWidth(odd, ground);
    LowZone(from.lat, d);
    var k := LatLattice(p, odd, ground);
    OnLattice(from.lat, d, LatCode(p, odd, ground), k, SentLat(p, odd, ground));
  }

  lemma FarSouth(p: Position, q: Position)
    requires p.lat - q.lat > 0.83
    ensures Dist2(p, q) > 0.83 * 0.83
  {
    SquareStrict(p.lat - q.lat, 0.83);
    Square(q.lon - p.lon);
    assert (q.lat - p.lat) * (q.lat - p.lat) == (p.lat - q.lat) * (p.lat - q.lat);
  }

  /** At an unsafe latitude, wherever the longitude: a report from nearby puts the aircraft one zone too far
      south if and only if that point is on the globe, at most a quarter of a degree per elapsed second away,
      and under sixty seconds have passed. In the air, where zones are six degrees wide, nearby is anywhere
      within half a zone; on the ground, up to two thirds of a degree further north. */
  lemma OneZoneLow(ac: AircraftState, me: seq<byte>, p: Site, odd: bool, ground: bool, now: real)
    requires ac.posValid && -90.0 <= ac.latitude <= 90.0 && Sent(me, p, odd, ground)
    requires !SafeReference(ac.latitude, LatWidth(odd, ground))
    requires WithinHalfZone(SentLat(p, odd, ground), ac.latitude, LatWidth(odd, ground))
    requires ground ==> SentLat(p, odd, ground) - ac.latitude < 0.67
    ensures var q := LocalPoint(Here(ac), p, odd, ground, now);
            && q.lat == SentLat(p, odd, ground) - LatWidth(odd, ground)
            && (Here(Apply(ac, Report(ground, me, now))) == q <==> q.lat >= -90.0 && InReach(Here(ac), q))
  {
    SentIsValid(me, p, odd, ground);
    SentLatRange(p, odd, ground);
    FarEnough(ac.latitude, SentLat(p, odd, ground), odd, ground);
    StandsAt(ac);
    hide *;
    LocalTaken(ac, me, p, odd, ground, now);
    LowPoint(Here(ac), p, odd, ground, now);
    FarSouth(Here(ac), LocalPoint(Here(ac), p, odd, ground, now));
    FarJump(Here(ac), LocalPoint(Here(ac), p, odd, ground, now));
  }

  lemma FarEnough(ref: real, lat: real, odd: bool, ground: bool)
    requires WithinHalfZone(lat, ref, LatWidth(odd, ground)) && (ground ==> lat - ref < 0.67)
    ensures ref - (lat - LatWidth(odd, ground)) > 0.83 && LatWidth(odd, ground) > 0.0
  {
    ZoneAtLeast(odd, ground, 0.0);
    WidthAtLeast(ground, LatZones(odd));
  }

  /** An aircraft that reports from exactly where it stands, with an unsafe latitude and a safe longitude, and
      as many longitude zones a zone further south: it is put there if and only if that is on the globe and
      between 4 d and sixty seconds have passed. In the air that is from 24 s on, on the ground from 6 s. */
  lemma OneZoneSouth(ac: AircraftState, me: seq<byte>, p: Site, odd: bool, ground: bool, now: real)
    requires ac.posValid && Sent(me, p, odd, ground) && -180.0 <= ac.longitude <= 180.0
    requires ac.latitude == SentLat(p, odd, ground) && ac.longitude == SentLon(p, odd, ground)
    requires var d := LatWidth(odd, ground);
             var lat := ac.latitude - d;
             && !SafeReference(ac.latitude, d) && SafeReference(ac.longitude, LonWidth(ac.latitude, odd, ground))
             && LonZones(lat, odd) == LonZones(ac.latitude, odd)
    ensures var d := LatWidth(odd, ground);
            Here(Apply(ac, Report(ground, me, now))) == Position(ac.latitude - d, ac.longitude, now) <==>
              ac.latitude - d >= -90.0 && 4.0 * d <= now - ac.lastPosTime < 60.0
  {
    SentIsValid(me, p, odd, ground);
    SentLatRange(p, odd, ground);
    var d, e := LatWidth(odd, ground), LonWidth(ac.latitude, odd, ground);
    ZoneAtLeast(odd, ground, ac.latitude);
    SameWidth(ac.latitude - d, ac.latitude, odd, ground);
    StandsAt(ac);
    WrapsTo(ac.longitude);
    hide *;
    LowZone(ac.latitude, d);
    LowZone(ac.longitude, e);
    OwnPoint(Here(ac), p, odd, ground, now);
    LocalTaken(ac, me, p, odd, ground, now);
    ZoneJump(Here(ac), Position(ac.latitude - d, ac.longitude, now), d);
  }

  /** Where the local decode puts a report from exactly the reference. */
  lemma OwnPoint(from: Position, p: Site, odd: bool, ground: bool, now: real)
    requires from.lat == SentLat(p, odd, ground) && from.lon == SentLon(p, odd, ground)
    requires var d := LatWidth(odd, ground);
             LonWidth(from.lat - Shift(from.lat, d), odd, ground) == LonWidth(from.lat, odd, ground)
    ensures var d, e := LatWidth(odd, ground), LonWidth(from.lat, odd, ground);
            LocalPoint(from, p, odd, ground, now)
              == Position(from.lat - Shift(from.lat, d), WrapLon(from.lon - Shift(from.lon, e)), now)
  {
    hide SentLat, SentLon, LatCode, LonCode, LatWidth, LonWidth, Nearest, Shift, WithinHalfZone, WrapLon;
    OwnLat(p, odd, ground);
    OwnLon(p, odd, ground);
  }

  lemma SameWidth(lat: real, other: real, odd: bool, ground: bool)
    requires LonZones(lat, odd) == LonZones(other, odd)
    ensures LonWidth(lat, odd, ground) == LonWidth(other, odd, ground)
  {
  }

  /** An aircraft that reports from exactly where it stands, with a safe latitude and an unsafe longitude: it
      is put one zone too far west if and only if between 4 e and sixty seconds have passed. */
  lemma OneZoneWest(ac: AircraftState, me: seq<byte>, p: Site, odd: bool, ground: bool, now: real)
    requires ac.posValid && Sent(me, p, odd, ground)
    requires ac.latitude == SentLat(p, odd, ground) && ac.longitude == SentLon(p, odd, ground)
    requires var e := LonWidth(ac.latitude, odd, ground);
             && SafeReference(ac.latitude, LatWidth(odd, ground)) && !SafeReference(ac.longitude, e)
             && -180.0 <= ac.longitude - e <= 180.0
    ensures var e := LonWidth(ac.latitude, odd, ground);
            Here(Apply(ac, Report(ground, me, now))) == Position(ac.latitude, ac.longitude - e, now) <==>
              4.0 * e <= now - ac.lastPosTime < 60.0
  {
    SentIsValid(me, p, odd, ground);
    SentLatRange(p, odd, ground);
    var d, e := LatWidth(odd, ground), LonWidth(ac.latitude, odd, ground);
    ZoneAtLeast(odd, ground, ac.latitude);
    StandsAt(ac);
    WrapsTo(ac.longitude - e);
    hide *;
    LowZone(ac.latitude, d);
    LowZone(ac.longitude, e);
    OwnPoint(Here(ac), p, odd, ground, now);
    LocalTaken(ac, me, p, odd, ground, now);
    ZoneJump(Here(ac), Position(ac.latitude, ac.longitude - e, now), e);
  }

  /** For instance an aircraft at 3 degrees south, 30 seconds after its last fix: its next report from the
      same place moves it to 9 degrees south. */
  lemma SouthExample(ac: AircraftState, me: seq<byte>)
    requires ac.posValid && Here(ac) == Position(-3.0, 0.0, 100.0) && Sends(me, Site(-3.0, 0.0, 100), false)
    ensures Here(AirbornePosition(ac, me, 130.0)) == Position(-9.0, 0.0, 130.0)
  {
    var p := Site(-3.0, 0.0, 100);
    SouthPlace(p);
    hide SentLat, SentLon, Sends, SafeReference, LatWidth, LonWidth, LonZones;
    OneZoneSouth(ac, me, p, false, false, 130.0);
  }

  lemma SouthPlace(p: Site)
    requires p == Site(-3.0, 0.0, 100)
    ensures SentLat(p, false, false) == -3.0 && SentLon(p, false, false) == 0.0
    ensures LatWidth(false, false) == 6.0 && !SafeReference(-3.0, 6.0)
    ensures LonZones(-9.0, false) == LonZones(-3.0, false) && SafeReference(0.0, LonWidth(-3.0, false, false))
  {
    TropicZones();
    hide CprNL, LonZones;
    assert Bin(-3.0, 60) == -65536;
    assert Bin(0.0, LonZones(-3.0, false)) == 0;
  }

  lemma TropicZones()
    ensures LonZones(-9.0, false) == LonZones(-3.0, false) == 59
  {
  }

  /** But an aircraft at 33 degrees south and 39.6 degrees east, 25 seconds after its last fix and with no other
      report stored, stays where it is: at 39 degrees south there are fewer longitude zones, and the point one
      zone low is at 43.04 degrees east, over 6.25 degrees away. */
  lemma StaysExample(ac: AircraftState, me: seq<byte>)
    requires ac.posValid && Here(ac) == Position(-33.0, 39.6, 100.0) && Sends(me, Site(-33.0, 39.6, 100), false)
    requires OtherReport(ac, false).Nothing?
    ensures Here(AirbornePosition(ac, me, 125.0)) == Here(ac)
  {
    var p := Site(-33.0, 39.6, 100);
    var from := Here(ac);
    StaysPoint(from, p);
    StandsAt(ac);
    ReportStep(ac, me, p, false, false, 125.0);
    hide NearFix, Sends, AirbornePosition, Allowed, Dist2, LocalPoint;
    LocalPointIs(from, p, false, false, 125.0);
    var q := LocalPoint(from, p, false, false, 125.0);
    LocalPointTime(from, p, false, false, 125.0);
    FarJump(from, q);
  }

  lemma StaysPoint(from: Position, p: Site)
    requires p == Site(-33.0, 39.6, 100) && from == Position(-33.0, 39.6, 100.0)
    ensures 16.0 * Dist2(from, LocalPoint(from, p, false, false, 125.0)) > 25.0 * 25.0
  {
    StaysLat(p);
    StaysLon(p);
    hide SentLat, LatCode, LonCode, LatWidth, LonWidth, LonZones, Nearest, SafeReference;
    assert LocalPoint(from, p, false, false, 125.0) == Position(-39.0, 360.0 / 46.0 * 5.5, 125.0);
  }

  lemma StaysLat(p: Site)
    requires p == Site(-33.0, 39.6, 100)
    ensures SentLat(p, false, false) == -33.0 && LatCode(p, false, false) == 0.5 && LatWidth(false, false) == 6.0
    ensures Nearest(-33.0, 6.0, 0.5) == -33.0 && !SafeReference(-33.0, 6.0)
  {
    assert Bin(-33.0, 60) == -720896;
  }

  lemma StaysLon(p: Site)
    requires p == Site(-33.0, 39.6, 100)
    ensures LonCode(p, false, false) == 0.5 && LonWidth(-39.0, false, false) == 360.0 / 46.0
    ensures Nearest(39.6, 360.0 / 46.0, 0.5) == 360.0 / 46.0 * 5.5 && SafeReference(39.6, 360.0 / 46.0)
  {
    StaysLat(p);
    StaysZones();
    hide CprNL, LonZones, SentLat;
    assert Encode(39.6, 50) == 65536;
    var e := 360.0 / 46.0;
    assert 39.6 / e == 5.06;
    assert NearestIndex(39.6, e, 0.5) == 5;
  }

  lemma StaysZones()
    ensures LonZones(-33.0, false) == 50 && LonZones(-39.0, false) == 46
  {
  }

  // ---------- following ----------

  /** What the next report has to meet, given the position and the stored report of the other format. */
  predicate Kept(from: Position, other: Stored, p: Site, odd: bool, ground: bool, now: real) {
    var f := FixOf(p, odd, ground, now);
    var far := FarFix(other, p, odd, ground, now);
    && Allowed(from, f)
    && (LocallyRight(from, p, odd, ground) ||
        (!Passes(from, NearFix(from, p, odd, ground), now) &&
         (far == Fix(f.lat, f.lon) || (!Passes(from, far, now) && from == f))))
  }

  /** The next report leads to the fix it stands for if and only if that fix passes the gate and either
      the local decode is right at this reference, or the gate stops it and the global decode is right. */
  lemma Followed(ac: AircraftState, me: seq<byte>, p: Site, odd: bool, ground: bool, now: real)
    requires ac.posValid && Sent(me, p, odd, ground)
    ensures Here(Apply(ac, Report(ground, me, now))) == FixOf(p, odd, ground, now) <==>
            Kept(Here(ac), OtherReport(ac, odd), p, odd, ground, now)
  {
    hide SentLat, SentLon, WrapLon, NearFix, FarFix, LocallyRight, Allowed, Sent, Valid, Apply, OtherReport;
    SentIsValid(me, p, odd, ground);
    StayHop(Here(ac));
    ReportStep(ac, me, p, odd, ground, now);
    LocalRight(Here(ac), p, odd, ground);
  }

  lemma SentIsValid(me: seq<byte>, p: Site, odd: bool, ground: bool)
    requires Sent(me, p, odd, ground)
    ensures Valid(p)
  {
  }

  /** From nearby, without a fresh report of the other format: if and only if the fix passes the gate and
      the reference is safe in both coordinates, or there is only one longitude zone. */
  lemma FollowedAlone(ac: AircraftState, me: seq<byte>, p: Site, odd: bool, ground: bool, now: real)
    requires ac.posValid && Sent(me, p, odd, ground) && Nearby(Here(ac), p, odd, ground) && now != ac.lastPosTime
    requires var other := OtherReport(ac, odd); other.Nothing? || Abs(other.time - now) >= 10.0
    ensures var lon, e := SentLon(p, odd, ground), LonWidth(SentLat(p, odd, ground), odd, ground);
            Here(Apply(ac, Report(ground, me, now))) == FixOf(p, odd, ground, now) <==>
              && Allowed(Here(ac), FixOf(p, odd, ground, now))
              && SafeReference(ac.latitude, LatWidth(odd, ground))
              && (SafeReference(ac.longitude, e) || (e == 360.0 && -180.0 <= lon <= 540.0 && lon != 180.0))
  {
    hide SentLat, SentLon, WrapLon, NearFix, LocallyRight, Allowed, Sent, Valid, Apply, OtherReport;
    hide LatWidth, LonWidth, SafeReference, Nearby, Abs;
    SentIsValid(me, p, odd, ground);
    Followed(ac, me, p, odd, ground, now);
    NearbyRight(Here(ac), p, odd, ground);
  }

  /** However long an aircraft has not been located: after a minute or more, a report within 0.83 degrees of the
      last fix is followed where the local decode is right. */
  lemma FollowedAfterSilence(ac: AircraftState, me: seq<byte>, p: Site, odd: bool, ground: bool, now: real)
    requires ac.posValid && Sent(me, p, odd, ground) && now - ac.lastPosTime >= 60.0
    requires LocallyRight(Here(ac), p, odd, ground) && Dist2(Here(ac), FixOf(p, odd, ground, now)) <= 0.83 * 0.83
    ensures Here(Apply(ac, Report(ground, me, now))) == FixOf(p, odd, ground, now)
  {
    assert Allowed(Here(ac), FixOf(p, odd, ground, now)) by { StandsAt(ac); }
    hide LocallyRight, NearFix, FarFix, Passes, Apply, Sent, FixOf, Allowed;
    Followed(ac, me, p, odd, ground, now);
  }

  /** The gate does not wrap longitudes: a report that stands for a position 15 degrees or more away as a plain
      number is never followed, so an aircraft is lost when it crosses the 180 degree meridian. */
  lemma LostAcrossMeridian(ac: AircraftState, me: seq<byte>, p: Site, odd: bool, ground: bool, now: real)
    requires ac.posValid && Sent(me, p, odd, ground) && Abs(FixOf(p, odd, ground, now).lon - ac.longitude) >= 15.0
    ensures Here(Apply(ac, Report(ground, me, now))) != FixOf(p, odd, ground, now)
  {
    hide LocallyRight, NearFix, FarFix, Passes, Apply, Sent, FixOf, Allowed;
    Followed(ac, me, p, odd, ground, now);
    if Allowed(Here(ac), FixOf(p, odd, ground, now)) {
      GateInNumbers(Here(ac), FixOf(p, odd, ground, now));
      HopBelow(Here(ac), FixOf(p, odd, ground, now));
    }
  }

  lemma SameTurn(a: real, b: real)
    requires -180.0 <= a < 180.0 && -180.0 <= b < 180.0 && SameModTurns(a, b)
    ensures a == b
  {
    var k :| a + Turns(k) == b;
    assert k == 0;
  }

  lemma Wrapped(l: real, raw: real)
    requires -180.0 <= l < 180.0 && SameModTurns(l, raw) && -540.0 <= raw <= 540.0 && WrapLon(raw) != 180.0
    ensures l == WrapLon(raw)
  {
    var k :| l + Turns(k) == raw;
    var j := WrappedBy(raw);
    assert l + Turns(k - j) == WrapLon(raw);
    SameTurn(l, WrapLon(raw));
  }

  /** In the air, a fresh report of the other format from a site that pairs with this one makes the global
      decode right, whatever the reference. */
  lemma PairRight(q: Site, p: Site, odd: bool, t: real, now: real)
    requires Valid(p) && Valid(q) && Pair(if odd then q else p, if odd then p else q) && Abs(t - now) < 10.0
    requires -540.0 <= SentLon(p, odd, false) <= 540.0 && WrapLon(SentLon(p, odd, false)) != 180.0
    ensures var f := FixOf(p, odd, false, now);
            FarFix(Stored(LatCode(q, !odd, false), LonCode(q, !odd, false), t), p, odd, false, now) == Fix(f.lat, f.lon)
  {
    var even, later := if odd then q else p, if odd then p else q;
    GlobalDecode(even.lat, even.lon, later.lat, later.lon, odd);
    hide Reported, Fraction, CprNL, LonZones, NearModTurns, SameModTurns, HalfBinWidth, DecodeCPRGlobal, WrapLon, Abs;
    var fix := FarFix(Stored(LatCode(q, !odd, false), LonCode(q, !odd, false), t), p, odd, false, now);
    assert Recovers(fix, p.lat, p.lon, odd);
    Wrapped(fix.lon, SentLon(p, odd, false));
  }

  lemma WrapShows(raw: real)
    requires -180.0 <= WrapLon(raw) < 180.0
    ensures SameModTurns(WrapLon(raw), raw)
  {
    var k := WrappedBy(raw);
  }

  lemma GlobalLonRange(evenLat: real, evenLon: real, oddLat: real, oddLon: real, odd: bool)
    requires 0.0 <= evenLon < 1.0 && 0.0 <= oddLon < 1.0
    ensures var fix := DecodeCPRGlobal(evenLat, evenLon, oddLat, oddLon, odd);
            fix.Fix? ==> -180.0 <= fix.lon < 180.0
  {
    hide CprNL, GlobalLat, InZone, LonZones, ZoneIndex;
    var fix := DecodeCPRGlobal(evenLat, evenLon, oddLat, oddLon, odd);
    if fix.Fix? {
      LonBelow180(ZoneIndex(evenLon, oddLon, CprNL(fix.lat) - 1), LonZones(fix.lat, odd), if odd then oddLon else evenLon);
    }
  }

  /** In the air, exactly when the global decode of a report with a stored one from any site is right: the
      stored one is under ten seconds away, the two sites decode right together, and the longitude is not the
      180 degree meridian itself or more than a turn off. */
  lemma FarRight(q: Site, p: Site, odd: bool, t: real, now: real)
    requires Valid(p) && Valid(q)
    ensures var f := FixOf(p, odd, false, now);
            var (even, later) := if odd then (q, p) else (p, q);
            FarFix(Stored(LatCode(q, !odd, false), LonCode(q, !odd, false), t), p, odd, false, now) == Fix(f.lat, f.lon)
            <==> Abs(t - now) < 10.0 && DecodesRight(even.lat, even.lon, later.lat, later.lon, odd) && -180.0 <= f.lon < 180.0
  {
    var even, later := if odd then q else p, if odd then p else q;
    var z0, z1 := LonZones(SentLat(q, !odd, false), !odd), LonZones(SentLat(p, odd, false), odd);
    FractionRange(q.lon, z0);
    FractionRange(p.lon, z1);
    if -180.0 <= WrapLon(SentLon(p, odd, false)) < 180.0 {
      WrapShows(SentLon(p, odd, false));
      GlobalRightIff(even.lat, even.lon, later.lat, later.lon, odd, WrapLon(SentLon(p, odd, false)));
    }
    hide Reported, Fraction, CprNL, LonZones, DecodeCPRGlobal, WrapLon, Abs, DecodesRight, SameModTurns;
    GlobalLonRange(LatCode(even, false, false), LonCode(even, false, false), LatCode(later, true, false), LonCode(later, true, false), odd);
  }

  // ---------- whole flights ----------

  datatype Leg = Leg(p: Site, odd: bool, ground: bool, me: seq<byte>, now: real)

  function Reports(legs: seq<Leg>): (reports: seq<Report>)
    ensures |reports| == |legs|
  {
    if legs == [] then []
    else var last := legs[|legs| - 1]; Reports(legs[..|legs| - 1]) + [Report(last.ground, last.me, last.now)]
  }

  predicate AllSent(legs: seq<Leg>) {
    legs == [] || (AllSent(legs[..|legs| - 1]) && var last := legs[|legs| - 1]; Sent(last.me, last.p, last.odd, last.ground))
  }

  function FixAfter(from: Position, legs: seq<Leg>): Position {
    if legs == [] then from
    else var last := legs[|legs| - 1]; FixOf(last.p, last.odd, last.ground, last.now)
  }

  /** The last report of the other format, by what was sent. */
  function OtherAfter(ac: AircraftState, legs: seq<Leg>, odd: bool): Stored {
    if legs == [] then OtherReport(ac, odd)
    else
      var last := legs[|legs| - 1];
      if last.odd == odd then OtherAfter(ac, legs[..|legs| - 1], odd)
      else Stored(LatCode(last.p, last.odd, last.ground), LonCode(last.p, last.odd, last.ground), last.now)
  }

  /** After every report the aircraft stands at the fix it stands for. */
  predicate AtEveryFix(ac: AircraftState, legs: seq<Leg>) {
    legs == [] || (AtEveryFix(ac, legs[..|legs| - 1]) && Here(Run(ac, Reports(legs))) == FixAfter(Here(ac), legs))
  }

  /** Every report meets its condition, in terms of the sites alone. */
  predicate KeptThroughout(ac: AircraftState, legs: seq<Leg>) {
    legs == [] ||
    var front, last := legs[..|legs| - 1], legs[|legs| - 1];
    && KeptThroughout(ac, front)
    && Kept(FixAfter(Here(ac), front), OtherAfter(ac, front, last.odd), last.p, last.odd, last.ground, last.now)
  }

  lemma {:induction false} RunStored(ac: AircraftState, legs: seq<Leg>, odd: bool)
    requires ac.posValid && AllSent(legs)
    ensures Run(ac, Reports(legs)).posValid && OtherReport(Run(ac, Reports(legs)), odd) == OtherAfter(ac, legs, odd)
  {
    if legs != [] {
      hide OtherReport, Apply, Sent, LatCode, LonCode, Outcome;
      var front, last := legs[..|legs| - 1], legs[|legs| - 1];
      RunStored(ac, front, odd);
      assert Reports(legs)[..|legs| - 1] == Reports(front);
      ReportStep(Run(ac, Reports(front)), last.me, last.p, last.odd, last.ground, last.now);
    }
  }

  lemma FlightStep(ac: AircraftState, front: seq<Leg>, last: Leg)
    requires ac.posValid && AllSent(front) && Sent(last.me, last.p, last.odd, last.ground) && AtEveryFix(ac, front)
    ensures Here(Run(ac, Reports(front + [last]))) == FixOf(last.p, last.odd, last.ground, last.now) <==>
            Kept(FixAfter(Here(ac), front), OtherAfter(ac, front, last.odd), last.p, last.odd, last.ground, last.now)
  {
    StartsThere(ac, front);
    ReportsOneMore(front, last);
    RunOneMore(ac, Reports(front), Report(last.ground, last.me, last.now));
    hide *;
    RunStored(ac, front, last.odd);
    Followed(Run(ac, Reports(front)), last.me, last.p, last.odd, last.ground, last.now);
  }

  lemma ReportsOneMore(front: seq<Leg>, last: Leg)
    ensures Reports(front + [last]) == Reports(front) + [Report(last.ground, last.me, last.now)]
  {
    assert (front + [last])[..|front|] == front;
  }

  lemma RunOneMore(ac: AircraftState, reports: seq<Report>, r: Report)
    ensures Run(ac, reports + [r]) == Apply(Run(ac, reports), r)
  {
    hide Apply;
    assert (reports + [r])[..|reports|] == reports;
  }

  /** A flight of any reports from any sites, in the air and on the ground: the aircraft stands at the right
      fix after every one of them if and only if each met its condition. */
  lemma {:induction false} FlightFollowed(ac: AircraftState, legs: seq<Leg>)
    requires ac.posValid && AllSent(legs)
    ensures AtEveryFix(ac, legs) <==> KeptThroughout(ac, legs)
  {
    if legs != [] {
      var front, last := legs[..|legs| - 1], legs[|legs| - 1];
      assert legs == front + [last];
      OneMore(ac, front, last);
      hide *;
      FlightFollowed(ac, front);
      if AtEveryFix(ac, front) {
        FlightStep(ac, front, last);
      }
    }
  }

  lemma OneMore(ac: AircraftState, front: seq<Leg>, last: Leg)
    ensures AllSent(front + [last]) <==> AllSent(front) && Sent(last.me, last.p, last.odd, last.ground)
    ensures AtEveryFix(ac, front + [last]) <==>
              AtEveryFix(ac, front) && Here(Run(ac, Reports(front + [last]))) == FixOf(last.p, last.odd, last.ground, last.now)
    ensures KeptThroughout(ac, front + [last]) <==>
              && KeptThroughout(ac, front)
              && Kept(FixAfter(Here(ac), front), OtherAfter(ac, front, last.odd), last.p, last.odd, last.ground, last.now)
  {
    hide OtherAfter, Kept, Run, Sent, FixOf, Reports, Here;
    assert (front + [last])[..|front|] == front;
  }

  lemma StartsThere(ac: AircraftState, legs: seq<Leg>)
    requires AtEveryFix(ac, legs)
    ensures Here(Run(ac, Reports(legs))) == FixAfter(Here(ac), legs)
  {
  }
}
