/** The tracked state of one aircraft: how airborne and surface position messages change it, and what
    that implies for a whole run of messages. */
module AircraftTracking {
  import opened BitStrings
  import opened Cpr
  import opened Geometry

  datatype AircraftState = AircraftState(
    icao: nat,
    latitude: real, longitude: real, altitude: int, onGround: bool,
    lastSeen: real, lastPosTime: real, posValid: bool,
    hasOdd: bool, hasEven: bool,
    oddLat: real, oddLon: real, evenLat: real, evenLon: real, oddTime: real, evenTime: real,
    msgCount: nat, posCount: nat)

  /** A newly seen aircraft. Time is in seconds; zero stands for a time never set. */
  function NewAircraft(icao: nat): AircraftState {
    AircraftState(icao, 0.0, 0.0, 0, false, 0.0, 0.0, false, false, false, 0.0, 0.0, 0.0, 0.0, 0.0, 0.0, 0, 0)
  }

  // ---------- fields of a position message ----------

  function LatField(me: seq<byte>): real
    requires |me| >= 7
  {
    (me[2] as int % 4 * 32768 + me[3] as int * 128 + me[4] as int / 2) as real / 131072.0
  }

  function LonField(me: seq<byte>): real
    requires |me| >= 7
  {
    (me[4] as int % 2 * 65536 + me[5] as int * 256 + me[6] as int) as real / 131072.0
  }

  predicate OddFlag(me: seq<byte>)
    requires |me| >= 7
  {
    me[2] / 4 % 2 == 1
  }

  /** The 12-bit altitude field in feet: 25 ft steps with the Q bit, 100 ft steps without. */
  function Altitude(me: seq<byte>): int
    requires |me| >= 7
  {
    var code: int := me[1] as int * 16 + me[2] as int / 16;
    if code == 0 then 0
    else if code / 16 % 2 == 1 then (code / 32 % 128 * 16 + code % 16) * 25 - 1000
    else code % 2048 * 100
  }

  predicate ValidAltitude(altitude: int) {
    -2000 < altitude < 60000
  }

  // ---------- the position gate ----------

  /** The largest jump in degrees that the gate lets through, by elapsed seconds. */
  function MaxJump(dt: real): real {
    var t := if dt <= 0.0 then 1.0 else dt;
    if t < 60.0 then (if 0.25 * t < 0.01 then 0.01 else 0.25 * t) else 0.83
  }

  function Here(ac: AircraftState): Position {
    Position(ac.latitude, ac.longitude, ac.lastPosTime)
  }

  predicate ValidatePosition(ac: AircraftState, fix: Fix, now: real)
    requires fix.Fix?
  {
    !ac.posValid || Hop(MaxJump, Here(ac), Position(fix.lat, fix.lon, now))
  }

  function StoreReport(ac: AircraftState, lat: real, lon: real, isOdd: bool, now: real): AircraftState {
    if isOdd then ac.(oddLat := lat, oddLon := lon, hasOdd := true, oddTime := now)
    else ac.(evenLat := lat, evenLon := lon, hasEven := true, evenTime := now)
  }

  /** The fix a stored report leads to: local decode once there is a position, global decode when
      that fails or there is none, both behind the gate. */
  function Attempt(ac: AircraftState, ground: bool, lat: real, lon: real, isOdd: bool, now: real): Fix {
    var near :=
      if !ac.posValid then NoFix
      else if ground then DecodeCPRSurfaceLocal(ac.latitude, ac.longitude, lat, lon, isOdd)
      else DecodeCPRLocal(ac.latitude, ac.longitude, lat, lon, isOdd);
    if near.Fix? && ValidatePosition(ac, near, now) then near
    else if ac.hasEven && ac.hasOdd && Abs(ac.evenTime - ac.oddTime) < 10.0 then
      var far :=
        if ground then DecodeCPRSurfaceGlobal(ac.evenLat, ac.evenLon, ac.oddLat, ac.oddLon, isOdd)
        else DecodeCPRGlobal(ac.evenLat, ac.evenLon, ac.oddLat, ac.oddLon, isOdd);
      if far.Fix? && ValidatePosition(ac, far, now) then far else NoFix
    else NoFix
  }

  function ApplyFix(ac: AircraftState, fix: Fix, now: real): AircraftState {
    match fix
    case NoFix => ac
    case Fix(lat, lon) =>
      ac.(latitude := lat, longitude := lon, posValid := true, lastPosTime := now, posCount := ac.posCount + 1)
  }

  function Locate(ac: AircraftState, ground: bool, me: seq<byte>, now: real): AircraftState
    requires |me| >= 7
  {
    var stored := StoreReport(ac, LatField(me), LonField(me), OddFlag(me), now);
    ApplyFix(stored, Attempt(stored, ground, LatField(me), LonField(me), OddFlag(me), now), now)
  }

  function AirbornePosition(ac: AircraftState, me: seq<byte>, now: real): AircraftState {
    if |me| < 7 || !ValidAltitude(Altitude(me)) then ac
    else Locate(ac.(altitude := Altitude(me), msgCount := ac.msgCount + 1), false, me, now)
  }

  function SurfacePosition(ac: AircraftState, me: seq<byte>, now: real): AircraftState {
    if |me| < 7 then ac
    else Locate(ac.(onGround := true, altitude := 0, msgCount := ac.msgCount + 1), true, me, now)
  }

  // ---------- the gate in numbers ----------

  /** How far the gate lets a position jump in dt seconds: 0.83 degrees from a minute on, a quarter of a degree
      per second below that but at least 0.01, and a quarter of a degree if no time has passed or the clock
      went back. */
  predicate InGate(d2: real, dt: real) {
    if dt >= 60.0 then d2 <= 0.83 * 0.83
    else if dt >= 0.04 then 16.0 * d2 <= dt * dt
    else if dt > 0.0 then d2 <= 0.01 * 0.01
    else d2 <= 0.25 * 0.25
  }

  lemma QuarterSquare(dt: real)
    ensures (0.25 * dt) * (0.25 * dt) == dt * dt / 16.0
  {
  }

  predicate Allowed(p: Position, q: Position) {
    InGate(Dist2(p, q), q.time - p.time)
  }

  lemma GateInNumbers(p: Position, q: Position)
    ensures Hop(MaxJump, p, q) <==> Allowed(p, q)
  {
    hide Dist2;
    QuarterSquare(q.time - p.time);
  }

  // ---------- whole runs ----------

  datatype Report = Report(ground: bool, me: seq<byte>, now: real)

  function Apply(ac: AircraftState, report: Report): AircraftState {
    if report.ground then SurfacePosition(ac, report.me, report.now) else AirbornePosition(ac, report.me, report.now)
  }

  function Run(ac: AircraftState, reports: seq<Report>): AircraftState {
    if reports == [] then ac else Apply(Run(ac, reports[..|reports| - 1]), reports[|reports| - 1])
  }

  /** The accepted fixes of a run, in order. */
  function Fixes(ac: AircraftState, reports: seq<Report>): seq<Position> {
    if reports == [] then []
    else
      var front := reports[..|reports| - 1];
      var before, after := Run(ac, front), Run(ac, reports);
      Fixes(ac, front) + if after.posCount == before.posCount then [] else [Here(after)]
  }

  lemma FixLatitude(ac: AircraftState, ground: bool, lat: real, lon: real, isOdd: bool, now: real)
    ensures var fix := Attempt(ac, ground, lat, lon, isOdd, now);
            fix.Fix? ==> -90.0 <= fix.lat <= 90.0 && ValidatePosition(ac, fix, now)
  {
    hide CprNL, LonZones, LocalCoordinate, GlobalLat, InZone, ZoneIndex, WrapLon, Width, Abs, ValidatePosition;
  }

  /** One report: either the position is untouched, or it becomes a fix between the poles that passed
      the gate, stamped with the time of the report. */
  lemma ApplyStep(ac: AircraftState, report: Report)
    ensures var next := Apply(ac, report);
            if next.posCount == ac.posCount then Here(next) == Here(ac) && next.posValid == ac.posValid
            else
              && next.posCount == ac.posCount + 1 && next.posValid
              && -90.0 <= next.latitude <= 90.0 && next.lastPosTime == report.now
              && (ac.posValid ==> Hop(MaxJump, Here(ac), Here(next)) && Allowed(Here(ac), Here(next)))
  {
    hide LatField, LonField, OddFlag, Altitude, Hop, MaxJump, Attempt, Allowed;
    GateInNumbers(Here(ac), Here(Apply(ac, report)));
    if |report.me| >= 7 {
      var ac' := if report.ground then ac.(onGround := true, altitude := 0, msgCount := ac.msgCount + 1)
                 else ac.(altitude := Altitude(report.me), msgCount := ac.msgCount + 1);
      var stored := StoreReport(ac', LatField(report.me), LonField(report.me), OddFlag(report.me), report.now);
      FixLatitude(stored, report.ground, LatField(report.me), LonField(report.me), OddFlag(report.me), report.now);
    }
  }

  /** Run safety: the accepted fixes of any run lie between the poles and each is within the gate's
      limit of the one before; the aircraft stands where the last one put it. */
  lemma {:induction false} RunSafety(icao: nat, reports: seq<Report>)
    ensures var ac := NewAircraft(icao);
            var fixes := Fixes(ac, reports);
            && Track(MaxJump, fixes)
            && (forall i | 0 <= i < |fixes| :: -90.0 <= fixes[i].lat <= 90.0)
            && Run(ac, reports).posCount == |fixes|
            && (Run(ac, reports).posValid <==> fixes != [])
            && (fixes != [] ==> Here(Run(ac, reports)) == fixes[|fixes| - 1])
  {
    if reports != [] {
      var ac := NewAircraft(icao);
      var front := reports[..|reports| - 1];
      RunSafety(icao, front);
      hide NewAircraft, Apply, Hop;
      ApplyStep(Run(ac, front), reports[|reports| - 1]);
      var fixes := Fixes(ac, front);
      var next := Here(Run(ac, reports));
      if Run(ac, reports).posCount != Run(ac, front).posCount {
        TrackExtend(MaxJump, fixes, next);
      }
      assert Fixes(ac, reports) == fixes || Fixes(ac, reports) == fixes + [next];
    }
  }

  /** Between consecutive fixes of any run, the gate in numbers. */
  lemma RunGate(icao: nat, reports: seq<Report>, i: nat)
    requires 0 < i < |Fixes(NewAircraft(icao), reports)|
    ensures Allowed(Fixes(NewAircraft(icao), reports)[i - 1], Fixes(NewAircraft(icao), reports)[i])
  {
    var fixes := Fixes(NewAircraft(icao), reports);
    RunSafety(icao, reports);
    hide Fixes, Hop, Allowed;
    SubTrack(MaxJump, fixes, 0, i + 1);
    assert fixes[0..i + 1][i - 1] == fixes[i - 1] && fixes[0..i + 1][i] == fixes[i];
    GateInNumbers(fixes[i - 1], fixes[i]);
  }

  /** Over any run, any two fixes are at most as far apart as the gate's limits in between add up to. */
  lemma RunLength(icao: nat, reports: seq<Report>, i: nat, j: nat)
    requires i <= j < |Fixes(NewAircraft(icao), reports)|
    ensures var fixes := Fixes(NewAircraft(icao), reports);
            var limit := Allowance(MaxJump, fixes[i..j + 1]);
            limit >= 0.0 && Dist2(fixes[i], fixes[j]) <= limit * limit
  {
    var fixes := Fixes(NewAircraft(icao), reports);
    RunSafety(icao, reports);
    hide Fixes, Dist2;
    SubTrack(MaxJump, fixes, i, j + 1);
    TrackLength(MaxJump, fixes[i..j + 1]);
  }

  /** Gaps between consecutive fixes in the range where the gate is proportional to time. */
  ghost predicate RegularGaps(track: seq<Position>) {
    forall i | 0 < i < |track| :: 0.04 <= track[i].time - track[i - 1].time < 60.0
  }

  lemma {:induction false} RegularAllowance(track: seq<Position>)
    requires |track| > 0 && RegularGaps(track)
    ensures Allowance(MaxJump, track) == 0.25 * (track[|track| - 1].time - track[0].time)
  {
    if |track| > 1 {
      RegularAllowance(track[..|track| - 1]);
    }
  }

  /** Over any run, two fixes with only regular gaps between them are at most a quarter of a degree
      per elapsed second apart. */
  lemma SpeedBound(icao: nat, reports: seq<Report>, i: nat, j: nat)
    requires var fixes := Fixes(NewAircraft(icao), reports);
             i <= j < |fixes| && RegularGaps(fixes[i..j + 1])
    ensures var fixes := Fixes(NewAircraft(icao), reports);
            var limit := 0.25 * (fixes[j].time - fixes[i].time);
            limit >= 0.0 && Dist2(fixes[i], fixes[j]) <= limit * limit
  {
    hide Fixes, Dist2;
    var fixes := Fixes(NewAircraft(icao), reports);
    RunLength(icao, reports, i, j);
    RegularAllowance(fixes[i..j + 1]);
  }

  // ---------- longitudes ----------

  /** The gate compares longitudes as plain numbers. */
  lemma HopBelow(p: Position, q: Position)
    requires Hop(MaxJump, p, q)
    ensures -15.0 < q.lon - p.lon < 15.0 && -15.0 < q.lat - p.lat < 15.0
  {
    var allowed, x, y := MaxJump(q.time - p.time), q.lat - p.lat, q.lon - p.lon;
    assert allowed < 15.0;
    Square(x);
    Square(y);
    Root(x, allowed);
    Root(y, allowed);
  }

  lemma Root(x: real, r: real)
    requires r >= 0.0 && x * x <= r * r
    ensures -r <= x <= r
  {
    assert (-x) * (-x) == x * x;
    SquareCancel(x, r);
    SquareCancel(-x, r);
  }

  /** Over any run, consecutive fixes are under 15 degrees apart in both coordinates as plain numbers; so the
      longitude changes its sign only within 15 degrees of Greenwich, never at the 180 degree meridian. */
  lemma MeridianNotCrossed(icao: nat, reports: seq<Report>, i: nat)
    requires 0 < i < |Fixes(NewAircraft(icao), reports)|
    ensures var p, q := Fixes(NewAircraft(icao), reports)[i - 1], Fixes(NewAircraft(icao), reports)[i];
            && -15.0 < q.lat - p.lat < 15.0 && -15.0 < q.lon - p.lon < 15.0
            && ((p.lon < 0.0 <= q.lon || q.lon < 0.0 <= p.lon) ==> -15.0 < p.lon < 15.0 && -15.0 < q.lon < 15.0)
  {
    var fixes := Fixes(NewAircraft(icao), reports);
    RunSafety(icao, reports);
    hide Fixes, Hop;
    SubTrack(MaxJump, fixes, 0, i + 1);
    assert fixes[0..i + 1][i - 1] == fixes[i - 1] && fixes[0..i + 1][i] == fixes[i];
    HopBelow(fixes[i - 1], fixes[i]);
  }
}
