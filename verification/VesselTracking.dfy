/** The tracked state of one vessel: what each AIS message type changes in it, the speed and jump
    checks on positions, and what they imply for a whole run of messages. */
module VesselTracking {
  import opened BitStrings
  import opened AisBits
  import opened Geometry
  import opened Options

  datatype VesselState = VesselState(
    mmsi: nat, name: string, callsign: string, imo: nat, shipType: nat,
    latitude: real, longitude: real, speed: real, course: real, heading: real, rot: real, status: nat,
    lastSeen: real, lastPosTime: real, posValid: bool,
    draught: real, destination: string, dimA: nat, dimB: nat, dimC: nat, dimD: nat, msgCount: nat)

  /** A newly seen vessel. Time is in seconds; zero stands for a time never set. */
  function NewVessel(mmsi: nat): VesselState {
    VesselState(mmsi, "", "", 0, 0, 0.0, 0.0, 0.0, 0.0, 0.0, 0.0, 0, 0.0, 0.0, false, 0.0, "", 0, 0, 0, 0, 0)
  }

  // ---------- the checks on a position ----------

  /** Speed in tenths of a knot, position in 1/600000 degree, course in tenths of a degree. */
  datatype Motion = Motion(sog: nat, lonRaw: int, latRaw: int, cog: nat, heading: nat)

  function Degrees(raw: int): real {
    raw as real / 600000.0
  }

  function Knots(sog: nat): real {
    if sog == 1023 then -1.0 else sog as real / 10.0
  }

  predicate Available(latRaw: int, lonRaw: int) {
    && -90.0 <= Degrees(latRaw) <= 90.0 && -180.0 <= Degrees(lonRaw) <= 180.0
    && latRaw != 0x3412140 && lonRaw != 0x6791AC0
  }

  /** At most 102 knots, and at most 50 for cargo ships and tankers. */
  predicate SpeedPlausible(knots: real, shipType: nat) {
    knots < 0.0 || (knots <= 102.0 && (60 <= shipType <= 89 ==> knots <= 50.0))
  }

  const GATE_SECONDS := 300.0
  const GATE_DEGREES := 0.33

  predicate JumpAllowed(v: VesselState, lat: real, lon: real, now: real) {
    v.posValid && v.lastPosTime != 0.0 && now - v.lastPosTime < GATE_SECONDS
    ==> Dist2(Here(v), Position(lat, lon, now)) <= GATE_DEGREES * GATE_DEGREES
  }

  function Here(v: VesselState): Position {
    Position(v.latitude, v.longitude, v.lastPosTime)
  }

  predicate Accepts(v: VesselState, m: Motion, now: real) {
    && Available(m.latRaw, m.lonRaw) && SpeedPlausible(Knots(m.sog), v.shipType)
    && JumpAllowed(v, Degrees(m.latRaw), Degrees(m.lonRaw), now)
  }

  function ApplyPosition(v: VesselState, m: Motion, now: real): VesselState {
    if Accepts(v, m, now)
    then v.(latitude := Degrees(m.latRaw), longitude := Degrees(m.lonRaw), posValid := true, lastPosTime := now)
    else v
  }

  function ApplySpeed(v: VesselState, m: Motion): VesselState {
    var knots := Knots(m.sog);
    if Available(m.latRaw, m.lonRaw) && SpeedPlausible(knots, v.shipType) && knots >= 0.0 then v.(speed := knots) else v
  }

  function ApplyCourse(v: VesselState, cog: nat): VesselState {
    if cog != 3600 then v.(course := cog as real / 10.0) else v
  }

  function ApplyHeading(v: VesselState, heading: nat): VesselState {
    if heading != 511 then v.(heading := heading as real) else v
  }

  function ApplyMotion(v: VesselState, m: Motion, now: real): VesselState {
    ApplyHeading(ApplyCourse(ApplySpeed(ApplyPosition(v, m, now), m), m.cog), m.heading)
  }

  function ApplyRot(v: VesselState, rot: int): VesselState {
    if rot != -128 then v.(rot := rot as real) else v
  }

  // ---------- messages ----------

  function Seen(v: VesselState, now: real): VesselState {
    v.(lastSeen := now, msgCount := v.msgCount + 1)
  }

  function Text(bits: seq<bool>, start: nat, count: nat): string {
    TrimPadding(Letters(bits, start, count))
  }

  function MotionA(bits: seq<bool>): Motion
    requires |bits| >= 168
  {
    Motion(Field(bits, 50, 10), SignedField(bits, 61, 28), SignedField(bits, 89, 27), Field(bits, 116, 12), Field(bits, 128, 9))
  }

  function MotionB(bits: seq<bool>): Motion
    requires |bits| >= 168
  {
    Motion(Field(bits, 46, 10), SignedField(bits, 57, 28), SignedField(bits, 85, 27), Field(bits, 112, 12), Field(bits, 124, 9))
  }

  /** Types 1, 2 and 3. */
  function PositionClassA(v: VesselState, bits: seq<bool>, now: real): VesselState
    requires |bits| >= 168
  {
    ApplyRot(ApplyMotion(Seen(v, now).(status := Field(bits, 38, 4)), MotionA(bits), now), SignedField(bits, 42, 8))
  }

  /** The static and voyage data of a ship; the draught is in tenths of a metre. */
  datatype Voyage = Voyage(
    imo: nat, callsign: string, name: string, shipType: nat,
    dimA: nat, dimB: nat, dimC: nat, dimD: nat, draught: nat, destination: string)

  function VoyageOf(bits: seq<bool>): Voyage
    requires |bits| >= 424
  {
    Voyage(Field(bits, 40, 30), Text(bits, 70, 7), Text(bits, 112, 20), Field(bits, 232, 8),
           Field(bits, 240, 9), Field(bits, 249, 9), Field(bits, 258, 6), Field(bits, 264, 6),
           Field(bits, 294, 8), Text(bits, 302, 20))
  }

  function ApplyVoyage(v: VesselState, d: Voyage): VesselState {
    v.(imo := d.imo, callsign := d.callsign, name := d.name, shipType := d.shipType,
       dimA := d.dimA, dimB := d.dimB, dimC := d.dimC, dimD := d.dimD,
       draught := d.draught as real / 10.0, destination := d.destination)
  }

  /** Type 5. */
  function StaticVoyage(v: VesselState, bits: seq<bool>, now: real): VesselState
    requires |bits| >= 424
  {
    ApplyVoyage(Seen(v, now), VoyageOf(bits))
  }

  /** Type 18. */
  function PositionClassB(v: VesselState, bits: seq<bool>, now: real): VesselState
    requires |bits| >= 168
  {
    ApplyMotion(Seen(v, now), MotionB(bits), now)
  }

  /** Type 19: the new ship type already counts for the speed check. */
  function PositionClassBExtended(v: VesselState, bits: seq<bool>, now: real): VesselState
    requires |bits| >= 312
  {
    ApplyMotion(Seen(v, now).(name := Text(bits, 143, 20), shipType := Field(bits, 263, 8)), MotionB(bits), now)
  }

  /** Type 24, part A or B. */
  function StaticClassB(v: VesselState, bits: seq<bool>, now: real): VesselState
    requires |bits| >= 160
  {
    var part := Field(bits, 38, 2);
    if part == 0 then Seen(v, now).(name := Text(bits, 40, 20))
    else if part == 1 && |bits| >= 168 then
      Seen(v, now).(shipType := Field(bits, 40, 8), callsign := Text(bits, 90, 7))
    else Seen(v, now)
  }

  /** Positions of base stations, search and rescue aircraft and aids to navigation are not gated. */
  function ApplyUngated(v: VesselState, latRaw: int, lonRaw: int, now: real): VesselState {
    if Available(latRaw, lonRaw)
    then v.(latitude := Degrees(latRaw), longitude := Degrees(lonRaw), posValid := true, lastPosTime := now)
    else v
  }

  /** Types 4 and 11. */
  function BaseStation(v: VesselState, bits: seq<bool>, now: real): VesselState
    requires |bits| >= 168
  {
    ApplyUngated(Seen(v, now).(shipType := 0), SignedField(bits, 107, 27), SignedField(bits, 79, 28), now)
  }

  /** Type 9. */
  function SarPosition(v: VesselState, bits: seq<bool>, now: real): VesselState
    requires |bits| >= 168
  {
    var moved := ApplyUngated(Seen(v, now), SignedField(bits, 89, 27), SignedField(bits, 61, 28), now);
    var knots := Knots(Field(bits, 50, 10));
    ApplyCourse(if knots >= 0.0 then moved.(speed := knots) else moved, Field(bits, 116, 12))
  }

  /** Type 21. */
  function AtoN(v: VesselState, bits: seq<bool>, now: real): VesselState
    requires |bits| >= 272
  {
    ApplyUngated(Seen(v, now).(name := Text(bits, 43, 20)), SignedField(bits, 192, 27), SignedField(bits, 164, 28), now)
  }

  /** The bits a message of this type must have; None for a type that is not decoded. */
  function MinBits(msgType: nat): (n: Option<nat>)
    ensures n.Some? ==> n.value >= 160
  {
    if msgType in {1, 2, 3, 4, 9, 11, 18} then Some(168)
    else if msgType == 5 then Some(424)
    else if msgType == 19 then Some(312)
    else if msgType == 21 then Some(272)
    else if msgType == 24 then Some(160)
    else None
  }

  function MsgType(bits: seq<bool>): nat {
    Field(bits, 0, 6)
  }

  function Mmsi(bits: seq<bool>): nat {
    Field(bits, 8, 30)
  }

  predicate Decodable(bits: seq<bool>) {
    MinBits(MsgType(bits)).Some? && |bits| >= MinBits(MsgType(bits)).value
  }

  function Update(v: VesselState, bits: seq<bool>, now: real): VesselState
    requires Decodable(bits)
  {
    var t := MsgType(bits);
    if t == 1 || t == 2 || t == 3 then PositionClassA(v, bits, now)
    else if t == 4 || t == 11 then BaseStation(v, bits, now)
    else if t == 5 then StaticVoyage(v, bits, now)
    else if t == 9 then SarPosition(v, bits, now)
    else if t == 18 then PositionClassB(v, bits, now)
    else if t == 19 then PositionClassBExtended(v, bits, now)
    else if t == 21 then AtoN(v, bits, now)
    else StaticClassB(v, bits, now)
  }

  // ---------- whole runs ----------

  datatype Report = Report(bits: seq<bool>, now: real)

  /** Messages too short for their type, or of another type, change nothing. */
  function Apply(v: VesselState, r: Report): VesselState {
    if Decodable(r.bits) then Update(v, r.bits, r.now) else v
  }

  function Run(v: VesselState, reports: seq<Report>): VesselState {
    if reports == [] then v else Apply(Run(v, reports[..|reports| - 1]), reports[|reports| - 1])
  }

  /** The messages of a run that are decoded. */
  function Decoded(reports: seq<Report>): (r: seq<Report>) {
    if reports == [] then []
    else Decoded(reports[..|reports| - 1]) + if Decodable(reports[|reports| - 1].bits) then [reports[|reports| - 1]] else []
  }

  /** The same vessel, count of messages and time of the last one. */
  predicate SameSeen(v: VesselState, w: VesselState) {
    v.mmsi == w.mmsi && v.msgCount == w.msgCount && v.lastSeen == w.lastSeen
  }

  lemma MotionSeen(v: VesselState, m: Motion, now: real)
    ensures SameSeen(ApplyMotion(v, m, now), v)
  {
    hide Accepts, Available, SpeedPlausible, Knots;
  }

  lemma UngatedSeen(v: VesselState, latRaw: int, lonRaw: int, now: real)
    ensures SameSeen(ApplyUngated(v, latRaw, lonRaw, now), v)
  {
    hide Available;
  }

  lemma SeenOnce(v: VesselState, r: Report)
    ensures SameSeen(Apply(v, r), if Decodable(r.bits) then Seen(v, r.now) else v)
  {
    hide Field, SignedField, Text, MotionA, MotionB, MsgType, VoyageOf, ApplyMotion, ApplyUngated, Degrees;
    if Decodable(r.bits) {
      var (t, bits, now, seen) := (MsgType(r.bits), r.bits, r.now, Seen(v, r.now));
      if t == 1 || t == 2 || t == 3 {
        MotionSeen(seen.(status := Field(bits, 38, 4)), MotionA(bits), now);
      } else if t == 4 || t == 11 {
        UngatedSeen(seen.(shipType := 0), SignedField(bits, 107, 27), SignedField(bits, 79, 28), now);
      } else if t == 9 {
        UngatedSeen(seen, SignedField(bits, 89, 27), SignedField(bits, 61, 28), now);
      } else if t == 18 {
        MotionSeen(seen, MotionB(bits), now);
      } else if t == 19 {
        MotionSeen(seen.(name := Text(bits, 143, 20), shipType := Field(bits, 263, 8)), MotionB(bits), now);
      } else if t == 21 {
        UngatedSeen(seen.(name := Text(bits, 43, 20)), SignedField(bits, 192, 27), SignedField(bits, 164, 28), now);
      }
    }
  }

  /** Over any run a vessel counts the messages that were decoded and was last seen at the last of them. */
  lemma {:induction false} MessagesCounted(mmsi: nat, reports: seq<Report>)
    ensures var v := Run(NewVessel(mmsi), reports);
            && v.mmsi == mmsi && v.msgCount == |Decoded(reports)|
            && v.lastSeen == if Decoded(reports) == [] then 0.0 else Decoded(reports)[|Decoded(reports)| - 1].now
  {
    if reports != [] {
      hide Apply, Decodable;
      var front, last := reports[..|reports| - 1], reports[|reports| - 1];
      MessagesCounted(mmsi, front);
      SeenOnce(Run(NewVessel(mmsi), front), last);
    }
  }

  /** Whether a message's own position is taken over. */
  predicate TakesFix(v: VesselState, r: Report) {
    Decodable(r.bits) &&
    var t := MsgType(r.bits);
    if t == 1 || t == 2 || t == 3 then Accepts(v, MotionA(r.bits), r.now)
    else if t == 18 then Accepts(v, MotionB(r.bits), r.now)
    else if t == 19 then Accepts(v.(shipType := Field(r.bits, 263, 8)), MotionB(r.bits), r.now)
    else false
  }

  /** The accepted fixes of a run, in order. */
  function Fixes(v: VesselState, reports: seq<Report>): seq<Position> {
    if reports == [] then []
    else
      var front, last := reports[..|reports| - 1], reports[|reports| - 1];
      Fixes(v, front) + if TakesFix(Run(v, front), last) then [Here(Run(v, reports))] else []
  }

  /** Any message but those whose positions bypass the gate by design, at a time on the clock. */
  predicate Checked(r: Report) {
    MsgType(r.bits) !in {4, 9, 11, 21} && r.now != 0.0
  }

  /** The most a vessel can have moved between two accepted fixes; after five minutes only the range
      of the coordinates limits it. */
  function JumpLimit(dt: real): real {
    if dt < GATE_SECONDS then GATE_DEGREES else 403.0
  }

  predicate InRange(p: Position) {
    -90.0 <= p.lat <= 90.0 && -180.0 <= p.lon <= 180.0
  }

  /** The gate in whole numbers: 0.33 degrees are 198000 units of 1/600000 degree. */
  lemma GateIsExact(lat: int, lon: int, lat': int, lon': int, time: real, now: real)
    ensures Dist2(Position(Degrees(lat), Degrees(lon), time), Position(Degrees(lat'), Degrees(lon'), now))
              <= GATE_DEGREES * GATE_DEGREES
       <==> (lat' - lat) * (lat' - lat) + (lon' - lon) * (lon' - lon) <= 198000 * 198000
  {
    var x, y := lat' - lat, lon' - lon;
    var u := 1.0 / 600000.0;
    assert Degrees(lat') - Degrees(lat) == x as real * u;
    assert Degrees(lon') - Degrees(lon) == y as real * u;
    ScaledSquares(x as real, y as real, u);
    assert (x * x + y * y) as real == x as real * x as real + y as real * y as real;
  }

  lemma ScaledSquares(x: real, y: real, u: real)
    ensures (x * u) * (x * u) + (y * u) * (y * u) == (x * x + y * y) * (u * u)
  {
  }

  /** Within range, no two positions are further apart than the limit after five minutes. */
  lemma Farthest(p: Position, q: Position)
    requires InRange(p) && InRange(q)
    ensures Dist2(p, q) <= 403.0 * 403.0
  {
    SquareBound(q.lat - p.lat, 180.0);
    SquareBound(q.lon - p.lon, 360.0);
  }

  lemma SquareBound(x: real, b: real)
    requires -b <= x <= b
    ensures x * x <= b * b
  {
    var y := if x < 0.0 then -x else x;
    SquareMonotone(y, b);
  }

  /** A position report: either the position stays, or it moves to a fix in range that the gate allows. */
  lemma MotionStep(v: VesselState, m: Motion, now: real)
    ensures var next := ApplyMotion(v, m, now);
            if Accepts(v, m, now) then
              && next.posValid && Here(next) == Position(Degrees(m.latRaw), Degrees(m.lonRaw), now) && InRange(Here(next))
              && (v.posValid && v.lastPosTime != 0.0 && InRange(Here(v)) ==> Hop(JumpLimit, Here(v), Here(next)))
            else Here(next) == Here(v) && next.posValid == v.posValid
  {
    hide Dist2, Degrees, Knots, SpeedPlausible;
    if Accepts(v, m, now) && InRange(Here(v)) {
      Farthest(Here(v), Position(Degrees(m.latRaw), Degrees(m.lonRaw), now));
    }
  }

  /** The speed written by a position report: at most 102 knots, and 50 for cargo ships and tankers. */
  lemma MotionSpeed(v: VesselState, m: Motion, now: real)
    ensures var next := ApplyMotion(v, m, now);
            && next.shipType == v.shipType
            && (next.speed == v.speed ||
                (0.0 <= next.speed <= 102.0 && (60 <= v.shipType <= 89 ==> next.speed <= 50.0)))
  {
    hide Available, JumpAllowed;
  }

  lemma StepFix(v: VesselState, r: Report)
    requires Checked(r)
    ensures var next := Apply(v, r);
            if TakesFix(v, r) then
              && next.posValid && next.lastPosTime == r.now && InRange(Here(next))
              && (v.posValid && v.lastPosTime != 0.0 && InRange(Here(v)) ==> Hop(JumpLimit, Here(v), Here(next)))
            else Here(next) == Here(v) && next.posValid == v.posValid
  {
    hide Field, SignedField, MotionA, MotionB, ApplyMotion, Accepts, InRange, Hop, JumpLimit, Text;
    if Decodable(r.bits) {
      var t := MsgType(r.bits);
      if t == 1 || t == 2 || t == 3 {
        MotionStep(Seen(v, r.now).(status := Field(r.bits, 38, 4)), MotionA(r.bits), r.now);
        AcceptsSame(v, Seen(v, r.now).(status := Field(r.bits, 38, 4)), MotionA(r.bits), r.now);
      } else if t == 18 {
        MotionStep(Seen(v, r.now), MotionB(r.bits), r.now);
        AcceptsSame(v, Seen(v, r.now), MotionB(r.bits), r.now);
      } else if t == 19 {
        var w := Seen(v, r.now).(name := Text(r.bits, 143, 20), shipType := Field(r.bits, 263, 8));
        MotionStep(w, MotionB(r.bits), r.now);
        AcceptsSame(v.(shipType := Field(r.bits, 263, 8)), w, MotionB(r.bits), r.now);
      }
    }
  }

  /** Whether a position is accepted depends on the last one and the ship type only. */
  lemma AcceptsSame(v: VesselState, w: VesselState, m: Motion, now: real)
    requires Here(v) == Here(w) && v.posValid == w.posValid && v.shipType == w.shipType
    ensures Accepts(v, m, now) == Accepts(w, m, now)
  {
    hide Dist2, Available, SpeedPlausible;
  }

  /** A message that changes the speed writes one that respects the limits for the ship's type. */
  lemma StepSpeed(v: VesselState, r: Report)
    requires Checked(r)
    ensures var next := Apply(v, r);
            next.speed == v.speed ||
            (0.0 <= next.speed <= 102.0 && (60 <= next.shipType <= 89 ==> next.speed <= 50.0))
  {
    hide Field, SignedField, MotionA, MotionB, ApplyMotion, Text;
    if Decodable(r.bits) {
      var t := MsgType(r.bits);
      if t == 1 || t == 2 || t == 3 {
        MotionSpeed(Seen(v, r.now).(status := Field(r.bits, 38, 4)), MotionA(r.bits), r.now);
      } else if t == 18 {
        MotionSpeed(Seen(v, r.now), MotionB(r.bits), r.now);
      } else if t == 19 {
        MotionSpeed(Seen(v, r.now).(name := Text(r.bits, 143, 20), shipType := Field(r.bits, 263, 8)), MotionB(r.bits), r.now);
      }
    }
  }

  ghost predicate AllChecked(reports: seq<Report>) {
    forall i | 0 <= i < |reports| :: Checked(reports[i])
  }

  ghost predicate AllInRange(track: seq<Position>) {
    forall i | 0 <= i < |track| :: InRange(track[i])
  }

  /** What every run keeps: each accepted fix is in range and within the gate of the one before, the
      vessel stands where the last fix put it, and its speed is plausible. */
  ghost predicate Safe(v: VesselState, fixes: seq<Position>) {
    && Track(JumpLimit, fixes) && AllInRange(fixes)
    && (v.posValid <==> fixes != [])
    && (fixes != [] ==> Here(v) == fixes[|fixes| - 1] && v.lastPosTime != 0.0)
    && 0.0 <= v.speed <= 102.0
  }

  lemma SafeStep(v: VesselState, fixes: seq<Position>, r: Report)
    requires Safe(v, fixes) && Checked(r)
    ensures Safe(Apply(v, r), fixes + if TakesFix(v, r) then [Here(Apply(v, r))] else [])
  {
    hide Apply, Hop, TakesFix, InRange, MsgType, Track;
    StepFix(v, r);
    StepSpeed(v, r);
    var next := Here(Apply(v, r));
    if TakesFix(v, r) {
      if fixes != [] {
        assert InRange(fixes[|fixes| - 1]);
      }
      TrackExtend(JumpLimit, fixes, next);
    } else {
      assert fixes + [] == fixes;
    }
  }

  /** Run safety, for a vessel's messages from the first one on. */
  lemma {:induction false} RunSafety(mmsi: nat, reports: seq<Report>)
    requires AllChecked(reports)
    ensures Safe(Run(NewVessel(mmsi), reports), Fixes(NewVessel(mmsi), reports))
  {
    hide Apply, TakesFix, Checked;
    if reports == [] {
      assert Track(JumpLimit, []);
    } else {
      hide Safe, NewVessel;
      var front, last := reports[..|reports| - 1], reports[|reports| - 1];
      RunSafety(mmsi, front);
      SafeStep(Run(NewVessel(mmsi), front), Fixes(NewVessel(mmsi), front), last);
    }
  }

  /** Consecutive fixes less than five minutes apart. */
  ghost predicate Frequent(track: seq<Position>) {
    forall i | 0 < i < |track| :: track[i].time - track[i - 1].time < GATE_SECONDS
  }

  lemma {:induction false} FrequentAllowance(track: seq<Position>)
    requires |track| > 0 && Frequent(track)
    ensures Allowance(JumpLimit, track) == GATE_DEGREES * (|track| - 1) as real
  {
    if |track| > 1 {
      FrequentAllowance(track[..|track| - 1]);
    }
  }

  /** Over any run, n gated steps move the vessel at most n times 0.33 degrees. */
  lemma DriftBound(mmsi: nat, reports: seq<Report>, i: nat, j: nat)
    requires AllChecked(reports)
    requires var fixes := Fixes(NewVessel(mmsi), reports); i <= j < |fixes| && Frequent(fixes[i..j + 1])
    ensures var fixes := Fixes(NewVessel(mmsi), reports);
            var limit := GATE_DEGREES * (j - i) as real;
            Dist2(fixes[i], fixes[j]) <= limit * limit
  {
    hide Fixes, Dist2, Run;
    var fixes := Fixes(NewVessel(mmsi), reports);
    RunSafety(mmsi, reports);
    SubTrack(JumpLimit, fixes, i, j + 1);
    TrackLength(JumpLimit, fixes[i..j + 1]);
    FrequentAllowance(fixes[i..j + 1]);
  }

  predicate Cargo(shipType: nat) {
    60 <= shipType <= 89
  }

  /** Cargo ships and tankers at no more than 50 knots. */
  predicate WithinLimit(v: VesselState) {
    Cargo(v.shipType) ==> v.speed <= 50.0
  }

  /** A position report whose own speed is written. */
  predicate WritesSpeed(m: Motion, shipType: nat) {
    Available(m.latRaw, m.lonRaw) && SpeedPlausible(Knots(m.sog), shipType) && m.sog != 1023
  }

  /** The messages that take a vessel out of that limit: those that declare it a cargo ship or tanker while a
      higher speed stands, and do not write a speed of their own; and type 9, which writes any speed. */
  predicate LeavesLimit(v: VesselState, bits: seq<bool>) {
    Decodable(bits) &&
    var t := MsgType(bits);
    if t == 5 then v.speed > 50.0 && Cargo(Field(bits, 232, 8))
    else if t == 19 then v.speed > 50.0 && Cargo(Field(bits, 263, 8)) && !WritesSpeed(MotionB(bits), Field(bits, 263, 8))
    else if t == 24 then v.speed > 50.0 && Field(bits, 38, 2) == 1 && |bits| >= 168 && Cargo(Field(bits, 40, 8))
    else if t == 9 then Cargo(v.shipType) && Field(bits, 50, 10) != 1023 && Field(bits, 50, 10) > 500
    else false
  }

  lemma MotionLimit(v: VesselState, m: Motion, now: real)
    ensures WithinLimit(ApplyMotion(v, m, now)) <==> WithinLimit(v) || WritesSpeed(m, v.shipType)
  {
    hide Available, JumpAllowed;
  }

  /** The limit is checked when a position report writes a speed, and only then: any message whatever keeps a
      vessel within it if and only if it is not one of those. */
  lemma LimitKept(v: VesselState, r: Report)
    requires WithinLimit(v)
    ensures WithinLimit(Apply(v, r)) <==> !LeavesLimit(v, r.bits)
  {
    hide Field, SignedField, MotionA, MotionB, ApplyMotion, Text, MsgType, WritesSpeed, Available;
    if Decodable(r.bits) {
      var t := MsgType(r.bits);
      if t == 1 || t == 2 || t == 3 {
        MotionLimit(Seen(v, r.now).(status := Field(r.bits, 38, 4)), MotionA(r.bits), r.now);
      } else if t == 18 {
        MotionLimit(Seen(v, r.now), MotionB(r.bits), r.now);
      } else if t == 19 {
        MotionLimit(Seen(v, r.now).(name := Text(r.bits, 143, 20), shipType := Field(r.bits, 263, 8)), MotionB(r.bits), r.now);
      }
    }
  }

  /** Over any run of any messages the limit holds throughout if and only if no message leaves it. */
  lemma {:induction false} LimitOverRun(mmsi: nat, reports: seq<Report>)
    ensures (forall n | 0 <= n <= |reports| :: WithinLimit(Run(NewVessel(mmsi), reports[..n])))
       <==> (forall n | 0 <= n < |reports| :: !LeavesLimit(Run(NewVessel(mmsi), reports[..n]), reports[n].bits))
  {
    hide Run, Apply, LeavesLimit, WithinLimit, NewVessel;
    var v := NewVessel(mmsi);
    if reports == [] {
      NewWithinLimit(mmsi);
    } else {
      var k := |reports| - 1;
      var front := reports[..k];
      LimitOverRun(mmsi, front);
      assert forall n | 0 <= n <= k :: front[..n] == reports[..n];
      assert reports[..|reports|] == reports && front[..k] == front;
      RunLast(v, reports);
      if WithinLimit(Run(v, front)) {
        LimitKept(Run(v, front), reports[k]);
      }
    }
  }

  lemma NewWithinLimit(mmsi: nat)
    ensures WithinLimit(Run(NewVessel(mmsi), []))
  {
  }

  lemma RunLast(v: VesselState, reports: seq<Report>)
    requires reports != []
    ensures Run(v, reports) == Apply(Run(v, reports[..|reports| - 1]), reports[|reports| - 1])
  {
    hide Apply;
  }
}
