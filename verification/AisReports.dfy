/** Position reports and the other messages of fixed layout from end to end: what a sender packs into a
    message is what the decoder stores, with the checks on positions and speeds in whole units. */
module AisReports {
  import opened AisBits
  import opened AisBroadcast
  import opened AisDecoder
  import opened AisPacking
  import opened AisStream
  import opened BitStrings
  import opened Geometry
  import opened Nmea
  import opened Sequences
  import opened VesselTracking

  // ---------- the checks in whole units ----------

  /** Latitude and longitude in 1/600000 degree. */
  predicate OnGlobe(lat: int, lon: int) {
    -54000000 <= lat <= 54000000 && -108000000 <= lon <= 108000000
  }

  /** Speed in tenths of a knot; 1023 stands for unknown. */
  predicate SpeedFits(sog: nat, shipType: nat) {
    sog == 1023 || sog <= if 60 <= shipType <= 89 then 500 else 1020
  }

  predicate Near(lat: int, lon: int, lat': int, lon': int) {
    (lat' - lat) * (lat' - lat) + (lon' - lon) * (lon' - lon) <= 198000 * 198000
  }

  /** The vessel's stored position in whole units. */
  predicate StandsAt(v: VesselState, lat: int, lon: int) {
    v.latitude == Degrees(lat) && v.longitude == Degrees(lon)
  }

  predicate Takes(v: VesselState, lat: int, lon: int, m: Motion, now: real) {
    && OnGlobe(m.latRaw, m.lonRaw) && SpeedFits(m.sog, v.shipType)
    && (!v.posValid || v.lastPosTime == 0.0 || now - v.lastPosTime >= 300.0 || Near(lat, lon, m.latRaw, m.lonRaw))
  }

  /** What a position report should do to a vessel at (lat, lon). */
  function Moved(v: VesselState, lat: int, lon: int, m: Motion, now: real): VesselState {
    var taken := Takes(v, lat, lon, m, now);
    v.(latitude := if taken then Degrees(m.latRaw) else v.latitude,
       longitude := if taken then Degrees(m.lonRaw) else v.longitude,
       posValid := v.posValid || taken,
       lastPosTime := if taken then now else v.lastPosTime,
       speed := if OnGlobe(m.latRaw, m.lonRaw) && SpeedFits(m.sog, v.shipType) && m.sog != 1023
                then m.sog as real / 10.0 else v.speed,
       course := if m.cog == 3600 then v.course else m.cog as real / 10.0,
       heading := if m.heading == 511 then v.heading else m.heading as real)
  }

  /** The range check and the two sentinels: the sentinels are out of range anyway. */
  lemma AvailableIsOnGlobe(lat: int, lon: int)
    ensures Available(lat, lon) <==> OnGlobe(lat, lon)
  {
  }

  lemma PlausibleIsFit(sog: nat, shipType: nat)
    ensures SpeedPlausible(Knots(sog), shipType) <==> SpeedFits(sog, shipType)
    ensures Knots(sog) >= 0.0 <==> sog != 1023
  {
  }

  lemma JumpIsNear(v: VesselState, lat: int, lon: int, lat': int, lon': int, now: real)
    requires StandsAt(v, lat, lon)
    ensures JumpAllowed(v, Degrees(lat'), Degrees(lon'), now)
       <==> !v.posValid || v.lastPosTime == 0.0 || now - v.lastPosTime >= 300.0 || Near(lat, lon, lat', lon')
  {
    hide Dist2, Degrees;
    GateIsExact(lat, lon, lat', lon', v.lastPosTime, now);
  }

  lemma MotionInUnits(v: VesselState, lat: int, lon: int, m: Motion, now: real)
    requires StandsAt(v, lat, lon)
    ensures ApplyMotion(v, m, now) == Moved(v, lat, lon, m, now)
  {
    hide Degrees, Available, OnGlobe, SpeedPlausible, SpeedFits, JumpAllowed, Near, StandsAt;
    AvailableIsOnGlobe(m.latRaw, m.lonRaw);
    PlausibleIsFit(m.sog, v.shipType);
    JumpIsNear(v, lat, lon, m.latRaw, m.lonRaw, now);
  }

  // ---------- the sender ----------

  predicate Unsigned(v: nat, n: nat) {
    v < Pow2(n)
  }

  predicate Signed(v: int, n: nat) {
    n > 0 && -(Pow2(n - 1) as int) <= v < Pow2(n - 1)
  }

  predicate ValidMotion(m: Motion) {
    Unsigned(m.sog, 10) && Signed(m.lonRaw, 28) && Signed(m.latRaw, 27) && Unsigned(m.cog, 12) && Unsigned(m.heading, 9)
  }

  datatype Header = Header(msgType: nat, repeatInd: nat, mmsi: nat)

  predicate ValidHeader(h: Header) {
    Unsigned(h.msgType, 6) && Unsigned(h.repeatInd, 2) && Unsigned(h.mmsi, 30)
  }

  function HeaderParts(h: Header): seq<seq<bool>> {
    [Bits(h.msgType, 6), Bits(h.repeatInd, 2), Bits(h.mmsi, 30)]
  }

  lemma HeaderRead(h: Header, rest: seq<seq<bool>>)
    requires ValidHeader(h)
    ensures MsgType(Concat(HeaderParts(h) + rest)) == h.msgType && Mmsi(Concat(HeaderParts(h) + rest)) == h.mmsi
    ensures Offset(HeaderParts(h) + rest, 3) == 38
  {
    hide Field, Bits, Concat, Pow2;
    var parts := HeaderParts(h) + rest;
    assert Offset(parts, 1) == 6 && Offset(parts, 2) == 8;
    NumberAt(parts, 0, 0, h.msgType, 6);
    NumberAt(parts, 2, 8, h.mmsi, 30);
  }

  // ---------- types 1, 2 and 3 ----------

  datatype ClassA = ClassA(header: Header, status: nat, rot: int, accuracy: nat, motion: Motion, rest: nat)

  predicate ValidA(r: ClassA) {
    && r.header.msgType in {1, 2, 3} && ValidHeader(r.header)
    && Unsigned(r.status, 4) && Signed(r.rot, 8) && Unsigned(r.accuracy, 1) && ValidMotion(r.motion) && Unsigned(r.rest, 31)
  }

  function PartsA(r: ClassA): seq<seq<bool>>
    requires ValidA(r)
  {
    var h := r.header;
    [Bits(h.msgType, 6), Bits(h.repeatInd, 2), Bits(h.mmsi, 30), Bits(r.status, 4), SignedBits(r.rot, 8), Bits(r.motion.sog, 10), Bits(r.accuracy, 1),
     SignedBits(r.motion.lonRaw, 28), SignedBits(r.motion.latRaw, 27), Bits(r.motion.cog, 12), Bits(r.motion.heading, 9),
     Bits(r.rest, 31)]
  }

  lemma LayoutA(r: ClassA)
    requires ValidA(r)
    ensures var p := PartsA(r);
            && |p| == 12 && Offset(p, 1) == 6 && Offset(p, 2) == 8 && Offset(p, 3) == 38 && Offset(p, 4) == 42 && Offset(p, 5) == 50 && Offset(p, 6) == 60 && Offset(p, 7) == 61
            && Offset(p, 8) == 89 && Offset(p, 9) == 116 && Offset(p, 10) == 128 && |Concat(p)| == 168
  {
    hide Bits, SignedBits, Concat, Unsigned, Signed;
    ConcatLength(PartsA(r));
  }

  lemma ReadMotionA(r: ClassA)
    requires ValidA(r)
    ensures var bits := Concat(PartsA(r)); |bits| == 168 && MotionA(bits) == r.motion
  {
    var p, m := PartsA(r), r.motion;
    LayoutA(r);
    hide Field, SignedField, Bits, SignedBits, Concat, Pow2, Offset;
    NumberAt(p, 5, 50, m.sog, 10);
    SignedAt(p, 7, 61, m.lonRaw, 28);
    SignedAt(p, 8, 89, m.latRaw, 27);
    NumberAt(p, 9, 116, m.cog, 12);
    NumberAt(p, 10, 128, m.heading, 9);
  }

  lemma ReadA(r: ClassA)
    requires ValidA(r)
    ensures var bits := Concat(PartsA(r));
            && |bits| == 168 && Decodable(bits) && MsgType(bits) in {1, 2, 3} && Mmsi(bits) == r.header.mmsi
            && Field(bits, 38, 4) == r.status && SignedField(bits, 42, 8) == r.rot
  {
    var p := PartsA(r);
    LayoutA(r);
    hide Field, SignedField, Bits, SignedBits, Concat, Pow2, Offset, MsgType, Mmsi;
    HeaderRead(r.header, p[3..]);
    assert p == HeaderParts(r.header) + p[3..];
    NumberAt(p, 3, 38, r.status, 4);
    SignedAt(p, 4, 42, r.rot, 8);
  }

  /** A class A report, as sent, and everything it does to the vessel. */
  lemma ClassAStored(v: VesselState, r: ClassA, now: real, lat: int, lon: int)
    requires ValidA(r) && StandsAt(v, lat, lon)
    ensures var bits := Concat(PartsA(r));
            && Decodable(bits) && Mmsi(bits) == r.header.mmsi
            && Update(v, bits, now)
                 == Moved(Seen(v, now), lat, lon, r.motion, now).(
                      status := r.status, rot := if r.rot == -128 then v.rot else r.rot as real)
  {
    hide ValidA, PartsA, Concat, Field, SignedField, MotionA, Takes, OnGlobe, SpeedFits, Degrees, Decodable, MsgType;
    ReadA(r);
    ReadMotionA(r);
    MotionInUnits(Seen(v, now).(status := r.status), lat, lon, r.motion, now);
    hide ApplyMotion;
    StatusApart(Seen(v, now), r.status, lat, lon, r.motion, now);
  }

  lemma StatusApart(v: VesselState, status: nat, lat: int, lon: int, m: Motion, now: real)
    ensures Moved(v.(status := status), lat, lon, m, now) == Moved(v, lat, lon, m, now).(status := status)
  {
    hide OnGlobe, SpeedFits, Degrees, Near;
  }

  // ---------- types 18 and 19 ----------

  datatype ClassB = ClassB(header: Header, reserved: nat, accuracy: nat, motion: Motion, rest: nat)

  predicate ValidB(r: ClassB) {
    && r.header.msgType == 18 && ValidHeader(r.header)
    && Unsigned(r.reserved, 8) && Unsigned(r.accuracy, 1) && ValidMotion(r.motion) && Unsigned(r.rest, 35)
  }

  function PartsB(r: ClassB): seq<seq<bool>>
    requires ValidB(r)
  {
    var h, m := r.header, r.motion;
    [Bits(h.msgType, 6), Bits(h.repeatInd, 2), Bits(h.mmsi, 30), Bits(r.reserved, 8), Bits(m.sog, 10), Bits(r.accuracy, 1),
     SignedBits(m.lonRaw, 28), SignedBits(m.latRaw, 27), Bits(m.cog, 12), Bits(m.heading, 9), Bits(r.rest, 35)]
  }

  /** Where types 18 and 19 keep their motion. */
  predicate MotionPartsB(p: seq<seq<bool>>, m: Motion)
    requires ValidMotion(m)
  {
    && |p| > 10 && Offset(p, 4) == 46 && Offset(p, 6) == 57 && Offset(p, 7) == 85 && Offset(p, 8) == 112 && Offset(p, 9) == 124
    && p[4] == Bits(m.sog, 10) && p[6] == SignedBits(m.lonRaw, 28) && p[7] == SignedBits(m.latRaw, 27)
    && p[8] == Bits(m.cog, 12) && p[9] == Bits(m.heading, 9)
  }

  lemma ReadMotionB(p: seq<seq<bool>>, m: Motion)
    requires ValidMotion(m) && MotionPartsB(p, m) && |Concat(p)| >= 168
    ensures MotionB(Concat(p)) == m
  {
    hide Field, SignedField, Bits, SignedBits, Concat, Pow2, Offset;
    NumberAt(p, 4, 46, m.sog, 10);
    SignedAt(p, 6, 57, m.lonRaw, 28);
    SignedAt(p, 7, 85, m.latRaw, 27);
    NumberAt(p, 8, 112, m.cog, 12);
    NumberAt(p, 9, 124, m.heading, 9);
  }

  lemma LayoutB(r: ClassB)
    requires ValidB(r)
    ensures var p := PartsB(r);
            && |p| == 11 && Offset(p, 1) == 6 && Offset(p, 2) == 8 && Offset(p, 3) == 38 && Offset(p, 4) == 46
            && Offset(p, 5) == 56 && Offset(p, 6) == 57 && Offset(p, 7) == 85 && Offset(p, 8) == 112 && Offset(p, 9) == 124
            && Offset(p, 10) == 133 && |Concat(p)| == 168
  {
    hide Bits, SignedBits, Concat, Unsigned, Signed;
    ConcatLength(PartsB(r));
  }

  lemma ReadB(r: ClassB)
    requires ValidB(r)
    ensures var bits := Concat(PartsB(r));
            |bits| == 168 && Decodable(bits) && MsgType(bits) == 18 && Mmsi(bits) == r.header.mmsi && MotionB(bits) == r.motion
  {
    var p := PartsB(r);
    LayoutB(r);
    hide Bits, SignedBits, Concat, Pow2, Offset, MsgType, Mmsi, MotionB, Signed, Unsigned;
    HeaderRead(r.header, p[3..]);
    assert p == HeaderParts(r.header) + p[3..];
    ReadMotionB(p, r.motion);
  }

  /** A class B report. */
  lemma ClassBStored(v: VesselState, r: ClassB, now: real, lat: int, lon: int)
    requires ValidB(r) && StandsAt(v, lat, lon)
    ensures var bits := Concat(PartsB(r));
            && Decodable(bits) && Mmsi(bits) == r.header.mmsi
            && Update(v, bits, now) == Moved(Seen(v, now), lat, lon, r.motion, now)
  {
    hide ValidB, PartsB, Concat, MotionB, Moved, ApplyMotion, Decodable, MsgType, Degrees;
    ReadB(r);
    MotionInUnits(Seen(v, now), lat, lon, r.motion, now);
  }

  datatype ClassBExtended = ClassBExtended(
    header: Header, reserved: nat, accuracy: nat, motion: Motion, timing: nat, name: string, shipType: nat, rest: nat)

  predicate ValidExtended(r: ClassBExtended) {
    && r.header.msgType == 19 && ValidHeader(r.header)
    && Unsigned(r.reserved, 8) && Unsigned(r.accuracy, 1) && ValidMotion(r.motion) && Unsigned(r.timing, 10)
    && InAlphabet(r.name) && |r.name| == 20 && Unsigned(r.shipType, 8) && Unsigned(r.rest, 41)
  }

  function PartsExtended(r: ClassBExtended): seq<seq<bool>>
    requires ValidExtended(r)
  {
    var h, m := r.header, r.motion;
    [Bits(h.msgType, 6), Bits(h.repeatInd, 2), Bits(h.mmsi, 30), Bits(r.reserved, 8), Bits(m.sog, 10), Bits(r.accuracy, 1),
     SignedBits(m.lonRaw, 28), SignedBits(m.latRaw, 27), Bits(m.cog, 12), Bits(m.heading, 9), Bits(r.timing, 10),
     TextBits(r.name), Bits(r.shipType, 8), Bits(r.rest, 41)]
  }

  lemma LayoutExtended(r: ClassBExtended)
    requires ValidExtended(r)
    ensures var p := PartsExtended(r);
            && |p| == 14 && Offset(p, 1) == 6 && Offset(p, 2) == 8 && Offset(p, 3) == 38 && Offset(p, 4) == 46
            && Offset(p, 5) == 56 && Offset(p, 6) == 57 && Offset(p, 7) == 85 && Offset(p, 8) == 112 && Offset(p, 9) == 124
            && Offset(p, 10) == 133 && Offset(p, 11) == 143 && Offset(p, 12) == 263 && Offset(p, 13) == 271 && |Concat(p)| == 312
  {
    hide Bits, SignedBits, TextBits, Concat, Unsigned, Signed, InAlphabet;
    ConcatLength(PartsExtended(r));
  }

  lemma ReadExtended(r: ClassBExtended)
    requires ValidExtended(r)
    ensures var bits := Concat(PartsExtended(r));
            |bits| == 312 && Decodable(bits) && MsgType(bits) == 19 && Mmsi(bits) == r.header.mmsi && MotionB(bits) == r.motion
  {
    var p := PartsExtended(r);
    LayoutExtended(r);
    hide Bits, SignedBits, TextBits, Concat, Pow2, Offset, MsgType, Mmsi, MotionB, Signed, Unsigned, InAlphabet;
    HeaderRead(r.header, p[3..]);
    assert p == HeaderParts(r.header) + p[3..];
    ReadMotionB(p, r.motion);
  }

  lemma ReadExtendedStatic(r: ClassBExtended)
    requires ValidExtended(r)
    ensures var bits := Concat(PartsExtended(r));
            Text(bits, 143, 20) == TrimPadding(r.name) && Field(bits, 263, 8) == r.shipType
  {
    var p := PartsExtended(r);
    LayoutExtended(r);
    hide Bits, SignedBits, TextBits, Concat, Pow2, Offset, Signed, InAlphabet, Field, Letters, TrimPadding;
    TextAt(p, 11, 143, r.name);
    NumberAt(p, 12, 263, r.shipType, 8);
  }

  /** An extended class B report: its ship type already counts for its own speed. */
  lemma ClassBExtendedStored(v: VesselState, r: ClassBExtended, now: real, lat: int, lon: int)
    requires ValidExtended(r) && StandsAt(v, lat, lon)
    ensures var bits := Concat(PartsExtended(r));
            && Decodable(bits) && Mmsi(bits) == r.header.mmsi
            && Update(v, bits, now)
                 == Moved(Seen(v, now).(name := TrimPadding(r.name), shipType := r.shipType), lat, lon, r.motion, now)
  {
    hide ValidExtended, PartsExtended, Concat, MotionB, Moved, ApplyMotion, Decodable, MsgType, Degrees, Field, Text, TrimPadding;
    ReadExtended(r);
    ReadExtendedStatic(r);
    MotionInUnits(Seen(v, now).(name := TrimPadding(r.name), shipType := r.shipType), lat, lon, r.motion, now);
  }

  // ---------- type 24 ----------

  /** Part A carries the name. */
  function PartsName(h: Header, name: string): seq<seq<bool>>
    requires InAlphabet(name)
  {
    [Bits(h.msgType, 6), Bits(h.repeatInd, 2), Bits(h.mmsi, 30), Bits(0, 2), TextBits(name)]
  }

  lemma NameStored(v: VesselState, h: Header, name: string, now: real)
    requires ValidHeader(h) && h.msgType == 24 && InAlphabet(name) && |name| == 20
    ensures var bits := Concat(PartsName(h, name));
            Decodable(bits) && Mmsi(bits) == h.mmsi && Update(v, bits, now) == Seen(v, now).(name := TrimPadding(name))
  {
    hide Field, Bits, TextBits, Letters, Concat, InAlphabet, TrimPadding, MsgType, Mmsi;
    var p := PartsName(h, name);
    ConcatLength(p);
    assert Offset(p, 1) == 6 && Offset(p, 2) == 8 && Offset(p, 3) == 38 && Offset(p, 4) == 40 && Offset(p, 5) == 160;
    assert 0 < Pow2(2);
    hide Offset, Pow2;
    HeaderRead(h, p[3..]);
    assert p == HeaderParts(h) + p[3..];
    NumberAt(p, 3, 38, 0, 2);
    TextAt(p, 4, 40, name);
  }

  /** Part B carries the ship type and the callsign, behind the vendor's identification. */
  datatype PartB = PartB(header: Header, shipType: nat, vendor: nat, callsign: string, rest: nat)

  predicate ValidPartB(r: PartB) {
    && r.header.msgType == 24 && ValidHeader(r.header) && Unsigned(r.shipType, 8) && Unsigned(r.vendor, 42)
    && InAlphabet(r.callsign) && |r.callsign| == 7 && Unsigned(r.rest, 36)
  }

  function PartsPartB(r: PartB): seq<seq<bool>>
    requires ValidPartB(r)
  {
    var h := r.header;
    [Bits(h.msgType, 6), Bits(h.repeatInd, 2), Bits(h.mmsi, 30), Bits(1, 2), Bits(r.shipType, 8), Bits(r.vendor, 42),
     TextBits(r.callsign), Bits(r.rest, 36)]
  }

  lemma LayoutPartB(r: PartB)
    requires ValidPartB(r)
    ensures var p := PartsPartB(r);
            && |p| == 8 && Offset(p, 1) == 6 && Offset(p, 2) == 8 && Offset(p, 3) == 38 && Offset(p, 4) == 40
            && Offset(p, 5) == 48 && Offset(p, 6) == 90 && Offset(p, 7) == 132 && |Concat(p)| == 168
  {
    hide Bits, TextBits, Concat, Unsigned, InAlphabet;
    ConcatLength(PartsPartB(r));
  }

  lemma TypeAndCallsignStored(v: VesselState, r: PartB, now: real)
    requires ValidPartB(r)
    ensures var bits := Concat(PartsPartB(r));
            && Decodable(bits) && Mmsi(bits) == r.header.mmsi
            && Update(v, bits, now) == Seen(v, now).(shipType := r.shipType, callsign := TrimPadding(r.callsign))
  {
    hide Field, Bits, TextBits, Letters, Concat, InAlphabet, TrimPadding, MsgType, Mmsi, Offset;
    var p := PartsPartB(r);
    LayoutPartB(r);
    assert 1 < Pow2(2) by { assert Pow2(2) == 4; }
    hide Pow2;
    HeaderRead(r.header, p[3..]);
    assert p == HeaderParts(r.header) + p[3..];
    NumberAt(p, 3, 38, 1, 2);
    NumberAt(p, 4, 40, r.shipType, 8);
    TextAt(p, 6, 90, r.callsign);
  }

  // ---------- messages whose positions are not gated ----------

  function Placed(v: VesselState, lat: int, lon: int, now: real): VesselState {
    if OnGlobe(lat, lon)
    then v.(latitude := Degrees(lat), longitude := Degrees(lon), posValid := true, lastPosTime := now)
    else v
  }

  lemma UngatedInUnits(v: VesselState, lat: int, lon: int, now: real)
    ensures ApplyUngated(v, lat, lon, now) == Placed(v, lat, lon, now)
  {
    hide Available, OnGlobe, Degrees;
    AvailableIsOnGlobe(lat, lon);
  }

  /** Types 4 and 11: base stations. */
  datatype Base = Base(header: Header, clock: nat, lon: int, lat: int, rest: nat)

  predicate ValidBase(r: Base) {
    && r.header.msgType in {4, 11} && ValidHeader(r.header)
    && Unsigned(r.clock, 41) && Signed(r.lon, 28) && Signed(r.lat, 27) && Unsigned(r.rest, 34)
  }

  function PartsBase(r: Base): seq<seq<bool>>
    requires ValidBase(r)
  {
    var h := r.header;
    [Bits(h.msgType, 6), Bits(h.repeatInd, 2), Bits(h.mmsi, 30), Bits(r.clock, 41), SignedBits(r.lon, 28), SignedBits(r.lat, 27),
     Bits(r.rest, 34)]
  }

  lemma LayoutBase(r: Base)
    requires ValidBase(r)
    ensures var p := PartsBase(r);
            && |p| == 7 && Offset(p, 1) == 6 && Offset(p, 2) == 8 && Offset(p, 3) == 38 && Offset(p, 4) == 79
            && Offset(p, 5) == 107 && Offset(p, 6) == 134 && |Concat(p)| == 168
  {
    hide Bits, SignedBits, Concat, Unsigned, Signed;
    ConcatLength(PartsBase(r));
  }

  lemma BaseStored(v: VesselState, r: Base, now: real)
    requires ValidBase(r)
    ensures var bits := Concat(PartsBase(r));
            && Decodable(bits) && Mmsi(bits) == r.header.mmsi
            && Update(v, bits, now) == Placed(Seen(v, now).(shipType := 0), r.lat, r.lon, now)
  {
    hide SignedField, Bits, SignedBits, Concat, MsgType, Mmsi, ApplyUngated, Placed, Offset, Pow2;
    var p := PartsBase(r);
    LayoutBase(r);
    HeaderRead(r.header, p[3..]);
    assert p == HeaderParts(r.header) + p[3..];
    SignedAt(p, 4, 79, r.lon, 28);
    SignedAt(p, 5, 107, r.lat, 27);
    UngatedInUnits(Seen(v, now).(shipType := 0), r.lat, r.lon, now);
  }

  /** Type 9: search and rescue aircraft. */
  datatype Sar = Sar(header: Header, altitude: nat, sog: nat, accuracy: nat, lon: int, lat: int, cog: nat, rest: nat)

  predicate ValidSar(r: Sar) {
    && r.header.msgType == 9 && ValidHeader(r.header) && Unsigned(r.altitude, 12) && Unsigned(r.sog, 10) && Unsigned(r.accuracy, 1)
    && Signed(r.lon, 28) && Signed(r.lat, 27) && Unsigned(r.cog, 12) && Unsigned(r.rest, 40)
  }

  function PartsSar(r: Sar): seq<seq<bool>>
    requires ValidSar(r)
  {
    var h := r.header;
    [Bits(h.msgType, 6), Bits(h.repeatInd, 2), Bits(h.mmsi, 30), Bits(r.altitude, 12), Bits(r.sog, 10), Bits(r.accuracy, 1),
     SignedBits(r.lon, 28), SignedBits(r.lat, 27), Bits(r.cog, 12), Bits(r.rest, 40)]
  }

  lemma LayoutSar(r: Sar)
    requires ValidSar(r)
    ensures var p := PartsSar(r);
            && |p| == 10 && Offset(p, 1) == 6 && Offset(p, 2) == 8 && Offset(p, 3) == 38 && Offset(p, 4) == 50
            && Offset(p, 5) == 60 && Offset(p, 6) == 61 && Offset(p, 7) == 89 && Offset(p, 8) == 116 && Offset(p, 9) == 128
            && |Concat(p)| == 168
  {
    hide Bits, SignedBits, Concat, Unsigned, Signed;
    ConcatLength(PartsSar(r));
  }

  lemma SarStored(v: VesselState, r: Sar, now: real)
    requires ValidSar(r)
    ensures var bits := Concat(PartsSar(r));
            var moved := Placed(Seen(v, now), r.lat, r.lon, now);
            && Decodable(bits) && Mmsi(bits) == r.header.mmsi
            && Update(v, bits, now)
                 == moved.(speed := if r.sog == 1023 then moved.speed else r.sog as real / 10.0,
                           course := if r.cog == 3600 then moved.course else r.cog as real / 10.0)
  {
    hide Field, SignedField, Bits, SignedBits, Concat, MsgType, Mmsi, ApplyUngated, Placed, Offset, Pow2, Knots;
    var p := PartsSar(r);
    LayoutSar(r);
    HeaderRead(r.header, p[3..]);
    assert p == HeaderParts(r.header) + p[3..];
    NumberAt(p, 4, 50, r.sog, 10);
    SignedAt(p, 6, 61, r.lon, 28);
    SignedAt(p, 7, 89, r.lat, 27);
    NumberAt(p, 8, 116, r.cog, 12);
    UngatedInUnits(Seen(v, now), r.lat, r.lon, now);
    KnownSpeed(r.sog);
  }

  lemma KnownSpeed(sog: nat)
    ensures Knots(sog) >= 0.0 <==> sog != 1023
    ensures sog != 1023 ==> Knots(sog) == sog as real / 10.0
  {
  }

  /** Type 21: aids to navigation. */
  datatype Aid = Aid(header: Header, kind: nat, name: string, accuracy: nat, lon: int, lat: int, rest: nat)

  predicate ValidAid(r: Aid) {
    && r.header.msgType == 21 && ValidHeader(r.header) && Unsigned(r.kind, 5) && InAlphabet(r.name) && |r.name| == 20
    && Unsigned(r.accuracy, 1) && Signed(r.lon, 28) && Signed(r.lat, 27) && Unsigned(r.rest, 53)
  }

  function PartsAid(r: Aid): seq<seq<bool>>
    requires ValidAid(r)
  {
    var h := r.header;
    [Bits(h.msgType, 6), Bits(h.repeatInd, 2), Bits(h.mmsi, 30), Bits(r.kind, 5), TextBits(r.name), Bits(r.accuracy, 1),
     SignedBits(r.lon, 28), SignedBits(r.lat, 27), Bits(r.rest, 53)]
  }

  lemma LayoutAid(r: Aid)
    requires ValidAid(r)
    ensures var p := PartsAid(r);
            && |p| == 9 && Offset(p, 1) == 6 && Offset(p, 2) == 8 && Offset(p, 3) == 38 && Offset(p, 4) == 43
            && Offset(p, 5) == 163 && Offset(p, 6) == 164 && Offset(p, 7) == 192 && Offset(p, 8) == 219 && |Concat(p)| == 272
  {
    hide Bits, SignedBits, TextBits, Concat, Unsigned, Signed, InAlphabet;
    ConcatLength(PartsAid(r));
  }

  lemma AidStored(v: VesselState, r: Aid, now: real)
    requires ValidAid(r)
    ensures var bits := Concat(PartsAid(r));
            && Decodable(bits) && Mmsi(bits) == r.header.mmsi
            && Update(v, bits, now) == Placed(Seen(v, now).(name := TrimPadding(r.name)), r.lat, r.lon, now)
  {
    hide Letters, SignedField, Bits, SignedBits, TextBits, Concat, MsgType, Mmsi, ApplyUngated, Placed, Offset, Pow2, InAlphabet, TrimPadding;
    var p := PartsAid(r);
    LayoutAid(r);
    HeaderRead(r.header, p[3..]);
    assert p == HeaderParts(r.header) + p[3..];
    TextAt(p, 4, 43, r.name);
    SignedAt(p, 6, 164, r.lon, 28);
    SignedAt(p, 7, 192, r.lat, 27);
    UngatedInUnits(Seen(v, now).(name := TrimPadding(r.name)), r.lat, r.lon, now);
  }

  // ---------- the limit for cargo ships, left ----------

  function FastReport(mmsi: nat): ClassA {
    ClassA(Header(1, 0, mmsi), 0, 0, 0, Motion(800, 0, 0, 0, 0), 0)
  }

  function CargoReport(mmsi: nat): PartB {
    PartB(Header(24, 0, mmsi), 70, 0, "@@@@@@@", 0)
  }

  lemma ReportsAreValid(mmsi: nat)
    requires Unsigned(mmsi, 30)
    ensures ValidA(FastReport(mmsi)) && ValidPartB(CargoReport(mmsi))
  {
    assert Pow2(2) == 4 && Pow2(4) == 16 && Pow2(6) == 64 && Pow2(7) == 128 && Pow2(8) == 256 && Pow2(9) == 512 && Pow2(10) == 1024;
    hide Pow2;
  }

  /** An input that leaves the limit: a vessel at 80 knots declares itself a cargo ship. */
  lemma FastCargoShip(mmsi: nat, now: real, later: real)
    requires Unsigned(mmsi, 30)
    ensures ValidA(FastReport(mmsi)) && ValidPartB(CargoReport(mmsi))
    ensures var v := Run(NewVessel(mmsi), [Report(Concat(PartsA(FastReport(mmsi))), now),
                                           Report(Concat(PartsPartB(CargoReport(mmsi))), later)]);
            v.speed == 80.0 && v.shipType == 70 && !WithinLimit(v)
  {
    hide *;
    ReportsAreValid(mmsi);
    var v := NewVessel(mmsi);
    var fast, cargo := Concat(PartsA(FastReport(mmsi))), Concat(PartsPartB(CargoReport(mmsi)));
    TwoReports(v, Report(fast, now), Report(cargo, later));
    FastHeard(v, mmsi, now);
    CargoHeard(Apply(v, Report(fast, now)), mmsi, later);
    NoLongerWithin(Run(v, [Report(fast, now), Report(cargo, later)]));
  }

  lemma NoLongerWithin(v: VesselState)
    requires v.speed == 80.0 && v.shipType == 70
    ensures !WithinLimit(v)
  {
  }

  lemma FastHeard(v: VesselState, mmsi: nat, now: real)
    requires v == NewVessel(mmsi) && ValidA(FastReport(mmsi))
    ensures Apply(v, Report(Concat(PartsA(FastReport(mmsi))), now)).speed == 80.0
  {
    hide PartsA, Concat, Update, Decodable, ValidA, MsgType;
    assert StandsAt(v, 0, 0);
    ClassAStored(v, FastReport(mmsi), now, 0, 0);
  }

  lemma CargoHeard(v: VesselState, mmsi: nat, now: real)
    requires ValidPartB(CargoReport(mmsi))
    ensures var next := Apply(v, Report(Concat(PartsPartB(CargoReport(mmsi))), now));
            next.speed == v.speed && next.shipType == 70
  {
    hide PartsPartB, Concat, Update, Decodable, ValidPartB, MsgType, TrimPadding;
    TypeAndCallsignStored(v, CargoReport(mmsi), now);
  }

  lemma TwoReports(v: VesselState, r: Report, r': Report)
    ensures Run(v, [r, r']) == Apply(Apply(v, r), r')
  {
    hide Apply;
    assert [r, r'][..1] == [r] && [r][..0] == [];
    assert Run(v, [r]) == Apply(Run(v, []), r);
  }

  // ---------- on the air ----------

  /** A class A report heard as a line of its own: the line is decoded, and the vessel changes by exactly
      what was sent. */
  lemma ClassAHeard(st: State, line: Heard, r: ClassA, seqId: string, channel: string, lat: int, lon: int)
    requires ValidA(r) && Plain(seqId) && Plain(channel)
    requires StandsAt(StateOf(st.vessels, r.header.mmsi), lat, lon)
    requires line.line == Format(Sentence(1, 1, seqId, Payload(Concat(PartsA(r))), 0), channel)
    ensures var v := StateOf(st.vessels, r.header.mmsi);
            var moved := Moved(Seen(v, line.now), lat, lon, r.motion, line.now).(
                           status := r.status, rot := if r.rot == -128 then v.rot else r.rot as real);
            Feed(st, line.line, line.now)
              == (st.(msgCount := st.msgCount + 1, vessels := st.vessels[r.header.mmsi := moved]), true)
  {
    hide ValidA, PartsA, Concat, Payload, Format, Plain, ParseLine, Moved, Update, StateOf, StandsAt, Decodable, Mmsi, DecodedBits;
    var bits := Concat(PartsA(r));
    ReadA(r);
    ClassAStored(StateOf(st.vessels, r.header.mmsi), r, line.now, lat, lon);
    PayloadIsPlain(bits);
    FormatParses(Sentence(1, 1, seqId, Payload(bits), 0), channel);
    DecodePayload(bits);
  }

  // ---------- every stored position is in whole units ----------

  ghost predicate Stands(v: VesselState) {
    exists lat, lon :: StandsAt(v, lat, lon)
  }

  lemma SamePlace(v: VesselState, w: VesselState)
    requires Stands(v) && w.latitude == v.latitude && w.longitude == v.longitude
    ensures Stands(w)
  {
    hide Degrees;
    var lat, lon :| StandsAt(v, lat, lon);
    assert StandsAt(w, lat, lon);
  }

  lemma PlacedStands(v: VesselState, lat: int, lon: int)
    ensures Stands(v.(latitude := Degrees(lat), longitude := Degrees(lon)))
  {
    hide Degrees;
    assert StandsAt(v.(latitude := Degrees(lat), longitude := Degrees(lon)), lat, lon);
  }

  lemma MotionStands(v: VesselState, m: Motion, now: real)
    requires Stands(v)
    ensures Stands(ApplyMotion(v, m, now))
  {
    hide Stands, Degrees, Available, SpeedPlausible, Accepts, Knots;
    var next := ApplyMotion(v, m, now);
    if Accepts(v, m, now) {
      PlacedStands(v, m.latRaw, m.lonRaw);
      SamePlace(v.(latitude := Degrees(m.latRaw), longitude := Degrees(m.lonRaw)), next);
    } else {
      SamePlace(v, next);
    }
  }

  lemma UngatedStands(v: VesselState, lat: int, lon: int, now: real)
    requires Stands(v)
    ensures Stands(ApplyUngated(v, lat, lon, now))
  {
    hide Stands, Degrees, Available;
    PlacedStands(v, lat, lon);
    if Available(lat, lon) {
      SamePlace(v.(latitude := Degrees(lat), longitude := Degrees(lon)), ApplyUngated(v, lat, lon, now));
    }
  }

  lemma StepStands(v: VesselState, r: Report)
    requires Stands(v)
    ensures Stands(Apply(v, r))
  {
    hide Stands, Field, SignedField, Text, MsgType, VoyageOf, ApplyMotion, ApplyUngated, MotionA, MotionB, Knots;
    var bits, now := r.bits, r.now;
    if Decodable(bits) {
      var t := MsgType(bits);
      var seen := Seen(v, now);
      SamePlace(v, seen);
      if t in {1, 2, 3} {
        SamePlace(v, seen.(status := Field(bits, 38, 4)));
        MotionStands(seen.(status := Field(bits, 38, 4)), MotionA(bits), now);
        SamePlace(ApplyMotion(seen.(status := Field(bits, 38, 4)), MotionA(bits), now), Apply(v, r));
      } else if t == 18 {
        MotionStands(seen, MotionB(bits), now);
      } else if t == 19 {
        var named := seen.(name := Text(bits, 143, 20), shipType := Field(bits, 263, 8));
        SamePlace(v, named);
        MotionStands(named, MotionB(bits), now);
      } else if t in {4, 11} {
        SamePlace(v, seen.(shipType := 0));
        UngatedStands(seen.(shipType := 0), SignedField(bits, 107, 27), SignedField(bits, 79, 28), now);
      } else if t == 9 {
        UngatedStands(seen, SignedField(bits, 89, 27), SignedField(bits, 61, 28), now);
        SamePlace(ApplyUngated(seen, SignedField(bits, 89, 27), SignedField(bits, 61, 28), now), Apply(v, r));
      } else if t == 21 {
        SamePlace(v, seen.(name := Text(bits, 43, 20)));
        UngatedStands(seen.(name := Text(bits, 43, 20)), SignedField(bits, 192, 27), SignedField(bits, 164, 28), now);
      } else {
        SamePlace(v, Apply(v, r));
      }
    }
  }

  /** Over any run of any messages the vessel stands at a position in whole units, as the theorems above ask. */
  lemma {:induction false} RunStands(mmsi: nat, reports: seq<Report>)
    ensures Stands(Run(NewVessel(mmsi), reports))
  {
    hide Apply;
    if reports == [] {
      assert StandsAt(NewVessel(mmsi), 0, 0);
    } else {
      hide Stands;
      RunStands(mmsi, reports[..|reports| - 1]);
      StepStands(Run(NewVessel(mmsi), reports[..|reports| - 1]), reports[|reports| - 1]);
    }
  }

  // ---------- what is decoded at all ----------

  /** The types of message that are decoded, and the bits each needs (ITU-R M.1371-5 Annex 8; type 24 is sent with
      160 bits or more). */
  predicate Heeded(msgType: nat, bits: nat) {
    if msgType in {1, 2, 3, 4, 9, 11, 18} then bits >= 168
    else if msgType == 5 then bits >= 424
    else if msgType == 19 then bits >= 312
    else if msgType == 21 then bits >= 272
    else msgType == 24 && bits >= 160
  }

  /** Everything else changes no vessel: it is counted as a message, or as an error if it has no type. */
  lemma OthersIgnored(st: State, bits: seq<bool>, now: real)
    ensures Decode(st, bits, now).1 <==> |bits| >= 6 && Heeded(Field(bits, 0, 6), |bits|)
    ensures |bits| < 6 ==> Decode(st, bits, now).0 == st.(errCount := st.errCount + 1)
    ensures |bits| >= 6 && !Decode(st, bits, now).1 ==> Decode(st, bits, now).0 == st.(msgCount := st.msgCount + 1)
    ensures var (after, decoded) := Decode(st, bits, now);
            decoded ==>
              && after.msgCount == st.msgCount + 1 && after.errCount == st.errCount && after.fragments == st.fragments
              && after.vessels.Keys == st.vessels.Keys + {Field(bits, 8, 30)}
              && forall k | k in st.vessels && k != Field(bits, 8, 30) :: after.vessels[k] == st.vessels[k]
  {
    hide Field, Update, StateOf;
  }
}
