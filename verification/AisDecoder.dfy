/** The AIS decoder: vessels, pending fragments and counters, changed line by line. */
module AisDecoder {
  import opened BitStrings
  import opened AisBits
  import opened Nmea
  import opened Options
  import opened Sequences
  import opened VesselTracking

  // ---------- what a line does, on values ----------

  datatype State = State(
    vessels: map<nat, VesselState>, fragments: map<string, seq<string>>, msgCount: nat, errCount: nat)

  /** The name under which the fragments of a message are collected. */
  function Key(s: Sentence): string
    requires s.total > 1
  {
    if s.seqId == "" then "_" + Decimal(s.total) else s.seqId
  }

  datatype Assembly = Waiting | Orphan | Complete(payload: string)

  /** A sentence on its own is complete; a part of a longer message is added to the parts before it. */
  function Assemble(fragments: map<string, seq<string>>, s: Sentence): (map<string, seq<string>>, Assembly) {
    if s.total <= 1 then (fragments, Complete(s.payload))
    else if s.num != 1 && Key(s) !in fragments then (fragments, Orphan)
    else
      var parts := (if s.num == 1 then [] else fragments[Key(s)]) + [s.payload];
      if s.num < s.total then (fragments[Key(s) := parts], Waiting)
      else (fragments - {Key(s)}, Complete(Concat(parts)))
  }

  function StateOf(vessels: map<nat, VesselState>, mmsi: nat): VesselState {
    if mmsi in vessels then vessels[mmsi] else NewVessel(mmsi)
  }

  function Decode(st: State, bits: seq<bool>, now: real): (State, bool) {
    if |bits| < 6 then (st.(errCount := st.errCount + 1), false)
    else
      var counted := st.(msgCount := st.msgCount + 1);
      if !Decodable(bits) then (counted, false)
      else (counted.(vessels := st.vessels[Mmsi(bits) := Update(StateOf(st.vessels, Mmsi(bits)), bits, now)]), true)
  }

  function FeedSentence(st: State, s: Sentence, now: real): (State, bool) {
    var (fragments, assembly) := Assemble(st.fragments, s);
    match assembly
    case Waiting => (st.(fragments := fragments), false)
    case Orphan => (st.(fragments := fragments, errCount := st.errCount + 1), false)
    case Complete(payload) => Decode(st.(fragments := fragments), DecodedBits(payload, s.fill), now)
  }

  function Feed(st: State, line: string, now: real): (State, bool) {
    match ParseLine(line)
    case Ignored => (st, false)
    case Damaged => (st.(errCount := st.errCount + 1), false)
    case Parsed(s) => FeedSentence(st, s, now)
  }

  // ---------- reading the fields of a message ----------

  method ReadText(bits: seq<bool>, start: nat, numBits: nat) returns (text: string)
    ensures text == Text(bits, start, numBits / 6)
  {
    var s := BitsToString(bits, start, numBits);
    return TrimPadding(s);
  }

  method ReadClassA(bits: seq<bool>) returns (status: nat, rot: int, m: Motion)
    requires |bits| >= 168
    ensures status == Field(bits, 38, 4) && rot == SignedField(bits, 42, 8) && m == MotionA(bits)
  {
    hide Field, SignedField;
    status := BitsToUint(bits, 38, 4);
    rot := BitsToInt(bits, 42, 8);
    var sog := BitsToUint(bits, 50, 10);
    var lonRaw := BitsToInt(bits, 61, 28);
    var latRaw := BitsToInt(bits, 89, 27);
    var cog := BitsToUint(bits, 116, 12);
    var heading := BitsToUint(bits, 128, 9);
    m := Motion(sog, lonRaw, latRaw, cog, heading);
  }

  method ReadClassB(bits: seq<bool>) returns (m: Motion)
    requires |bits| >= 168
    ensures m == MotionB(bits)
  {
    hide Field, SignedField;
    var sog := BitsToUint(bits, 46, 10);
    var lonRaw := BitsToInt(bits, 57, 28);
    var latRaw := BitsToInt(bits, 85, 27);
    var cog := BitsToUint(bits, 112, 12);
    var heading := BitsToUint(bits, 124, 9);
    m := Motion(sog, lonRaw, latRaw, cog, heading);
  }

  method ReadVoyage(bits: seq<bool>) returns (d: Voyage)
    requires |bits| >= 424
    ensures d == VoyageOf(bits)
  {
    hide Field, Text;
    var imo := BitsToUint(bits, 40, 30);
    var callsign := ReadText(bits, 70, 42);
    var name := ReadText(bits, 112, 120);
    var shipType := BitsToUint(bits, 232, 8);
    var dimA := BitsToUint(bits, 240, 9);
    var dimB := BitsToUint(bits, 249, 9);
    var dimC := BitsToUint(bits, 258, 6);
    var dimD := BitsToUint(bits, 264, 6);
    var draught := BitsToUint(bits, 294, 8);
    var dest := ReadText(bits, 302, 120);
    d := Voyage(imo, callsign, name, shipType, dimA, dimB, dimC, dimD, draught, dest);
  }

  // ---------- vessels ----------

  class Vessel {
    const mmsi: nat
    var name: string
    var callsign: string
    var imo: nat
    var shipType: nat
    var latitude: real
    var longitude: real
    var speed: real
    var course: real
    var heading: real
    var rot: real
    var status: nat
    var lastSeen: real
    var lastPosTime: real
    var posValid: bool
    var draught: real
    var destination: string
    var dimA: nat
    var dimB: nat
    var dimC: nat
    var dimD: nat
    var msgCount: nat

    constructor (mmsi: nat)
      ensures State() == NewVessel(mmsi)
    {
      this.mmsi := mmsi;
      name, callsign, imo, shipType := "", "", 0, 0;
      latitude, longitude, speed, course, heading, rot, status := 0.0, 0.0, 0.0, 0.0, 0.0, 0.0, 0;
      lastSeen, lastPosTime, posValid := 0.0, 0.0, false;
      draught, destination, dimA, dimB, dimC, dimD, msgCount := 0.0, "", 0, 0, 0, 0, 0;
    }

    ghost function State(): VesselState
      reads this
    {
      VesselState(mmsi, name, callsign, imo, shipType, latitude, longitude, speed, course, heading, rot, status,
                  lastSeen, lastPosTime, posValid, draught, destination, dimA, dimB, dimC, dimD, msgCount)
    }

    method SetName(name: string)
      modifies this
      ensures State() == old(State()).(name := name)
    {
      this.name := name;
    }

    method SetCallsign(callsign: string)
      modifies this
      ensures State() == old(State()).(callsign := callsign)
    {
      this.callsign := callsign;
    }

    method SetShipType(shipType: nat)
      modifies this
      ensures State() == old(State()).(shipType := shipType)
    {
      this.shipType := shipType;
    }

    method Touch(now: real)
      modifies this
      ensures State() == Seen(old(State()), now)
    {
      lastSeen := now;
      msgCount := msgCount + 1;
    }

    predicate JumpOk(lat: real, lon: real, now: real)
      reads this
      ensures JumpOk(lat, lon, now) == JumpAllowed(State(), lat, lon, now)
    {
      if posValid && lastPosTime != 0.0 && now - lastPosTime < 300.0 then
        var (dLat, dLon) := (lat - latitude, lon - longitude);
        dLat * dLat + dLon * dLon <= 0.33 * 0.33
      else true
    }

    predicate SogOk(knots: real)
      reads this
      ensures SogOk(knots) == SpeedPlausible(knots, State().shipType)
    {
      var sogOK := knots < 0.0 || knots <= 102.0;
      if sogOK && knots >= 0.0 && 60 <= shipType <= 89 then knots <= 50.0 else sogOK
    }

    method SetPosition(lat: real, lon: real, now: real)
      modifies this
      ensures State() == old(State()).(latitude := lat, longitude := lon, posValid := true, lastPosTime := now)
    {
      latitude, longitude, posValid, lastPosTime := lat, lon, true, now;
    }

    method SetSpeed(knots: real)
      modifies this
      ensures State() == old(State()).(speed := knots)
    {
      speed := knots;
    }

    /** The position and speed part of a report, behind its checks. */
    method Move(m: Motion, now: real)
      modifies this
      ensures State() == ApplySpeed(ApplyPosition(old(State()), m, now), m)
    {
      hide State, JumpOk, SogOk, JumpAllowed, Degrees, Available, SpeedPlausible, Knots;
      var sogKnots := Knots(m.sog);
      if Available(m.latRaw, m.lonRaw) {
        var sogOK := SogOk(sogKnots);
        var posAccepted := JumpOk(Degrees(m.latRaw), Degrees(m.lonRaw), now);
        if posAccepted && sogOK {
          SetPosition(Degrees(m.latRaw), Degrees(m.lonRaw), now);
        }
        if sogOK && sogKnots >= 0.0 {
          SetSpeed(sogKnots);
        }
      }
    }

    method SetCourse(cog: nat)
      modifies this
      ensures State() == ApplyCourse(old(State()), cog)
    {
      if cog != 3600 {
        course := cog as real / 10.0;
      }
    }

    method Turn(cog: nat, heading: nat)
      modifies this
      ensures State() == ApplyHeading(ApplyCourse(old(State()), cog), heading)
    {
      SetCourse(cog);
      if heading != 511 {
        this.heading := heading as real;
      }
    }

    method DecodePositionClassA(bits: seq<bool>, now: real)
      requires |bits| >= 168
      modifies this
      ensures State() == PositionClassA(old(State()), bits, now)
    {
      hide Field, SignedField, ApplyPosition, ApplySpeed, ApplyCourse, ApplyHeading;
      var status, rot, m := ReadClassA(bits);
      Touch(now);
      this.status := status;
      Move(m, now);
      Turn(m.cog, m.heading);
      if rot != -128 {
        this.rot := rot as real;
      }
    }

    method MoveClassB(bits: seq<bool>, now: real)
      requires |bits| >= 168
      modifies this
      ensures State() == ApplyMotion(old(State()), MotionB(bits), now)
    {
      hide MotionB, ApplyPosition, ApplySpeed, ApplyCourse, ApplyHeading;
      var m := ReadClassB(bits);
      Move(m, now);
      Turn(m.cog, m.heading);
    }

    method DecodePositionClassB(bits: seq<bool>, now: real)
      requires |bits| >= 168
      modifies this
      ensures State() == PositionClassB(old(State()), bits, now)
    {
      hide MotionB, ApplyMotion;
      Touch(now);
      MoveClassB(bits, now);
    }

    method DecodePositionClassBExtended(bits: seq<bool>, now: real)
      requires |bits| >= 312
      modifies this
      ensures State() == PositionClassBExtended(old(State()), bits, now)
    {
      hide State, MotionB, ApplyMotion, Field, Text;
      var name := ReadText(bits, 143, 120);
      var shipType := BitsToUint(bits, 263, 8);
      Touch(now);
      SetName(name);
      SetShipType(shipType);
      MoveClassB(bits, now);
    }

    method DecodeStaticVoyage(bits: seq<bool>, now: real)
      requires |bits| >= 424
      modifies this
      ensures State() == StaticVoyage(old(State()), bits, now)
    {
      hide State, VoyageOf;
      var d := ReadVoyage(bits);
      Touch(now);
      SetIdentity(d.imo, d.callsign, d.name, d.shipType);
      SetDimensions(d.dimA, d.dimB, d.dimC, d.dimD);
      SetVoyage(d.draught as real / 10.0, d.destination);
    }

    method SetIdentity(imo: nat, callsign: string, name: string, shipType: nat)
      modifies this
      ensures State() == old(State()).(imo := imo, callsign := callsign, name := name, shipType := shipType)
    {
      this.imo, this.callsign, this.name, this.shipType := imo, callsign, name, shipType;
    }

    method SetDimensions(dimA: nat, dimB: nat, dimC: nat, dimD: nat)
      modifies this
      ensures State() == old(State()).(dimA := dimA, dimB := dimB, dimC := dimC, dimD := dimD)
    {
      this.dimA, this.dimB, this.dimC, this.dimD := dimA, dimB, dimC, dimD;
    }

    method SetVoyage(draught: real, destination: string)
      modifies this
      ensures State() == old(State()).(draught := draught, destination := destination)
    {
      this.draught, this.destination := draught, destination;
    }

    method DecodeStaticClassB(bits: seq<bool>, now: real)
      requires |bits| >= 160
      modifies this
      ensures State() == StaticClassB(old(State()), bits, now)
    {
      hide State, Field, Text;
      var partNum := BitsToUint(bits, 38, 2);
      Touch(now);
      if partNum == 0 {
        var name := ReadText(bits, 40, 120);
        SetName(name);
      } else if partNum == 1 && |bits| >= 168 {
        var shipType := BitsToUint(bits, 40, 8);
        var callsign := ReadText(bits, 90, 42);
        SetShipType(shipType);
        SetCallsign(callsign);
      }
    }

    method Place(lonRaw: int, latRaw: int, now: real)
      modifies this
      ensures State() == ApplyUngated(old(State()), latRaw, lonRaw, now)
    {
      hide State, Available, Degrees;
      if Available(latRaw, lonRaw) {
        SetPosition(Degrees(latRaw), Degrees(lonRaw), now);
      }
    }

    method DecodeBaseStation(bits: seq<bool>, now: real)
      requires |bits| >= 168
      modifies this
      ensures State() == BaseStation(old(State()), bits, now)
    {
      hide State, SignedField, ApplyUngated;
      var lonRaw := BitsToInt(bits, 79, 28);
      var latRaw := BitsToInt(bits, 107, 27);
      Touch(now);
      SetShipType(0);
      Place(lonRaw, latRaw, now);
    }

    method DecodeSarPosition(bits: seq<bool>, now: real)
      requires |bits| >= 168
      modifies this
      ensures State() == SarPosition(old(State()), bits, now)
    {
      hide State, Field, SignedField, ApplyUngated, Knots, ApplyCourse;
      var sog := BitsToUint(bits, 50, 10);
      var lonRaw := BitsToInt(bits, 61, 28);
      var latRaw := BitsToInt(bits, 89, 27);
      var cog := BitsToUint(bits, 116, 12);
      Touch(now);
      Place(lonRaw, latRaw, now);
      if Knots(sog) >= 0.0 {
        SetSpeed(Knots(sog));
      }
      SetCourse(cog);
    }

    method DecodeAtoN(bits: seq<bool>, now: real)
      requires |bits| >= 272
      modifies this
      ensures State() == AtoN(old(State()), bits, now)
    {
      hide State, SignedField, ApplyUngated, Text;
      var name := ReadText(bits, 43, 120);
      var lonRaw := BitsToInt(bits, 164, 28);
      var latRaw := BitsToInt(bits, 192, 27);
      Touch(now);
      SetName(name);
      Place(lonRaw, latRaw, now);
    }

    method Apply(msgType: nat, bits: seq<bool>, now: real)
      requires msgType == MsgType(bits) && Decodable(bits)
      modifies this
      ensures State() == Update(old(State()), bits, now)
    {
      hide MsgType, PositionClassA, BaseStation, StaticVoyage, SarPosition, PositionClassB, PositionClassBExtended, AtoN, StaticClassB;
      match msgType {
        case 1 | 2 | 3 => DecodePositionClassA(bits, now);
        case 4 | 11 => DecodeBaseStation(bits, now);
        case 5 => DecodeStaticVoyage(bits, now);
        case 9 => DecodeSarPosition(bits, now);
        case 18 => DecodePositionClassB(bits, now);
        case 19 => DecodePositionClassBExtended(bits, now);
        case 21 => DecodeAtoN(bits, now);
        case _ => DecodeStaticClassB(bits, now);
      }
    }
  }

  // ---------- the decoder ----------

  class Decoder {
    var vessels: map<nat, Vessel>
    var fragments: map<string, seq<string>>
    var msgCount: nat
    var errCount: nat

    /** Every vessel is filed under its own number. */
    ghost predicate Valid()
      reads this`vessels
    {
      forall k | k in vessels :: vessels[k].mmsi == k
    }

    ghost function View(): map<nat, VesselState>
      reads this`vessels, vessels.Values
    {
      map k | k in vessels :: vessels[k].State()
    }

    ghost function Now(): State
      reads this, vessels.Values
    {
      State(View(), fragments, msgCount, errCount)
    }

    constructor ()
      ensures Valid() && Now() == State(map[], map[], 0, 0)
    {
      vessels, fragments, msgCount, errCount := map[], map[], 0, 0;
    }

    /** The vessel with this number, added to the map if it is new. */
    method Lookup(mmsi: nat) returns (v: Vessel)
      requires Valid()
      modifies this`vessels
      ensures Valid() && mmsi in vessels && vessels[mmsi] == v
      ensures fresh(vessels.Values - old(vessels.Values)) && v in vessels.Values && v.mmsi == mmsi
      ensures v.State() == StateOf(old(View()), mmsi) && View() == old(View())[mmsi := v.State()]
    {
      if mmsi in vessels {
        v := vessels[mmsi];
      } else {
        v := new Vessel(mmsi);
        vessels := vessels[mmsi := v];
      }
      assert View() == old(View())[mmsi := v.State()];
    }

    /** Applies a message to one vessel; the others keep their state. */
    method UpdateVessel(v: Vessel, msgType: nat, bits: seq<bool>, now: real)
      requires Valid() && v.mmsi in vessels && vessels[v.mmsi] == v && msgType == MsgType(bits) && Decodable(bits)
      modifies v
      ensures View() == old(View())[v.mmsi := Update(old(v.State()), bits, now)]
    {
      hide Update, Decodable;
      v.Apply(msgType, bits, now);
    }

    method UpdateMmsi(mmsi: nat, msgType: nat, bits: seq<bool>, now: real)
      requires Valid() && msgType == MsgType(bits) && Decodable(bits)
      modifies this`vessels, vessels.Values
      ensures Valid() && fresh(vessels.Values - old(vessels.Values))
      ensures View() == old(View())[mmsi := Update(StateOf(old(View()), mmsi), bits, now)]
    {
      hide Update, StateOf, View, Decodable;
      var v := Lookup(mmsi);
      UpdateVessel(v, msgType, bits, now);
    }

    /** Decodes one complete message. */
    method DecodeMessage(payload: string, fillBits: int, now: real) returns (decoded: bool)
      requires Valid()
      modifies this`vessels, this`msgCount, this`errCount, vessels.Values
      ensures Valid() && fresh(vessels.Values - old(vessels.Values))
      ensures (Now(), decoded) == Decode(old(Now()), DecodedBits(payload, fillBits), now)
    {
      hide Update, StateOf, View, Field, DecodedBits, Decodable, Valid;
      var bits := DecodeSixBit(payload, fillBits);
      if |bits| < 6 {
        errCount := errCount + 1;
        return false;
      }
      var msgType := BitsToUint(bits, 0, 6);
      msgCount := msgCount + 1;
      var known := Decodes(msgType, bits);
      if !known {
        return false;
      }
      var mmsi := BitsToUint(bits, 8, 30);
      UpdateMmsi(mmsi, msgType, bits, now);
      return true;
    }

    /** Whether there is a decoder for the type and the message is long enough for it. */
    method Decodes(msgType: nat, bits: seq<bool>) returns (known: bool)
      requires msgType == MsgType(bits)
      ensures known == Decodable(bits)
    {
      hide MsgType;
      var minBits := MinBits(msgType);
      return minBits.Some? && |bits| >= minBits.value;
    }

    /** The multi-sentence part of FeedLine: the message's payload once all its parts are there. */
    method Collect(s: Sentence) returns (assembly: Assembly)
      modifies this`fragments
      ensures (fragments, assembly) == Assemble(old(fragments), s)
    {
      hide Decimal, Concat;
      if s.total <= 1 {
        return Complete(s.payload);
      }
      var key := if s.seqId == "" then "_" + Decimal(s.total) else s.seqId;
      if s.num == 1 {
        fragments := fragments[key := [s.payload]];
      } else {
        if key !in fragments {
          return Orphan;
        }
        fragments := fragments[key := fragments[key] + [s.payload]];
      }
      assert [] + [s.payload] == [s.payload];
      if s.num < s.total {
        return Waiting;
      }
      var parts := fragments[key];
      fragments := fragments - {key};
      assert fragments == old(fragments) - {key};
      return Complete(Concat(parts));
    }

    /** Processes one line; true if a message was decoded. */
    method FeedLine(line: string, now: real) returns (decoded: bool)
      requires Valid()
      modifies this, vessels.Values
      ensures Valid() && fresh(vessels.Values - old(vessels.Values))
      ensures (Now(), decoded) == Feed(old(Now()), line, now)
    {
      hide Decode, View, Valid, Assemble, DecodedBits, TrimSpace, ChecksumOk, Split, Atoi;
      var trimmed := TrimSpace(line);
      if |trimmed| == 0 {
        return false;
      }
      if !("!AIVDM" <= trimmed) && !("!AIVDO" <= trimmed) {
        return false;
      }
      var ok := VerifyChecksum(trimmed);
      if !ok {
        errCount := errCount + 1;
        return false;
      }
      var parts := Split(trimmed, ',');
      if |parts| < 7 {
        errCount := errCount + 1;
        return false;
      }
      var s := Sentence(Atoi(parts[1]), Atoi(parts[2]), parts[3], parts[5], Atoi(Split(parts[6], '*')[0]));
      var assembly := Collect(s);
      match assembly {
        case Waiting =>
          return false;
        case Orphan =>
          errCount := errCount + 1;
          return false;
        case Complete(payload) =>
          decoded := DecodeMessage(payload, s.fill, now);
      }
    }
  }
}
