/** The ADS-B decoder: a buffer of undecoded bytes, the tracked aircraft and the counters, changed in
    place by Feed and by the message decoders it calls. */
module AdsbDecoder {
  import opened BitStrings
  import opened Sequences
  import opened Options
  import opened AircraftTracking
  import BeastFraming
  import BeastLoss
  import Crc24
  import Geometry
  import Cpr

  class Aircraft {
    const icao: nat
    var latitude: real
    var longitude: real
    var altitude: int
    var onGround: bool
    var lastSeen: real
    var lastPosTime: real
    var posValid: bool
    var hasOdd: bool
    var hasEven: bool
    var oddLat: real
    var oddLon: real
    var evenLat: real
    var evenLon: real
    var oddTime: real
    var evenTime: real
    var msgCount: nat
    var posCount: nat

    constructor (icao: nat)
      ensures State() == NewAircraft(icao)
    {
      this.icao := icao;
      latitude, longitude, altitude, onGround := 0.0, 0.0, 0, false;
      lastSeen, lastPosTime, posValid := 0.0, 0.0, false;
      hasOdd, hasEven := false, false;
      oddLat, oddLon, evenLat, evenLon, oddTime, evenTime := 0.0, 0.0, 0.0, 0.0, 0.0, 0.0;
      msgCount, posCount := 0, 0;
    }

    ghost function State(): AircraftState
      reads this
    {
      AircraftState(icao, latitude, longitude, altitude, onGround, lastSeen, lastPosTime, posValid,
                    hasOdd, hasEven, oddLat, oddLon, evenLat, evenLon, oddTime, evenTime, msgCount, posCount)
    }

    predicate PositionAllowed(fix: Cpr.Fix, now: real)
      requires fix.Fix?
      reads this
      ensures PositionAllowed(fix, now) == ValidatePosition(State(), fix, now)
      ensures PositionAllowed(fix, now) <==> !posValid || Allowed(Here(State()), Geometry.Position(fix.lat, fix.lon, now))
    {
      var (dt, dLat, dLon) := (now - lastPosTime, fix.lat - latitude, fix.lon - longitude);
      var maxDist := MaxJump(dt);
      var allowed := !posValid || dLat * dLat + dLon * dLon <= maxDist * maxDist;
      assert allowed == ValidatePosition(State(), fix, now);
      GateInNumbers(Here(State()), Geometry.Position(fix.lat, fix.lon, now));
      allowed
    }

    method StoreCpr(lat: real, lon: real, isOdd: bool, now: real)
      modifies this
      ensures State() == StoreReport(old(State()), lat, lon, isOdd, now)
    {
      if isOdd {
        oddLat, oddLon, hasOdd, oddTime := lat, lon, true, now;
      } else {
        evenLat, evenLon, hasEven, evenTime := lat, lon, true, now;
      }
    }

    /** Local decode once there is a position, global decode when that fails, both behind the gate. */
    method TryDecode(ground: bool, lat: real, lon: real, isOdd: bool, now: real) returns (fix: Cpr.Fix)
      ensures fix == Attempt(State(), ground, lat, lon, isOdd, now)
    {
      hide Cpr.DecodeCPRSurfaceLocal, Cpr.DecodeCPRLocal, Cpr.DecodeCPRSurfaceGlobal, Cpr.DecodeCPRGlobal;
      hide PositionAllowed;
      fix := Cpr.NoFix;
      if posValid {
        fix := if ground then Cpr.DecodeCPRSurfaceLocal(latitude, longitude, lat, lon, isOdd)
               else Cpr.DecodeCPRLocal(latitude, longitude, lat, lon, isOdd);
        if fix.Fix? && !PositionAllowed(fix, now) {
          fix := Cpr.NoFix;
        }
      }
      if fix.NoFix? && hasEven && hasOdd {
        var timeDiff := evenTime - oddTime;
        if timeDiff < 0.0 {
          timeDiff := -timeDiff;
        }
        if timeDiff < 10.0 {
          fix := if ground then Cpr.DecodeCPRSurfaceGlobal(evenLat, evenLon, oddLat, oddLon, isOdd)
                 else Cpr.DecodeCPRGlobal(evenLat, evenLon, oddLat, oddLon, isOdd);
          if fix.Fix? && posValid && !PositionAllowed(fix, now) {
            fix := Cpr.NoFix;
          }
        }
      }
    }

    method Locate(ground: bool, me: seq<byte>, now: real)
      requires |me| >= 7
      modifies this
      ensures State() == AircraftTracking.Locate(old(State()), ground, me, now)
    {
      hide LatField, LonField, OddFlag, StoreReport, Attempt;
      StoreCpr(LatField(me), LonField(me), OddFlag(me), now);
      var fix := TryDecode(ground, LatField(me), LonField(me), OddFlag(me), now);
      if fix.Fix? {
        latitude, longitude, posValid, lastPosTime, posCount := fix.lat, fix.lon, true, now, posCount + 1;
      }
    }

    method DecodeAirbornePosition(me: seq<byte>, now: real)
      modifies this
      ensures State() == AirbornePosition(old(State()), me, now)
    {
      hide AircraftTracking.Locate, Altitude;
      if |me| < 7 || !ValidAltitude(Altitude(me)) {
        return;
      }
      altitude, msgCount := Altitude(me), msgCount + 1;
      Locate(false, me, now);
    }

    method DecodeSurfacePosition(me: seq<byte>, now: real)
      modifies this
      ensures State() == SurfacePosition(old(State()), me, now)
    {
      hide AircraftTracking.Locate;
      if |me| < 7 {
        return;
      }
      onGround, altitude, msgCount := true, 0, msgCount + 1;
      Locate(true, me, now);
    }
  }

  // ---------- what a message does to the tracked aircraft, on values ----------

  datatype Tracking = Tracking(aircraft: map<nat, AircraftState>, errCount: nat)

  function IcaoOf(payload: seq<byte>): nat
    requires |payload| == 14
  {
    payload[1] as int * 65536 + payload[2] as int * 256 + payload[3] as int
  }

  /** The effect of the message body on its aircraft, by type code; identification and velocity do
      not touch the fields of this model. */
  function Body(ac: AircraftState, me: seq<byte>, now: real): AircraftState
    requires |me| > 0
  {
    var tc := me[0] / 8;
    if 5 <= tc <= 8 then SurfacePosition(ac, me, now)
    else if 9 <= tc <= 18 || 20 <= tc <= 22 then AirbornePosition(ac, me, now)
    else ac
  }

  function StateOf(aircraft: map<nat, AircraftState>, icao: nat): AircraftState {
    if icao in aircraft then aircraft[icao] else NewAircraft(icao)
  }

  function Track(t: Tracking, payload: seq<byte>, now: real): Tracking {
    if |payload| != 14 then t
    else if !Crc24.Accepts(Crc24.ModeS(), payload) then t.(errCount := t.errCount + 1)
    else if payload[0] / 8 != 17 && payload[0] / 8 != 18 then t
    else
      var icao := IcaoOf(payload);
      var ac := StateOf(t.aircraft, icao);
      t.(aircraft := t.aircraft[icao := Body(ac.(lastSeen := now), payload[4..], now)])
  }

  function TrackEvent(t: Tracking, event: BeastFraming.Event, now: real): Tracking {
    match event
    case Unknown => t
    case BadFrame => t.(errCount := t.errCount + 1)
    case Message(msgType, payload) => if msgType == 0x33 then Track(t, payload, now) else t
  }

  function TrackEvents(t: Tracking, events: seq<BeastFraming.Event>, now: real): Tracking
    decreases |events|
  {
    if events == [] then t else TrackEvents(TrackEvent(t, events[0], now), events[1..], now)
  }

  function Messages(events: seq<BeastFraming.Event>): nat {
    if events == [] then 0 else (if events[0].Message? then 1 else 0) + Messages(events[1..])
  }

  // ---------- the decoder ----------

  class Decoder {
    const table: seq<seq<bool>>
    var aircraft: map<nat, Aircraft>
    var buf: seq<byte>
    var msgCount: nat
    var errCount: nat

    /** The table is the CRC table and every aircraft is filed under its own address. */
    ghost predicate Valid()
      reads this`aircraft
    {
      && Crc24.IsTable(Crc24.ModeS(), table)
      && forall k | k in aircraft :: aircraft[k].icao == k
    }

    ghost function View(): map<nat, AircraftState>
      reads this`aircraft, aircraft.Values
    {
      map k | k in aircraft :: aircraft[k].State()
    }

    ghost function Now(): (t: Tracking)
      reads this`aircraft, this`errCount, aircraft.Values
    {
      Tracking(View(), errCount)
    }

    constructor (table: seq<seq<bool>>)
      requires Crc24.IsTable(Crc24.ModeS(), table)
      ensures Valid() && Now() == Tracking(map[], 0) && buf == [] && msgCount == 0 && this.table == table
    {
      this.table := table;
      aircraft, buf, msgCount, errCount := map[], [], 0, 0;
    }

    /** The aircraft with this address, added to the map if it is new. */
    method Lookup(icao: nat) returns (ac: Aircraft)
      requires Valid()
      modifies this`aircraft
      ensures Valid() && icao in aircraft && aircraft[icao] == ac
      ensures fresh(aircraft.Values - old(aircraft.Values)) && ac in aircraft.Values && ac.icao == icao
      ensures ac.State() == StateOf(old(View()), icao) && View() == old(View())[icao := ac.State()]
    {
      if icao in aircraft {
        ac := aircraft[icao];
      } else {
        ac := new Aircraft(icao);
        aircraft := aircraft[icao := ac];
      }
      assert View() == old(View())[icao := ac.State()];
    }

    /** Applies a message body to one aircraft; the others keep their state. */
    method Update(ac: Aircraft, me: seq<byte>, now: real)
      requires Valid() && ac.icao in aircraft && aircraft[ac.icao] == ac && |me| > 0
      modifies ac
      ensures View() == old(View())[ac.icao := Body(old(ac.State()).(lastSeen := now), me, now)]
    {
      hide Body;
      ac.lastSeen := now;
      DecodeBody(ac, me, now);
    }

    method UpdateAddress(icao: nat, me: seq<byte>, now: real)
      requires Valid() && |me| > 0
      modifies this`aircraft, aircraft.Values
      ensures Valid() && fresh(aircraft.Values - old(aircraft.Values))
      ensures View() == old(View())[icao := Body(StateOf(old(View()), icao).(lastSeen := now), me, now)]
    {
      hide Body, StateOf, View;
      var ac := Lookup(icao);
      Update(ac, me, now);
    }

    method DecodeModeSLong(payload: seq<byte>, now: real)
      requires Valid() && |payload| == 14
      modifies this`aircraft, this`errCount, aircraft.Values
      ensures Valid() && fresh(aircraft.Values - old(aircraft.Values))
      ensures Now() == Track(old(Now()), payload, now)
    {
      hide Body, Crc24.Accepts, Crc24.Crc, Crc24.Parity, Crc24.ModeS, Crc24.IsTable, StateOf, View, IcaoOf;
      var valid, _ := Crc24.ValidateCRC(Crc24.ModeS(), table, payload);
      if !valid {
        errCount := errCount + 1;
        return;
      }
      var df := payload[0] / 8;
      if df != 17 && df != 18 {
        return;
      }
      UpdateAddress(IcaoOf(payload), payload[4..], now);
    }

    method DecodeBody(ac: Aircraft, me: seq<byte>, now: real)
      requires |me| > 0
      modifies ac
      ensures ac.State() == Body(old(ac.State()), me, now)
    {
      hide SurfacePosition, AirbornePosition;
      var tc := me[0] / 8;
      if 5 <= tc <= 8 {
        ac.DecodeSurfacePosition(me, now);
      } else if 9 <= tc <= 18 {
        ac.DecodeAirbornePosition(me, now);
      } else if 20 <= tc <= 22 {
        ac.DecodeAirbornePosition(me, now);
      }
    }

    /** The index of the first marker in the buffer, or -1. */
    method FindMarker() returns (startIdx: int)
      ensures match BeastFraming.FindStart(buf)
              case None => startIdx == -1
              case Some(start) => startIdx == start
    {
      for i := 0 to |buf|
        invariant BeastFraming.FindStart(buf) == ShiftStart(BeastFraming.FindStart(buf[i..]), i)
      {
        assert buf[i..][1..] == buf[i + 1..];
        if buf[i] == BeastFraming.ESC && i + 1 < |buf| && buf[i + 1] != BeastFraming.ESC {
          return i;
        }
      }
      return -1;
    }

    /** Removes escape doubling, up to the next marker. */
    method Unescape(raw: seq<byte>) returns (result: seq<byte>)
      ensures result == BeastFraming.Unescape(raw)
    {
      result := [];
      var i := 0;
      if |raw| > 0 && raw[0] == BeastFraming.ESC {
        result := [raw[0]];
        i := 1;
      }
      while i < |raw|
        invariant 0 <= i <= |raw|
        invariant result + BeastFraming.Unstuff(raw[i..]) == BeastFraming.Unescape(raw)
      {
        if raw[i] == BeastFraming.ESC {
          if i + 1 < |raw| && raw[i + 1] == BeastFraming.ESC {
            assert raw[i..][2..] == raw[i + 2..];
            Regroup(result, [BeastFraming.ESC], BeastFraming.Unstuff(raw[i + 2..]));
            result := result + [BeastFraming.ESC];
            i := i + 2;
          } else {
            break;
          }
        } else {
          assert raw[i..][1..] == raw[i + 1..];
          Regroup(result, [raw[i]], BeastFraming.Unstuff(raw[i + 1..]));
          result := result + [raw[i]];
          i := i + 1;
        }
      }
    }

    /** How many raw bytes of the buffer carry one message of minLen bytes. */
    method FindConsumed(minLen: nat) returns (consumed: nat)
      requires BeastFraming.AtMarker(buf) && minLen > 0
      ensures consumed == 1 + BeastFraming.RawLength(buf[1..], minLen - 1) <= |buf|
    {
      consumed := 0;
      var dataBytes := 0;
      var first := true;
      while consumed < |buf| && dataBytes < minLen
        invariant 0 <= consumed <= |buf| && 0 <= dataBytes <= minLen
        invariant first <==> consumed == 0
        invariant first ==> dataBytes == 0
        invariant !first ==>
          (dataBytes > 0 && 1 + BeastFraming.RawLength(buf[1..], minLen - 1)
                         == consumed + BeastFraming.RawLength(buf[consumed..], minLen - dataBytes))
      {
        assert buf[consumed..][1..] == buf[consumed + 1..];
        if buf[consumed] == BeastFraming.ESC && !first {
          if consumed + 1 < |buf| && buf[consumed + 1] == BeastFraming.ESC {
            assert buf[consumed..][2..] == buf[consumed + 2..];
            consumed := consumed + 2;
            dataBytes := dataBytes + 1;
            continue;
          }
          break;
        }
        first := false;
        consumed := consumed + 1;
        dataBytes := dataBytes + 1;
      }
    }

    method CountError()
      requires Valid()
      modifies this`errCount
      ensures Valid() && Now() == old(Now()).(errCount := old(Now()).errCount + 1)
    {
      errCount := errCount + 1;
    }

    /** One pass of the loop in Feed, the buffer having been advanced to a marker: false means that
        more data is needed. */
    method DecodeFrame(now: real) returns (progress: bool, decoded: nat)
      requires Valid() && BeastFraming.AtMarker(buf)
      modifies this, aircraft.Values
      ensures Valid() && fresh(aircraft.Values - old(aircraft.Values))
      ensures progress == BeastFraming.Step(old(buf)).Next?
      ensures !progress ==> buf == old(buf) && Now() == old(Now()) && msgCount == old(msgCount) && decoded == 0
      ensures progress ==>
        var step := BeastFraming.Step(old(buf));
        && buf == step.rest
        && Now() == TrackEvent(old(Now()), step.event, now)
        && msgCount == old(msgCount) + Messages([step.event])
        && decoded == |BeastLoss.ModeSLong([step.event])|
    {
      hide Track, Now, Valid, BeastFraming.Unescape, BeastFraming.RawLength;
      var msgType := buf[1];
      var length := BeastFraming.PayloadLen(msgType);
      if length.None? {
        buf := buf[1..];
        return true, 0;
      }
      var minLen := 2 + 6 + 1 + length.value;
      if |buf| < minLen {
        return false, 0;
      }
      var endIdx := if minLen * 2 > |buf| then |buf| else minLen * 2;
      var frame := Unescape(buf[..endIdx]);
      if |frame| < minLen {
        if |buf| < minLen * 2 {
          return false, 0;
        }
        buf := buf[1..];
        CountError();
        return true, 0;
      }
      var payload := frame[9..minLen];
      var consumed := FindConsumed(minLen);
      buf := buf[consumed..];
      decoded := 0;
      if msgType == 0x33 {
        DecodeModeSLong(payload, now);
        decoded := 1;
      }
      msgCount := msgCount + 1;
      return true, decoded;
    }

    /** Pushes raw bytes into the decoder and returns the number of Mode-S long messages decoded. */
    method Feed(data: seq<byte>, now: real) returns (decoded: nat)
      requires Valid()
      modifies this, aircraft.Values
      ensures Valid() && fresh(aircraft.Values - old(aircraft.Values))
      ensures var p := BeastFraming.Parse(old(buf) + data);
              && buf == p.rest
              && Now() == TrackEvents(old(Now()), p.events, now)
              && msgCount == old(msgCount) + Messages(p.events)
              && decoded == |BeastLoss.ModeSLong(p.events)|
    {
      hide Now, TrackEvent, BeastFraming.Step, BeastFraming.Parse, BeastFraming.FindStart, Valid;
      buf := buf + data;
      decoded := 0;
      ghost var all := BeastFraming.Parse(buf);
      while true
        invariant Valid() && fresh(aircraft.Values - old(aircraft.Values))
        invariant BeastFraming.Parse(buf).rest == all.rest
        invariant TrackEvents(Now(), BeastFraming.Parse(buf).events, now) == TrackEvents(old(Now()), all.events, now)
        invariant msgCount + Messages(BeastFraming.Parse(buf).events) == old(msgCount) + Messages(all.events)
        invariant decoded + |BeastLoss.ModeSLong(BeastFraming.Parse(buf).events)| == |BeastLoss.ModeSLong(all.events)|
        decreases |buf|
      {
        var startIdx := FindMarker();
        if startIdx < 0 {
          NoMarker(buf);
          break;
        }
        BeastFraming.ParseFromStart(buf);
        buf := buf[startIdx..];
        BeastFraming.ParseStep(buf);
        ghost var step := BeastFraming.Step(buf);
        var progress, n := DecodeFrame(now);
        if !progress {
          break;
        }
        FirstEvent(step.event, BeastFraming.Parse(step.rest).events);
        decoded := decoded + n;
      }
    }

    /** Drops the aircraft not seen for sixty seconds; the others stay as they are. */
    method PruneStale(now: real) returns (pruned: nat)
      requires Valid()
      modifies this`aircraft
      ensures Valid()
      ensures forall k :: k in aircraft <==> k in old(aircraft) && old(aircraft)[k].lastSeen >= now - 60.0
      ensures forall k | k in aircraft :: aircraft[k] == old(aircraft)[k]
      ensures pruned == |old(aircraft)| - |aircraft|
    {
      pruned := 0;
      var cutoff := now - 60.0;
      var keys := aircraft.Keys;
      ghost var was := aircraft;
      while keys != {}
        invariant keys <= aircraft.Keys <= was.Keys
        invariant forall k | k in aircraft :: aircraft[k] == was[k]
        invariant forall k | k in was :: k in aircraft <==> k in keys || was[k].lastSeen >= cutoff
        invariant pruned == |was| - |aircraft|
        decreases |keys|
      {
        var icao :| icao in keys;
        if aircraft[icao].lastSeen < cutoff {
          Removed(aircraft, icao);
          aircraft := aircraft - {icao};
          pruned := pruned + 1;
        }
        keys := keys - {icao};
      }
    }
  }

  lemma Removed<K, V>(m: map<K, V>, k: K)
    requires k in m
    ensures |m - {k}| == |m| - 1
  {
    assert (m - {k}).Keys == m.Keys - {k};
  }

  lemma NoMarker(buf: seq<byte>)
    requires BeastFraming.FindStart(buf).None?
    ensures BeastFraming.Parse(buf) == BeastFraming.Parsed([], buf)
  {
  }

  lemma FirstEvent(event: BeastFraming.Event, events: seq<BeastFraming.Event>)
    ensures forall t, now :: TrackEvents(t, [event] + events, now) == TrackEvents(TrackEvent(t, event, now), events, now)
    ensures Messages([event] + events) == Messages([event]) + Messages(events)
    ensures |BeastLoss.ModeSLong([event] + events)| == |BeastLoss.ModeSLong([event])| + |BeastLoss.ModeSLong(events)|
  {
    assert ([event] + events)[1..] == events;
    assert [event][1..] == [];
  }

  function ShiftStart(start: Option<nat>, offset: nat): Option<nat> {
    match start
    case None => None
    case Some(i) => Some(i + offset)
  }
}
