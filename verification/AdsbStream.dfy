/** Whole streams through the ADS-B decoder. */
module AdsbStream {
  import opened BitStrings
  import opened Sequences
  import opened Options
  import opened BeastFraming
  import opened BeastLoss
  import opened AdsbDecoder
  import opened AircraftTracking
  import Cpr
  import Crc24
  import Geometry

  /** The decoder's state as a value. */
  datatype State = State(rest: seq<byte>, tracking: Tracking, msgCount: nat)

  /** What Feed does, as its contract states it. */
  function FeedState(s: State, data: seq<byte>, now: real): State {
    var p := Parse(s.rest + data);
    State(p.rest, TrackEvents(s.tracking, p.events, now), s.msgCount + Messages(p.events))
  }

  function FeedAll(s: State, chunks: seq<seq<byte>>, now: real): State
    decreases |chunks|
  {
    if chunks == [] then s else FeedAll(FeedState(s, chunks[0], now), chunks[1..], now)
  }

  lemma {:induction false} TrackAppend(t: Tracking, a: seq<Event>, b: seq<Event>, now: real)
    ensures TrackEvents(t, a + b, now) == TrackEvents(TrackEvents(t, a, now), b, now)
    ensures Messages(a + b) == Messages(a) + Messages(b)
    decreases |a|
  {
    hide TrackEvent;
    if a == [] {
      assert a + b == b;
    } else {
      TrackAppend(TrackEvent(t, a[0], now), a[1..], b, now);
      assert (a + b)[1..] == a[1..] + b;
    }
  }

  /** Chunking independence of the whole decoder: for calls at one clock reading, aircraft, counters
      and buffer do not depend on where the stream was cut. */
  lemma {:induction false} DecoderChunking(s: State, chunks: seq<seq<byte>>, now: real)
    requires Settled(s.rest)
    ensures FeedAll(s, chunks, now) == FeedState(s, Concat(chunks), now)
    decreases |chunks|
  {
    hide Parse, TrackEvents, Messages;
    if chunks == [] {
      assert s.rest + Concat(chunks) == s.rest;
      Nothing(s.tracking, now);
    } else {
      var next := FeedState(s, chunks[0], now);
      var others := Concat(chunks[1..]);
      ParseSettles(s.rest + chunks[0]);
      DecoderChunking(next, chunks[1..], now);
      ParseSplit(s.rest + chunks[0], others);
      Regroup(s.rest, chunks[0], others);
      TrackAppend(s.tracking, Parse(s.rest + chunks[0]).events, Parse(next.rest + others).events, now);
    }
  }

  lemma Nothing(t: Tracking, now: real)
    ensures TrackEvents(t, [], now) == t && Messages([]) == 0
  {
  }

  /** The aircraft after handling payloads directly, without any framing. */
  function TrackPayloads(t: Tracking, payloads: seq<seq<byte>>, now: real): Tracking
    decreases |payloads|
  {
    if payloads == [] then t else TrackPayloads(Track(t, payloads[0], now), payloads[1..], now)
  }

  /** Framing errors and other message types change no aircraft. */
  lemma {:induction false} OnlyPayloadsMatter(t: Tracking, u: Tracking, events: seq<Event>, now: real)
    requires t.aircraft == u.aircraft
    ensures TrackEvents(t, events, now).aircraft == TrackPayloads(u, ModeSLong(events), now).aircraft
    decreases |events|
  {
    if events != [] {
      var e := events[0];
      if e.Message? && e.msgType == 0x33 {
        assert ModeSLong(events)[1..] == ModeSLong(events[1..]);
        SameAircraft(t, u, e.payload, now);
        hide Track;
        OnlyPayloadsMatter(Track(t, e.payload, now), Track(u, e.payload, now), events[1..], now);
      } else {
        assert ModeSLong(events) == ModeSLong(events[1..]);
        OnlyPayloadsMatter(TrackEvent(t, e, now), u, events[1..], now);
      }
    }
  }

  lemma SameAircraft(t: Tracking, u: Tracking, payload: seq<byte>, now: real)
    requires t.aircraft == u.aircraft
    ensures Track(t, payload, now).aircraft == Track(u, payload, now).aircraft
  {
    hide Body, Crc24.Accepts;
  }

  /** The framing errors among events. */
  function BadFrames(events: seq<Event>): nat {
    if events == [] then 0 else (if events[0].BadFrame? then 1 else 0) + BadFrames(events[1..])
  }

  /** The messages whose parity or format is wrong. */
  function Refused(payloads: seq<seq<byte>>): nat {
    if payloads == [] then 0
    else (if |payloads[0]| == 14 && !Crc24.Accepts(Crc24.ModeS(), payloads[0]) then 1 else 0) + Refused(payloads[1..])
  }

  /** Every framing error and every refused Mode-S long message is counted once, and nothing else is. */
  lemma {:induction false} ErrorsCounted(t: Tracking, events: seq<Event>, now: real)
    ensures TrackEvents(t, events, now).errCount == t.errCount + BadFrames(events) + Refused(ModeSLong(events))
    decreases |events|
  {
    hide Crc24.Accepts, Body, Crc24.ModeS, StateOf;
    if events != [] {
      ErrorsCounted(TrackEvent(t, events[0], now), events[1..], now);
      var e := events[0];
      if e.Message? && e.msgType == 0x33 {
        assert ModeSLong(events)[1..] == ModeSLong(events[1..]);
      } else {
        assert ModeSLong(events) == ModeSLong(events[1..]);
      }
    }
  }

  lemma {:induction false} SentCounted(items: seq<Item>)
    requires Valid(items) && Uncut(items)
    ensures Messages(Sent(items)) == |items| && BadFrames(Sent(items)) == 0
  {
    if items != [] {
      SentCounted(items[1..]);
      assert Sent(items)[1..] == Sent(items[1..]);
    }
  }

  lemma NothingSettled()
    ensures Settled([])
  {
  }

  /** A stream without cuts, read in any chunks: every message sent is counted once, whatever its type, and the
      errors are the Mode-S long messages whose parity or format is wrong. */
  lemma StreamCounted(s: State, items: seq<Item>, chunks: seq<seq<byte>>, now: real)
    requires s.rest == [] && Valid(items) && Uncut(items) && Concat(chunks) == Stream(items)
    ensures var after := FeedAll(s, chunks, now);
            && after.rest == [] && after.msgCount == s.msgCount + |items|
            && after.tracking.errCount == s.tracking.errCount + Refused(ModeSLong(Sent(items)))
  {
    hide Parse, TrackEvents, Messages, Stream, Valid, Uncut, Refused, BadFrames;
    NothingSettled();
    DecoderChunking(s, chunks, now);
    assert [] + Stream(items) == Stream(items);
    RoundTrip(items);
    SentCounted(items);
    ErrorsCounted(s.tracking, Sent(items), now);
  }

  /** Loss isolation for the tracked aircraft: a stream with messages cut short leaves exactly the
      aircraft that the complete Mode-S long messages alone would have left, for every chunking. */
  lemma LossyStreamTracking(s: State, items: seq<Item>, chunks: seq<seq<byte>>, now: real)
    requires s.rest == [] && Valid(items) && Followed(items) && Concat(chunks) == Stream(items)
    ensures FeedAll(s, chunks, now).tracking.aircraft == TrackPayloads(s.tracking, SentModeSLong(items), now).aircraft
    ensures FeedAll(s, chunks, now).rest == []
  {
    assert Settled([]);
    NothingSettled();
    DecoderChunking(s, chunks, now);
    assert [] + Stream(items) == Stream(items);
    LossIsolation(items);
    OnlyPayloadsMatter(s.tracking, s.tracking, Parse(Stream(items)).events, now);
  }

  // ---------- the history of one aircraft ----------

  datatype Heard = Heard(payload: seq<byte>, now: real)

  function TrackAll(t: Tracking, heard: seq<Heard>): Tracking {
    if heard == [] then t
    else Track(TrackAll(t, heard[..|heard| - 1]), heard[|heard| - 1].payload, heard[|heard| - 1].now)
  }

  /** The position report in a Mode-S long message, if it is an accepted one from this aircraft. */
  function ReportIn(h: Heard, icao: nat): seq<Report> {
    if |h.payload| != 14 || !Crc24.Accepts(Crc24.ModeS(), h.payload) || h.payload[0] / 8 !in {17, 18} || IcaoOf(h.payload) != icao then []
    else
      var tc := h.payload[4] / 8;
      if 5 <= tc <= 8 then [Report(true, h.payload[4..], h.now)]
      else if 9 <= tc <= 18 || 20 <= tc <= 22 then [Report(false, h.payload[4..], h.now)]
      else []
  }

  function ReportsOf(heard: seq<Heard>, icao: nat): seq<Report> {
    if heard == [] then [] else ReportsOf(heard[..|heard| - 1], icao) + ReportIn(heard[|heard| - 1], icao)
  }

  lemma AttemptApart(ac: AircraftState, ground: bool, lat: real, lon: real, isOdd: bool, now: real, seen: real)
    ensures Attempt(ac.(lastSeen := seen), ground, lat, lon, isOdd, now) == Attempt(ac, ground, lat, lon, isOdd, now)
  {
    hide Cpr.DecodeCPRGlobal, Cpr.DecodeCPRLocal, Cpr.DecodeCPRSurfaceLocal, Cpr.DecodeCPRSurfaceGlobal, Cpr.Abs;
    hide Geometry.Hop, MaxJump;
    SamePlace(ac, seen);
  }

  lemma SamePlace(ac: AircraftState, seen: real)
    ensures Here(ac.(lastSeen := seen)) == Here(ac)
    ensures forall fix: Cpr.Fix, now | fix.Fix? :: ValidatePosition(ac.(lastSeen := seen), fix, now) == ValidatePosition(ac, fix, now)
  {
    hide Geometry.Hop, MaxJump;
  }

  lemma LocateApart(ac: AircraftState, ground: bool, me: seq<byte>, now: real, seen: real)
    requires |me| >= 7
    ensures AircraftTracking.Locate(ac.(lastSeen := seen), ground, me, now)
         == AircraftTracking.Locate(ac, ground, me, now).(lastSeen := seen)
  {
    hide LatField, LonField, OddFlag, Attempt;
    var stored := StoreReport(ac, LatField(me), LonField(me), OddFlag(me), now);
    AttemptApart(stored, ground, LatField(me), LonField(me), OddFlag(me), now, seen);
    assert StoreReport(ac.(lastSeen := seen), LatField(me), LonField(me), OddFlag(me), now) == stored.(lastSeen := seen);
  }

  /** When an aircraft was last seen has no effect on its position. */
  lemma LastSeenApart(ac: AircraftState, r: Report, seen: real)
    ensures Apply(ac.(lastSeen := seen), r) == Apply(ac, r).(lastSeen := seen)
  {
    hide AircraftTracking.Locate, Altitude, ValidAltitude;
    if |r.me| >= 7 {
      var ground := ac.(onGround := true, altitude := 0, msgCount := ac.msgCount + 1);
      var air := ac.(altitude := Altitude(r.me), msgCount := ac.msgCount + 1);
      LocateApart(ground, true, r.me, r.now, seen);
      LocateApart(air, false, r.me, r.now, seen);
      assert ac.(lastSeen := seen).(onGround := true, altitude := 0, msgCount := ac.msgCount + 1) == ground.(lastSeen := seen);
      assert ac.(lastSeen := seen).(altitude := Altitude(r.me), msgCount := ac.msgCount + 1) == air.(lastSeen := seen);
    }
  }

  function Unseen(ac: AircraftState): AircraftState {
    ac.(lastSeen := 0.0)
  }

  lemma TrackStep(t: Tracking, h: Heard, icao: nat)
    ensures var before, after := StateOf(t.aircraft, icao), StateOf(Track(t, h.payload, h.now).aircraft, icao);
            Unseen(after) == if ReportIn(h, icao) == [] then Unseen(before) else Apply(Unseen(before), ReportIn(h, icao)[0])
  {
    hide Crc24.Accepts, Crc24.ModeS, IcaoOf, AirbornePosition, SurfacePosition;
    var before := StateOf(t.aircraft, icao);
    if ReportIn(h, icao) != [] {
      LastSeenApart(before, ReportIn(h, icao)[0], h.now);
      LastSeenApart(before, ReportIn(h, icao)[0], 0.0);
    }
  }

  /** The tracked state of an aircraft is the run of its own accepted position reports, whatever else
      was heard. */
  lemma {:induction false} AircraftHistory(t: Tracking, heard: seq<Heard>, icao: nat)
    requires icao !in t.aircraft
    ensures Unseen(StateOf(TrackAll(t, heard).aircraft, icao)) == Run(NewAircraft(icao), ReportsOf(heard, icao))
  {
    if heard != [] {
      hide Track, StateOf, ReportIn, Apply, NewAircraft;
      var front, last := heard[..|heard| - 1], heard[|heard| - 1];
      AircraftHistory(t, front, icao);
      TrackStep(TrackAll(t, front), last, icao);
      AtMostOne(last, icao);
      RunOneMore(NewAircraft(icao), ReportsOf(front, icao), ReportIn(last, icao));
    }
  }

  lemma AtMostOne(h: Heard, icao: nat)
    ensures |ReportIn(h, icao)| <= 1
  {
    hide Crc24.Accepts, Crc24.ModeS, IcaoOf;
  }

  lemma RunOneMore(ac: AircraftState, reports: seq<Report>, more: seq<Report>)
    requires |more| <= 1
    ensures Run(ac, reports + more) == if more == [] then Run(ac, reports) else Apply(Run(ac, reports), more[0])
  {
    hide Apply;
    if more == [] {
      assert reports + more == reports;
    } else {
      assert (reports + more)[..|reports|] == reports;
    }
  }

  // ---------- calls of Feed, each at its own time ----------

  datatype Call = Call(data: seq<byte>, now: real)

  function FeedEach(s: State, calls: seq<Call>): State {
    if calls == [] then s
    else FeedState(FeedEach(s, calls[..|calls| - 1]), calls[|calls| - 1].data, calls[|calls| - 1].now)
  }

  function Stamped(payloads: seq<seq<byte>>, now: real): seq<Heard> {
    if payloads == [] then []
    else Stamped(payloads[..|payloads| - 1], now) + [Heard(payloads[|payloads| - 1], now)]
  }

  /** The Mode-S long messages that a call completes, at the time of that call. */
  function HeardOf(s: State, calls: seq<Call>): seq<Heard> {
    if calls == [] then []
    else
      var front, last := calls[..|calls| - 1], calls[|calls| - 1];
      HeardOf(s, front) + Stamped(ModeSLong(Parse(FeedEach(s, front).rest + last.data).events), last.now)
  }

  lemma {:induction false} PayloadLast(t: Tracking, payloads: seq<seq<byte>>, last: seq<byte>, now: real)
    ensures TrackPayloads(t, payloads + [last], now) == Track(TrackPayloads(t, payloads, now), last, now)
    decreases |payloads|
  {
    hide Track;
    if payloads == [] {
      assert [last][1..] == [];
      assert payloads + [last] == [last];
    } else {
      assert (payloads + [last])[1..] == payloads[1..] + [last];
      PayloadLast(Track(t, payloads[0], now), payloads[1..], last, now);
    }
  }

  lemma {:induction false} TrackStamped(t: Tracking, heard: seq<Heard>, payloads: seq<seq<byte>>, now: real)
    ensures TrackAll(t, heard + Stamped(payloads, now)) == TrackPayloads(TrackAll(t, heard), payloads, now)
  {
    hide Track;
    if payloads == [] {
      assert heard + Stamped(payloads, now) == heard;
    } else {
      var front, last := payloads[..|payloads| - 1], payloads[|payloads| - 1];
      TrackStamped(t, heard, front, now);
      assert payloads == front + [last];
      PayloadLast(TrackAll(t, heard), front, last, now);
      var all := heard + Stamped(payloads, now);
      assert all == (heard + Stamped(front, now)) + [Heard(last, now)];
      assert all[..|all| - 1] == heard + Stamped(front, now);
    }
  }

  /** The tracked aircraft after any calls of Feed are those of the completed messages, each handled at the
      time of the call that completed it. */
  lemma {:induction false} FeedsTrack(s: State, calls: seq<Call>)
    ensures FeedEach(s, calls).tracking.aircraft == TrackAll(s.tracking, HeardOf(s, calls)).aircraft
  {
    if calls != [] {
      hide Parse, Track, TrackAll, TrackEvents, TrackPayloads, Stamped, ModeSLong;
      var front, last := calls[..|calls| - 1], calls[|calls| - 1];
      var before := FeedEach(s, front);
      var events := Parse(before.rest + last.data).events;
      FeedsTrack(s, front);
      OnlyPayloadsMatter(before.tracking, TrackAll(s.tracking, HeardOf(s, front)), events, last.now);
      TrackStamped(s.tracking, HeardOf(s, front), ModeSLong(events), last.now);
    } else {
      Unheard(s.tracking);
    }
  }

  lemma Unheard(t: Tracking)
    ensures TrackAll(t, []) == t
  {
  }

  /** Run safety of whatever the decoder tracks: after any calls of Feed with any bytes, each at its own
      clock reading, the position of an aircraft is the last of a series of fixes between the poles, each
      within the gate of the one before. */
  lemma TrackedSafety(s: State, calls: seq<Call>, icao: nat)
    requires icao !in s.tracking.aircraft
    ensures var ac := StateOf(FeedEach(s, calls).tracking.aircraft, icao);
            var fixes := Fixes(NewAircraft(icao), ReportsOf(HeardOf(s, calls), icao));
            && Geometry.Track(MaxJump, fixes)
            && (forall i | 0 <= i < |fixes| :: -90.0 <= fixes[i].lat <= 90.0)
            && (ac.posValid <==> fixes != [])
            && (fixes != [] ==> Here(ac) == fixes[|fixes| - 1])
  {
    hide Run, Fixes, TrackAll, FeedEach, HeardOf, StateOf, ReportsOf;
    FeedsTrack(s, calls);
    AircraftHistory(s.tracking, HeardOf(s, calls), icao);
    RunSafety(icao, ReportsOf(HeardOf(s, calls), icao));
  }
}
