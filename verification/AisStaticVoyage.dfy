/** Static and voyage data from end to end: the fields of a ship are packed, armoured, split into
    sentences, and what the decoder stores are the same fields. */
module AisStaticVoyage {
  import opened BitStrings
  import opened AisBits
  import opened AisBroadcast
  import opened AisDecoder
  import opened AisPacking
  import opened AisReassembly
  import opened AisStream
  import opened Nmea
  import opened Options
  import opened Sequences
  import opened VesselTracking

  /** The fields of a type 5 message, as ITU-R M.1371-5, Annex 8, section 3.3 lists them. */
  datatype Ship = Ship(
    repeatInd: nat, mmsi: nat, version: nat, imo: nat, callsign: string, name: string, shipType: nat,
    dimA: nat, dimB: nat, dimC: nat, dimD: nat, fixType: nat, eta: nat, draught: nat, destination: string,
    dte: nat, spare: nat)

  predicate Encodable(s: Ship) {
    && s.repeatInd < Pow2(2) && s.mmsi < Pow2(30) && s.version < Pow2(2) && s.imo < Pow2(30)
    && InAlphabet(s.callsign) && |s.callsign| == 7 && InAlphabet(s.name) && |s.name| == 20
    && s.shipType < Pow2(8) && s.dimA < Pow2(9) && s.dimB < Pow2(9) && s.dimC < Pow2(6) && s.dimD < Pow2(6)
    && s.fixType < Pow2(4) && s.eta < Pow2(20) && s.draught < Pow2(8)
    && InAlphabet(s.destination) && |s.destination| == 20 && s.dte < Pow2(1) && s.spare < Pow2(1)
  }

  function Parts(s: Ship): (parts: seq<seq<bool>>)
    requires Encodable(s)
    ensures |parts| == 18
  {
    [Bits(5, 6), Bits(s.repeatInd, 2), Bits(s.mmsi, 30), Bits(s.version, 2), Bits(s.imo, 30),
     TextBits(s.callsign), TextBits(s.name), Bits(s.shipType, 8),
     Bits(s.dimA, 9), Bits(s.dimB, 9), Bits(s.dimC, 6), Bits(s.dimD, 6), Bits(s.fixType, 4), Bits(s.eta, 20),
     Bits(s.draught, 8), TextBits(s.destination), Bits(s.dte, 1), Bits(s.spare, 1)]
  }

  // ---------- where the fields lie ----------

  lemma Layout(s: Ship)
    requires Encodable(s)
    ensures var p := Parts(s);
            && Offset(p, 1) == 6 && Offset(p, 2) == 8 && Offset(p, 3) == 38 && Offset(p, 4) == 40 && Offset(p, 5) == 70
            && Offset(p, 6) == 112 && Offset(p, 7) == 232 && Offset(p, 8) == 240 && Offset(p, 9) == 249
            && Offset(p, 10) == 258 && Offset(p, 11) == 264 && Offset(p, 12) == 270 && Offset(p, 13) == 274
            && Offset(p, 14) == 294 && Offset(p, 15) == 302 && Offset(p, 16) == 422 && Offset(p, 17) == 423
            && Offset(p, 18) == 424 && |Concat(p)| == 424
  {
    hide Bits, TextBits, Concat, Pow2, InAlphabet;
    ConcatLength(Parts(s));
  }

  function Pack(s: Ship): (bits: seq<bool>)
    requires Encodable(s)
    ensures |bits| == 424
  {
    Layout(s);
    Concat(Parts(s))
  }

  lemma HeaderFields(s: Ship)
    requires Encodable(s)
    ensures MsgType(Pack(s)) == 5 && Mmsi(Pack(s)) == s.mmsi && Field(Pack(s), 40, 30) == s.imo
    ensures |Pack(s)| == 424 && Decodable(Pack(s))
  {
    hide Field, Bits, TextBits, InAlphabet;
    Layout(s);
    assert 5 < Pow2(6) by { assert Pow2(6) == 64; }
    hide Pow2;
    NumberAt(Parts(s), 0, 0, 5, 6);
    NumberAt(Parts(s), 2, 8, s.mmsi, 30);
    NumberAt(Parts(s), 4, 40, s.imo, 30);
  }

  lemma ShipFields(s: Ship)
    requires Encodable(s)
    ensures var p := Pack(s);
            && Field(p, 232, 8) == s.shipType && Field(p, 240, 9) == s.dimA && Field(p, 249, 9) == s.dimB
            && Field(p, 258, 6) == s.dimC && Field(p, 264, 6) == s.dimD && Field(p, 294, 8) == s.draught
  {
    hide Field, Bits, TextBits, InAlphabet, Pow2, Offset;
    Layout(s);
    NumberAt(Parts(s), 7, 232, s.shipType, 8);
    NumberAt(Parts(s), 8, 240, s.dimA, 9);
    NumberAt(Parts(s), 9, 249, s.dimB, 9);
    NumberAt(Parts(s), 10, 258, s.dimC, 6);
    NumberAt(Parts(s), 11, 264, s.dimD, 6);
    NumberAt(Parts(s), 14, 294, s.draught, 8);
  }

  lemma TextFields(s: Ship)
    requires Encodable(s)
    ensures var p := Pack(s);
            Letters(p, 70, 7) == s.callsign && Letters(p, 112, 20) == s.name && Letters(p, 302, 20) == s.destination
  {
    hide Letters, Bits, TextBits, InAlphabet, Pow2, Offset;
    Layout(s);
    TextAt(Parts(s), 5, 70, s.callsign);
    TextAt(Parts(s), 6, 112, s.name);
    TextAt(Parts(s), 15, 302, s.destination);
  }

  /** What a receiver should store: the ship's own fields, texts without their padding. */
  function Declared(s: Ship): Voyage {
    Voyage(s.imo, TrimPadding(s.callsign), TrimPadding(s.name), s.shipType,
           s.dimA, s.dimB, s.dimC, s.dimD, s.draught, TrimPadding(s.destination))
  }

  /** Packing round trip: the fields read from its bits are those of the ship. */
  lemma PackRoundTrip(s: Ship)
    requires Encodable(s)
    ensures Decodable(Pack(s)) && VoyageOf(Pack(s)) == Declared(s)
  {
    hide Letters, Field, Pack, Encodable, TrimPadding, Decodable;
    HeaderFields(s);
    ShipFields(s);
    TextFields(s);
  }

  // ---------- lines ----------

  /** The state after a complete static and voyage message. */
  /** The vessel with the ship's fields: texts without padding, the draught in metres. */
  function Described(v: VesselState, s: Ship, now: real): VesselState {
    v.(lastSeen := now, msgCount := v.msgCount + 1,
       imo := s.imo, callsign := TrimPadding(s.callsign), name := TrimPadding(s.name), shipType := s.shipType,
       dimA := s.dimA, dimB := s.dimB, dimC := s.dimC, dimD := s.dimD,
       draught := s.draught as real / 10.0, destination := TrimPadding(s.destination))
  }

  function Stored(st: State, s: Ship, now: real): State {
    st.(msgCount := st.msgCount + 1,
        vessels := st.vessels[s.mmsi := Described(StateOf(st.vessels, s.mmsi), s, now)])
  }

  lemma DeclaredIsDescribed(v: VesselState, s: Ship, now: real)
    ensures ApplyVoyage(Seen(v, now), Declared(s)) == Described(v, s, now)
  {
    hide TrimPadding;
  }

  lemma DecodePacked(st: State, s: Ship, now: real)
    requires Encodable(s)
    ensures Decode(st, Pack(s), now) == (Stored(st, s, now), true)
  {
    hide Pack, Encodable, Declared, VoyageOf, ApplyVoyage, Described, Decodable, MsgType, Mmsi;
    DeclaredIsDescribed(StateOf(st.vessels, s.mmsi), s, now);
    HeaderFields(s);
    PackRoundTrip(s);
  }

  lemma PayloadLength(bits: seq<bool>)
    requires |bits| == 424
    ensures |Payload(bits)| == 71
  {
    hide Armour;
  }

  /** End to end: a ship's static and voyage data, armoured, cut anywhere into any number of pieces and
      written as sentences, makes only the last line report a message, after which the decoder holds
      exactly the ship's fields and no part of the message. */
  lemma ShipHeard(st: State, lines: seq<Heard>, s: Ship, pieces: seq<string>, seqId: string, channel: string)
    requires Encodable(s) && 0 < |pieces| < INT_LIMIT && Concat(pieces) == Payload(Pack(s))
    requires Plain(seqId) && Plain(channel) && Written(lines, pieces, seqId, 2, channel)
    ensures |Payload(Pack(s))| == 71
    ensures var n := |pieces| - 1;
            && Results(st, lines) == Silent(n) + [true]
            && FeedAll(st, lines) == Stored(Dropped(st, |pieces|, seqId), s, lines[n].now)
  {
    hide Encodable, Pack, FeedAll, Results, Stored, Dropped, Plain, Concat, Payload, Decode, Silent, Format;
    HeaderFields(s);
    PayloadLength(Pack(s));
    Broadcast(st, lines, Pack(s), pieces, seqId, channel);
    DecodePacked(Dropped(st, |pieces|, seqId), s, lines[|pieces| - 1].now);
  }

  /** The same with other lines before and between the parts: when the last part of a ship's message comes
      in, the decoder stores exactly the ship's fields. */
  lemma ShipHeardAmongOthers(st: State, lines: seq<Heard>, last: Heard, s: Ship, group: seq<Sentence>, key: string)
    requires Encodable(s) && InOrder(group, key) && Concat(Payloads(group)) == Payload(Pack(s)) && group[|group| - 1].fill == 2
    requires Own(SentencesOf(lines), Some(key)) == group[..|group| - 1]
    requires ParseLine(last.line) == Parsed(group[|group| - 1])
    ensures var before := FeedAll(st, lines);
            Feed(before, last.line, last.now) == (Stored(before.(fragments := before.fragments - {key}), s, last.now), true)
  {
    hide Encodable, Pack, Feed, FeedAll, Stored, Concat, Payload, Decode, SentencesOf, Own, ParseLine, Payloads;
    HeaderFields(s);
    LastPartDecodes(st, lines, last, Pack(s), group, key);
    DecodePacked(FeedAll(st, lines).(fragments := FeedAll(st, lines).fragments - {key}), s, last.now);
  }
}
