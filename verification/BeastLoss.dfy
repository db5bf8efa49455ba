/** What a stream of Beast messages, some of them cut short in transit, comes to at the other end. */
module BeastLoss {
  import opened BitStrings
  import opened Sequences
  import opened Options
  import opened BeastFraming

  // ---------- the sender ----------

  // the escape byte of the Beast protocol
  const ESCAPE: byte := 0x1A

  /** The messages of the protocol by their type byte: '1' Mode-AC, '2' Mode-S short, '3' Mode-S long and
      '4' receiver status, with so many data bytes behind six of timestamp and one of signal level. */
  function SentLength(msgType: byte): (n: Option<nat>)
    ensures n.Some? ==> 9 <= n.value <= 21
  {
    if msgType == 0x31 then Some(7 + 2)
    else if msgType == 0x32 then Some(7 + 7)
    else if msgType == 0x33 then Some(7 + 14)
    else if msgType == 0x34 then Some(7 + 14)
    else None
  }

  function Escape(data: seq<byte>): (raw: seq<byte>)
    ensures |data| <= |raw| <= 2 * |data|
  {
    if data == [] then []
    else (if data[0] == ESCAPE then [ESCAPE, ESCAPE] else [data[0]]) + Escape(data[1..])
  }

  /** A message on the wire, or the front part of one. */
  function Wire(msgType: byte, data: seq<byte>): (raw: seq<byte>) {
    [ESCAPE, msgType] + Escape(data)
  }

  /** The sender's messages: data is timestamp, signal level and payload. A cut message lost
      everything after some data byte. */
  datatype Item = Whole(msgType: byte, data: seq<byte>) | Cut(msgType: byte, data: seq<byte>)

  predicate Valid(items: seq<Item>) {
    forall k | 0 <= k < |items| :: ValidItem(items[k])
  }

  predicate Uncut(items: seq<Item>) {
    forall k | 0 <= k < |items| :: items[k].Whole?
  }

  predicate ValidItem(item: Item) {
    && SentLength(item.msgType).Some?
    && (if item.Whole? then |item.data| == SentLength(item.msgType).value else |item.data| < SentLength(item.msgType).value)
  }

  function Stream(items: seq<Item>): (raw: seq<byte>) {
    if items == [] then [] else Wire(items[0].msgType, items[0].data) + Stream(items[1..])
  }

  /** The payloads handed to decodeModeSLong. */
  function ModeSLong(events: seq<Event>): (payloads: seq<seq<byte>>) {
    if events == [] then []
    else
      (if events[0].Message? && events[0].msgType == 0x33 then [events[0].payload] else [])
      + ModeSLong(events[1..])
  }

  function SentModeSLong(items: seq<Item>): (payloads: seq<seq<byte>>) {
    if items == [] then []
    else
      (if items[0].Whole? && items[0].msgType == 0x33 && |items[0].data| >= 7 then [items[0].data[7..]] else [])
      + SentModeSLong(items[1..])
  }

  /** The framer knows exactly these messages, and their lengths with marker and type byte. */
  lemma SameMessages(msgType: byte)
    ensures Known(msgType) <==> SentLength(msgType).Some?
    ensures Known(msgType) ==> MinLen(msgType) == 2 + SentLength(msgType).value && msgType != ESC
    ensures ESCAPE == ESC
  {
  }

  lemma UnstuffPlain(b: byte, raw: seq<byte>)
    requires b != ESC
    ensures Unstuff([b] + raw) == [b] + Unstuff(raw)
  {
    assert ([b] + raw)[1..] == raw;
  }

  lemma UnstuffPair(raw: seq<byte>)
    ensures Unstuff([ESC, ESC] + raw) == [ESC] + Unstuff(raw)
  {
    assert ([ESC, ESC] + raw)[2..] == raw;
  }

  lemma {:induction false} UnstuffEscape(data: seq<byte>, tail: seq<byte>)
    requires tail == [] || AtMarker(tail)
    ensures Unstuff(Escape(data) + tail) == data
  {
    if data == [] {
      assert Escape(data) + tail == tail;
    } else {
      var b, after := data[0], Escape(data[1..]) + tail;
      UnstuffEscape(data[1..], tail);
      assert data == [b] + data[1..];
      if b == ESC {
        Regroup([ESC, ESC], Escape(data[1..]), tail);
        UnstuffPair(after);
      } else {
        Regroup([b], Escape(data[1..]), tail);
        UnstuffPlain(b, after);
      }
    }
  }

  lemma {:induction false} RawLengthEscape(data: seq<byte>)
    ensures RawLength(Escape(data), |data|) == |Escape(data)|
  {
    if data != [] {
      var raw := Escape(data);
      RawLengthEscape(data[1..]);
      if data[0] == ESC {
        assert raw[2..] == Escape(data[1..]);
      } else {
        assert raw[1..] == Escape(data[1..]);
      }
    }
  }

  lemma UnescapeMarker(rest: seq<byte>)
    ensures Unescape([ESC] + rest) == [ESC] + Unstuff(rest)
  {
    assert ([ESC] + rest)[1..] == rest;
  }

  lemma UnescapeWire(msgType: byte, data: seq<byte>, tail: seq<byte>)
    requires msgType != ESC
    requires tail == [] || AtMarker(tail)
    ensures Unescape(Wire(msgType, data) + tail) == [ESC, msgType] + data
  {
    hide Escape, Unescape, Unstuff;
    var rest := [msgType] + (Escape(data) + tail);
    assert Wire(msgType, data) + tail == [ESC] + rest;
    UnescapeMarker(rest);
    UnstuffPlain(msgType, Escape(data) + tail);
    UnstuffEscape(data, tail);
    Regroup([ESC], [msgType], data);
  }

  lemma WireLength(msgType: byte, data: seq<byte>)
    requires msgType != ESC
    ensures 1 + RawLength(Wire(msgType, data)[1..], |data| + 1) == |Wire(msgType, data)|
  {
    var raw := Wire(msgType, data)[1..];
    assert raw == [msgType] + Escape(data);
    assert raw[1..] == Escape(data);
    RawLengthEscape(data);
  }

  /** A marker with any other type byte is skipped: only its first byte is consumed. */
  lemma OtherTypeSkipped(buf: seq<byte>)
    requires AtMarker(buf) && buf[1] !in {0x31, 0x32, 0x33, 0x34}
    ensures var p := Parse(buf[1..]); Parse(buf) == Parsed([Unknown] + p.events, p.rest)
  {
    hide Parse;
    SameMessages(buf[1]);
    ParseStep(buf);
  }

  /** A complete message is decoded at once, and exactly it is consumed. */
  lemma WholeStep(msgType: byte, data: seq<byte>, tail: seq<byte>)
    requires SentLength(msgType) == Some(|data|)
    ensures var p := Parse(tail);
            Parse(Wire(msgType, data) + tail) == Parsed([Message(msgType, data[7..])] + p.events, p.rest)
  {
    hide Escape, Unescape, RawLength, Step, Parse;
    SameMessages(msgType);
    var front := Wire(msgType, data);
    var frame := [ESC, msgType] + data;
    assert Unescape(front) == frame by { UnescapeWire(msgType, data, []); assert front + [] == front; }
    FrameStep(front, tail);
    assert frame[9..MinLen(msgType)] == data[7..];
    WireLength(msgType, data);
    assert (front + tail)[|front|..] == tail;
    ParseStep(front + tail);
  }

  lemma EscapePlain(b: byte, data: seq<byte>)
    requires b != ESC
    ensures Escape([b] + data) == [b] + Escape(data)
  {
    assert ([b] + data)[1..] == data;
  }

  /** Dropping the marker leaves the type byte in front of the data, all of it escaped. */
  lemma WireTail(msgType: byte, data: seq<byte>, tail: seq<byte>)
    requires msgType != ESC
    ensures (Wire(msgType, data) + tail)[1..] == Escape([msgType] + data) + tail
  {
    EscapePlain(msgType, data);
    hide Escape;
    assert Wire(msgType, data) == [ESC] + ([msgType] + Escape(data));
    Regroup([ESC], [msgType] + Escape(data), tail);
  }

  /** However much of it the framer looks at, a cut message does not unescape to a full frame. */
  lemma CutIsShort(msgType: byte, data: seq<byte>, tail: seq<byte>, n: nat)
    requires msgType != ESC && AtMarker(tail)
    requires 0 < n <= |Wire(msgType, data) + tail|
    ensures |Unescape((Wire(msgType, data) + tail)[..n])| <= 2 + |data|
  {
    var buf := Wire(msgType, data) + tail;
    assert buf == buf[..n] + buf[n..];
    UnescapePrefix(buf[..n], buf[n..]);
    UnescapeWire(msgType, data, tail);
  }

  /** Exactly when a cut message is recognised: once twice its own length is in the buffer the next marker
      gives it away and only its own marker is dropped; until then the framer waits. */
  lemma CutDecided(msgType: byte, data: seq<byte>, tail: seq<byte>)
    requires SentLength(msgType).Some? && |data| < SentLength(msgType).value && AtMarker(tail)
    ensures var buf := Wire(msgType, data) + tail;
            AtMarker(buf) && Step(buf) == if |buf| < 2 * (2 + SentLength(msgType).value) then Wait else Next(BadFrame, buf[1..])
  {
    SameMessages(msgType);
    var buf := Wire(msgType, data) + tail;
    var minLen := MinLen(msgType);
    assert AtMarker(buf) && buf[1] == msgType;
    CutIsShort(msgType, data, tail, Window(buf, minLen));
    hide Unescape, Escape, RawLength, Wire;
    if |buf| >= 2 * minLen {
      ShortStep(buf);
    }
  }

  /** A cut message with twice its own length in the buffer: it is reported, and what follows its marker
      is parsed next. */
  lemma CutStep(msgType: byte, data: seq<byte>, tail: seq<byte>)
    requires SentLength(msgType).Some? && |data| < SentLength(msgType).value
    requires AtMarker(tail) && |Wire(msgType, data) + tail| >= 2 * (2 + SentLength(msgType).value)
    ensures var p := Parse(Escape([msgType] + data) + tail);
            Parse(Wire(msgType, data) + tail) == Parsed([BadFrame] + p.events, p.rest)
  {
    hide Parse, Step, Escape, Wire;
    SameMessages(msgType);
    CutDecided(msgType, data, tail);
    WireTail(msgType, data, tail);
    assert AtMarker(Wire(msgType, data) + tail) by { WireAtMarker(msgType, data, tail); }
    ParseStep(Wire(msgType, data) + tail);
  }

  /** With less, the cut message is not yet recognised, and the complete messages behind it are held back
      as well. */
  lemma HeldBack(msgType: byte, data: seq<byte>, tail: seq<byte>)
    requires SentLength(msgType).Some? && |data| < SentLength(msgType).value
    requires AtMarker(tail) && |Wire(msgType, data) + tail| < 2 * (2 + SentLength(msgType).value)
    ensures Parse(Wire(msgType, data) + tail) == Parsed([], Wire(msgType, data) + tail)
  {
    hide Parse, Step, Escape, Wire;
    SameMessages(msgType);
    CutDecided(msgType, data, tail);
    assert AtMarker(Wire(msgType, data) + tail) by { WireAtMarker(msgType, data, tail); }
    ParseStep(Wire(msgType, data) + tail);
  }

  lemma WireAtMarker(msgType: byte, data: seq<byte>, tail: seq<byte>)
    requires msgType != ESC
    ensures AtMarker(Wire(msgType, data) + tail)
  {
  }

  /** Bytes in front of a later marker that do not form one are skipped. */
  lemma SkipByte(b: byte, tail: seq<byte>)
    requires FindStart(tail).Some?
    requires !AtMarker([b] + tail)
    ensures Parse([b] + tail) == Parse(tail)
  {
    var buf := [b] + tail;
    assert buf[1..] == tail;
    var i := FindStart(tail).value;
    assert buf[i + 1..] == tail[i..];
  }

  lemma {:induction false} StartAhead(front: seq<byte>, tail: seq<byte>)
    requires AtMarker(tail)
    ensures FindStart(front + tail).Some?
  {
    if front == [] {
      assert front + tail == tail;
    } else {
      StartAhead(front[1..], tail);
      assert (front + tail)[1..] == front[1..] + tail;
    }
  }

  /** The remains of a cut message: some of its escaped bytes may look like a marker and even frame
      a shorter message type, but never a Mode-S long message, and never past the next real marker. */
  lemma {:induction false} RemainsAreHarmless(data: seq<byte>, tail: seq<byte>)
    requires |data| <= 22
    requires AtMarker(tail) && |tail| >= 46
    ensures ModeSLong(Parse(Escape(data) + tail).events) == ModeSLong(Parse(tail).events)
    ensures Parse(Escape(data) + tail).rest == Parse(tail).rest
    decreases |data|, 2
  {
    hide Parse, ModeSLong, FindStart;
    if data == [] {
      assert Escape(data) + tail == tail;
    } else {
      var after := Escape(data[1..]) + tail;
      if data[0] != ESC {
        assert Escape(data) == [data[0]] + Escape(data[1..]);
        hide Escape;
        Regroup([data[0]], Escape(data[1..]), tail);
        StartAhead(Escape(data[1..]), tail);
        SkipByte(data[0], after);
        RemainsAreHarmless(data[1..], tail);
      } else {
        assert Escape(data) == [ESC] + ([ESC] + Escape(data[1..]));
        hide Escape;
        var pair := [ESC] + after;
        Regroup([ESC], [ESC] + Escape(data[1..]), tail);
        Regroup([ESC], Escape(data[1..]), tail);
        StartAhead([ESC] + Escape(data[1..]), tail);
        SkipByte(ESC, pair);
        SecondEscape(data, tail);
      }
    }
  }

  /** The second byte of an escape pair, taken for a marker. */
  lemma {:induction false} SecondEscape(data: seq<byte>, tail: seq<byte>)
    requires 0 < |data| <= 22 && data[0] == ESC
    requires AtMarker(tail) && |tail| >= 46
    ensures var p := Parse([ESC] + (Escape(data[1..]) + tail));
            ModeSLong(p.events) == ModeSLong(Parse(tail).events) && p.rest == Parse(tail).rest
    decreases |data|, 1
  {
    hide Parse, ModeSLong, FindStart;
    var after := Escape(data[1..]) + tail;
    if |data| == 1 || data[1] == ESC {
      StartAhead(Escape(data[1..]), tail);
      assert after[0] == ESC;
      SkipByte(ESC, after);
      RemainsAreHarmless(data[1..], tail);
    } else {
      assert [ESC] + after == Wire(data[1], data[2..]) + tail by {
        assert data[1..] == [data[1]] + data[2..];
        EscapePlain(data[1], data[2..]);
      }
      FalseMarker(data[1], data[2..], tail);
    }
  }

  lemma {:induction false} FalseMarker(msgType: byte, data: seq<byte>, tail: seq<byte>)
    requires msgType != ESC && |data| <= 20
    requires AtMarker(tail) && |tail| >= 46
    ensures ModeSLong(Parse(Wire(msgType, data) + tail).events) == ModeSLong(Parse(tail).events)
    ensures Parse(Wire(msgType, data) + tail).rest == Parse(tail).rest
    decreases |data| + 2, 0
  {
    hide Parse, FindStart, Escape;
    var buf := Wire(msgType, data) + tail;
    SameMessages(msgType);
    if !Known(msgType) {
      WireTail(msgType, data, tail);
      ParseStep(buf);
      RemainsAreHarmless([msgType] + data, tail);
    } else if |data| < SentLength(msgType).value {
      CutStep(msgType, data, tail);
      RemainsAreHarmless([msgType] + data, tail);
    } else {
      var k := SentLength(msgType).value;
      WireSplit(msgType, data, k, tail);
      WholeStep(msgType, data[..k], Escape(data[k..]) + tail);
      RemainsAreHarmless(data[k..], tail);
    }
  }

  lemma WireSplit(msgType: byte, data: seq<byte>, k: nat, tail: seq<byte>)
    requires k <= |data|
    ensures Wire(msgType, data) + tail == Wire(msgType, data[..k]) + (Escape(data[k..]) + tail)
  {
    EscapeSplit(data, k);
  }

  lemma EscapeFirst(data: seq<byte>)
    requires data != []
    ensures Escape(data) == (if data[0] == ESC then [ESC, ESC] else [data[0]]) + Escape(data[1..])
  {
  }

  lemma {:induction false} EscapeSplit(data: seq<byte>, k: nat)
    requires k <= |data|
    ensures Escape(data) == Escape(data[..k]) + Escape(data[k..])
  {
    if k == 0 {
      assert data[k..] == data && data[..k] == [];
    } else {
      hide Escape;
      EscapeSplit(data[1..], k - 1);
      EscapeFirst(data);
      EscapeFirst(data[..k]);
      assert data[..k][1..] == data[1..][..k - 1] && data[1..][k - 1..] == data[k..];
      Regroup(if data[0] == ESC then [ESC, ESC] else [data[0]], Escape(data[..k][1..]), Escape(data[k..]));
    }
  }

  lemma StreamAtMarker(items: seq<Item>)
    requires items != [] && ValidItem(items[0])
    ensures AtMarker(Stream(items))
  {
  }

  /** Every cut message is followed by at least 46 more bytes, twice the longest frame. */
  predicate Followed(items: seq<Item>) {
    items != [] ==> (items[0].Cut? ==> |Stream(items[1..])| >= 46) && Followed(items[1..])
  }

  lemma ItemStep(item: Item, tail: seq<byte>)
    requires ValidItem(item)
    requires item.Cut? ==> AtMarker(tail) && |tail| >= 46
    ensures var p := Parse(Wire(item.msgType, item.data) + tail);
            ModeSLong(p.events) == SentModeSLong([item]) + ModeSLong(Parse(tail).events) && p.rest == Parse(tail).rest
  {
    hide Parse, Escape, Wire;
    assert [item][1..] == [];
    if item.Whole? {
      WholeStep(item.msgType, item.data, tail);
      var m, later := Message(item.msgType, item.data[7..]), Parse(tail).events;
      assert ([m] + later)[1..] == later;
    } else {
      CutStep(item.msgType, item.data, tail);
      RemainsAreHarmless([item.msgType] + item.data, tail);
      var later := Parse(Escape([item.msgType] + item.data) + tail).events;
      assert ([BadFrame] + later)[1..] == later;
    }
  }

  lemma SentFirst(items: seq<Item>)
    requires items != []
    ensures SentModeSLong(items) == SentModeSLong([items[0]]) + SentModeSLong(items[1..])
  {
    assert [items[0]][1..] == [];
  }

  /** Loss isolation: exactly the complete Mode-S long messages get through, in order, whatever was
      cut between them, and nothing is left in the buffer. */
  lemma {:induction false} LossIsolation(items: seq<Item>)
    requires Valid(items) && Followed(items)
    ensures ModeSLong(Parse(Stream(items)).events) == SentModeSLong(items)
    ensures Parse(Stream(items)).rest == []
  {
    if items == [] {
      assert Parse([]) == Parsed([], []);
    } else {
      hide Parse, Escape, FindStart, ModeSLong, SentModeSLong;
      LossIsolation(items[1..]);
      if items[0].Cut? {
        assert items[1..] != [];
        StreamAtMarker(items[1..]);
      }
      ItemStep(items[0], Stream(items[1..]));
      SentFirst(items);
    }
  }

  function Sent(items: seq<Item>): (events: seq<Event>)
    requires Valid(items) && Uncut(items)
  {
    if items == [] then [] else [Message(items[0].msgType, items[0].data[7..])] + Sent(items[1..])
  }

  /** Without cuts the framer reads back every message, of whatever type, with no framing error. */
  lemma {:induction false} RoundTrip(items: seq<Item>)
    requires Valid(items) && Uncut(items)
    ensures Parse(Stream(items)) == Parsed(Sent(items), [])
  {
    if items != [] {
      RoundTrip(items[1..]);
      WholeStep(items[0].msgType, items[0].data, Stream(items[1..]));
    }
  }

  /** Both together: loss isolation for every way of cutting the stream into reads. */
  lemma LossIsolationInChunks(items: seq<Item>, chunks: seq<seq<byte>>)
    requires Valid(items) && Followed(items)
    requires Concat(chunks) == Stream(items)
    ensures ModeSLong(ParseChunks([], chunks).events) == SentModeSLong(items)
    ensures ParseChunks([], chunks).rest == []
  {
    ChunkingIndependence([], chunks);
    assert [] + Concat(chunks) == Concat(chunks);
    LossIsolation(items);
  }
}
