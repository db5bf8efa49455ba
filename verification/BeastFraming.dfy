/** The Beast byte-stream framer as a function of the buffer: what one pass of the loop in Feed does,
    and what running it until it waits produces. */
module BeastFraming {
  import opened BitStrings
  import opened Sequences
  import opened Options

  const ESC: byte := 0x1A

  /** The payload length of a message type; None for a type byte the framer does not know. */
  function PayloadLen(msgType: byte): (n: Option<nat>) {
    if msgType == 0x31 then Some(2)
    else if msgType == 0x32 then Some(7)
    else if msgType == 0x33 then Some(14)
    else if msgType == 0x34 then Some(14)
    else None
  }

  predicate Known(msgType: byte) {
    PayloadLen(msgType).Some?
  }

  /** Marker, type, six bytes of timestamp, signal level and payload, before escaping. */
  function MinLen(msgType: byte): (n: nat)
    requires Known(msgType)
    ensures 11 <= n <= 23
  {
    9 + PayloadLen(msgType).value
  }

  /** A marker byte followed by something other than a second marker byte. */
  predicate AtMarker(buf: seq<byte>) {
    |buf| >= 2 && buf[0] == ESC && buf[1] != ESC
  }

  /** The first marker in the buffer. */
  function FindStart(buf: seq<byte>): (start: Option<nat>)
    ensures start.Some? ==> start.value < |buf| && AtMarker(buf[start.value..])
  {
    if |buf| < 2 then None
    else if AtMarker(buf) then assert buf[0..] == buf; Some(0)
    else
      match FindStart(buf[1..])
      case None => None
      case Some(i) => assert buf[1..][i..] == buf[i + 1..]; Some(i + 1)
  }

  /** The data bytes of raw up to its end or up to the next marker. */
  function Unstuff(raw: seq<byte>): (data: seq<byte>)
    ensures |data| <= |raw|
  {
    if raw == [] then []
    else if raw[0] != ESC then [raw[0]] + Unstuff(raw[1..])
    else if |raw| > 1 && raw[1] == ESC then [ESC] + Unstuff(raw[2..])
    else []
  }

  function Unescape(raw: seq<byte>): (frame: seq<byte>)
    ensures |frame| <= |raw|
  {
    if raw != [] && raw[0] == ESC then [ESC] + Unstuff(raw[1..]) else Unstuff(raw)
  }

  /** How many raw bytes carry the first n data bytes. */
  function RawLength(raw: seq<byte>, n: nat): (k: nat)
    ensures k <= |raw|
  {
    if raw == [] || n == 0 then 0
    else if raw[0] != ESC then 1 + RawLength(raw[1..], n - 1)
    else if |raw| > 1 && raw[1] == ESC then 2 + RawLength(raw[2..], n - 1)
    else 0
  }

  datatype Event =
    | Unknown                                  // unknown type byte, marker skipped
    | BadFrame                                 // cut short by the next marker, counted as an error
    | Message(msgType: byte, payload: seq<byte>)

  datatype Progress = Wait | Next(event: Event, rest: seq<byte>)

  /** One pass of the loop once the buffer has been advanced to a marker. */
  function Step(buf: seq<byte>): (p: Progress)
    requires AtMarker(buf)
    ensures p.Next? ==> |p.rest| < |buf|
  {
    var msgType := buf[1];
    if !Known(msgType) then Next(Unknown, buf[1..])
    else
      var minLen := MinLen(msgType);
      if |buf| < minLen then Wait
      else
        var frame := Unescape(buf[..Window(buf, minLen)]);
        if |frame| < minLen then
          if |buf| < 2 * minLen then Wait else Next(BadFrame, buf[1..])
        else
          Next(Message(msgType, frame[9..minLen]), buf[1 + RawLength(buf[1..], minLen - 1)..])
  }

  /** No frame needs more than twice its length. */
  function Window(buf: seq<byte>, minLen: nat): (n: nat)
    ensures n <= |buf|
  {
    if 2 * minLen <= |buf| then 2 * minLen else |buf|
  }

  datatype Parsed = Parsed(events: seq<Event>, rest: seq<byte>)

  /** All passes of the loop until it waits for more data. */
  function Parse(buf: seq<byte>): (p: Parsed)
    decreases |buf|
  {
    match FindStart(buf)
    case None => Parsed([], buf)
    case Some(start) =>
      match Step(buf[start..])
      case Wait => Parsed([], buf[start..])
      case Next(event, rest) =>
        var p := Parse(rest);
        Parsed([event] + p.events, p.rest)
  }

  // ---------- more data never changes what was already decided ----------

  lemma {:induction false} FindStartPrefix(a: seq<byte>, b: seq<byte>)
    requires FindStart(a).Some?
    ensures FindStart(a + b) == FindStart(a)
  {
    if !AtMarker(a) {
      FindStartPrefix(a[1..], b);
      assert (a + b)[1..] == a[1..] + b;
    }
  }

  lemma {:induction false} UnstuffPrefix(a: seq<byte>, b: seq<byte>)
    ensures Unstuff(a) <= Unstuff(a + b)
    decreases |a|
  {
    if a != [] {
      if a[0] != ESC {
        UnstuffPrefix(a[1..], b);
        assert (a + b)[1..] == a[1..] + b;
      } else if |a| > 1 && a[1] == ESC {
        UnstuffPrefix(a[2..], b);
        assert (a + b)[2..] == a[2..] + b;
      }
    }
  }

  lemma UnescapePrefix(a: seq<byte>, b: seq<byte>)
    requires a != []
    ensures Unescape(a) <= Unescape(a + b)
  {
    if a[0] == ESC {
      assert (a + b)[1..] == a[1..] + b;
      UnstuffPrefix(a[1..], b);
    } else {
      UnstuffPrefix(a, b);
    }
  }

  lemma {:induction false} RawLengthPrefix(a: seq<byte>, b: seq<byte>, n: nat)
    requires |Unstuff(a)| >= n
    ensures RawLength(a + b, n) == RawLength(a, n)
    decreases |a|
  {
    if a != [] && n > 0 {
      if a[0] != ESC {
        RawLengthPrefix(a[1..], b, n - 1);
        assert (a + b)[1..] == a[1..] + b;
      } else if |a| > 1 && a[1] == ESC {
        RawLengthPrefix(a[2..], b, n - 1);
        assert (a + b)[2..] == a[2..] + b;
      }
    }
  }

  lemma WindowPrefix(front: seq<byte>, more: seq<byte>, minLen: nat)
    requires 0 < |front| <= 2 * minLen
    ensures var buf := front + more;
            Unescape(front) <= Unescape(buf[..Window(buf, minLen)])
  {
    var buf := front + more;
    var window := buf[..Window(buf, minLen)];
    assert window == front + window[|front|..];
    UnescapePrefix(front, window[|front|..]);
  }

  lemma RawLengthAhead(front: seq<byte>, more: seq<byte>, n: nat)
    requires 0 < n <= |Unescape(front)| && AtMarker(front)
    ensures RawLength((front + more)[1..], n - 1) == RawLength(front[1..], n - 1)
  {
    assert (front + more)[1..] == front[1..] + more;
    RawLengthPrefix(front[1..], more, n - 1);
  }

  /** A complete frame at the front decides the step, whatever follows. */
  lemma FrameStep(front: seq<byte>, more: seq<byte>)
    requires AtMarker(front) && Known(front[1])
    requires |front| <= 2 * MinLen(front[1]) && |Unescape(front)| >= MinLen(front[1])
    ensures var m := MinLen(front[1]);
            AtMarker(front + more) && Step(front + more) ==
              Next(Message(front[1], Unescape(front)[9..m]), (front + more)[1 + RawLength(front[1..], m - 1)..])
  {
    hide Unescape, RawLength, MinLen;
    var m := MinLen(front[1]);
    var buf := front + more;
    RawLengthAhead(front, more, m);
    WindowPrefix(front, more, m);
    assert Unescape(buf[..Window(buf, m)])[9..m] == Unescape(front)[9..m];
  }

  /** A frame that the next marker cuts short, with enough data behind it to be sure. */
  lemma ShortStep(buf: seq<byte>)
    requires AtMarker(buf) && Known(buf[1]) && |buf| >= 2 * MinLen(buf[1])
    requires |Unescape(buf[..2 * MinLen(buf[1])])| < MinLen(buf[1])
    ensures Step(buf) == Next(BadFrame, buf[1..])
  {
    hide Unescape, RawLength;
  }

  lemma FrameMonotone(buf: seq<byte>, more: seq<byte>)
    requires AtMarker(buf) && Known(buf[1])
    requires |Unescape(buf[..Window(buf, MinLen(buf[1]))])| >= MinLen(buf[1])
    ensures Step(buf).Next? && AtMarker(buf + more)
    ensures Step(buf + more) == Next(Step(buf).event, Step(buf).rest + more)
  {
    var m := MinLen(buf[1]);
    var front := buf[..Window(buf, m)];
    var tail := buf[|front|..];
    assert |Unescape(front)| <= |front|;
    hide Unescape, RawLength, Step, MinLen;
    assert buf == front + tail;
    FrameStep(front, tail);
    Regroup(front, tail, more);
    FrameStep(front, tail + more);
    var k := 1 + RawLength(front[1..], m - 1);
    assert (buf + more)[k..] == buf[k..] + more;
  }

  lemma StepMonotone(buf: seq<byte>, more: seq<byte>)
    requires AtMarker(buf) && Step(buf).Next?
    ensures AtMarker(buf + more)
    ensures Step(buf + more) == Next(Step(buf).event, Step(buf).rest + more)
  {
    hide Unescape, RawLength;
    assert (buf + more)[1..] == buf[1..] + more;
    if Known(buf[1]) {
      var m := MinLen(buf[1]);
      if |Unescape(buf[..Window(buf, m)])| >= m {
        FrameMonotone(buf, more);
      } else {
        assert (buf + more)[..2 * m] == buf[..2 * m];
        ShortStep(buf);
        ShortStep(buf + more);
      }
    }
  }

  lemma ParseFromStart(buf: seq<byte>)
    requires FindStart(buf).Some?
    ensures Parse(buf) == Parse(buf[FindStart(buf).value..])
  {
    var x := buf[FindStart(buf).value..];
    assert FindStart(x) == Some(0) && x[0..] == x;
  }

  lemma ParseStep(buf: seq<byte>)
    requires AtMarker(buf)
    ensures Step(buf).Wait? ==> Parse(buf) == Parsed([], buf)
    ensures Step(buf).Next? ==>
      var p := Parse(Step(buf).rest);
      Parse(buf) == Parsed([Step(buf).event] + p.events, p.rest)
  {
    assert FindStart(buf) == Some(0) && buf[0..] == buf;
  }

  lemma ParseSplitFromStart(a: seq<byte>, b: seq<byte>)
    requires FindStart(a).Some?
    ensures Parse(a + b) == Parse(a[FindStart(a).value..] + b)
  {
    hide Parse, FindStart;
    var start := FindStart(a).value;
    FindStartPrefix(a, b);
    ParseFromStart(a + b);
    assert (a + b)[start..] == a[start..] + b;
  }

  /** Feeding a and then b is feeding a + b: same events in the same order, same leftover. */
  lemma {:induction false} ParseSplit(a: seq<byte>, b: seq<byte>)
    ensures var first := Parse(a);
            var second := Parse(first.rest + b);
            Parse(a + b) == Parsed(first.events + second.events, second.rest)
    decreases |a|
  {
    if FindStart(a).None? {
      assert Parse(a) == Parsed([], a);
    } else {
      hide Parse, Step, FindStart;
      var x := a[FindStart(a).value..];
      ParseFromStart(a);
      ParseSplitFromStart(a, b);
      ParseStep(x);
      if Step(x).Next? {
        var rest := Step(x).rest;
        StepMonotone(x, b);
        ParseStep(x + b);
        ParseSplit(rest, b);
        Regroup([Step(x).event], Parse(rest).events, Parse(Parse(rest).rest + b).events);
      }
    }
  }

  /** What is left either holds no marker at all or starts with one and is shorter than 46 bytes. */
  lemma {:induction false} Leftover(buf: seq<byte>)
    ensures var rest := Parse(buf).rest;
            FindStart(rest).None? || (AtMarker(rest) && |rest| < 46 && Step(rest).Wait?)
    decreases |buf|
  {
    match FindStart(buf)
    case None =>
    case Some(start) =>
      match Step(buf[start..])
      case Wait =>
      case Next(_, rest) => Leftover(rest);
  }

  /** Feeding a sequence of chunks one after another, starting from a leftover. */
  function ParseChunks(rest: seq<byte>, chunks: seq<seq<byte>>): (p: Parsed)
    decreases |chunks|
  {
    if chunks == [] then Parsed([], rest)
    else
      var first := Parse(rest + chunks[0]);
      var others := ParseChunks(first.rest, chunks[1..]);
      Parsed(first.events + others.events, others.rest)
  }

  /** A leftover that feeding nothing does not change: what every call of Feed leaves behind. */
  ghost predicate Settled(rest: seq<byte>) {
    Parse(rest) == Parsed([], rest)
  }

  lemma {:induction false} ParseSettles(buf: seq<byte>)
    ensures Settled(Parse(buf).rest)
    decreases |buf|
  {
    match FindStart(buf)
    case None =>
    case Some(start) =>
      match Step(buf[start..])
      case Wait => assert buf[start..][0..] == buf[start..];
      case Next(_, rest) => ParseSettles(rest);
  }

  /** Chunking independence: however the bytes are cut into calls, the outcome is that of one call. */
  lemma {:induction false} ChunkingIndependence(rest: seq<byte>, chunks: seq<seq<byte>>)
    requires Settled(rest)
    ensures ParseChunks(rest, chunks) == Parse(rest + Concat(chunks))
    decreases |chunks|
  {
    if chunks == [] {
      assert rest + Concat(chunks) == rest;
    } else {
      hide Parse;
      var first := Parse(rest + chunks[0]);
      ParseSettles(rest + chunks[0]);
      ChunkingIndependence(first.rest, chunks[1..]);
      ParseSplit(rest + chunks[0], Concat(chunks[1..]));
      Regroup(rest, chunks[0], Concat(chunks[1..]));
    }
  }
}
