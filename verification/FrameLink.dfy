/** The length-prefixed stream between the edge server and the browser's transport worker. */
module FrameLink {
  import opened BitStrings
  import opened Sequences
  import opened LittleEndian
  import opened FrameCodec
  import opened Options
  import Doubles

  // ---------- the server's side ----------

  /** A frame behind its length in four bytes. */
  function Prefixed(frame: seq<byte>): (s: seq<byte>)
    ensures |s| == 4 + |frame|
  {
    Bytes(|frame|, 4) + frame
  }

  function Wire(frames: seq<seq<byte>>): (s: seq<byte>) {
    if frames == [] then [] else Prefixed(frames[0]) + Wire(frames[1..])
  }

  /** Writes the queued frames to the stream, each behind its length. */
  method WriteFrames(frames: seq<seq<byte>>) returns (stream: seq<byte>)
    ensures stream == Wire(frames)
  {
    hide Bytes;
    stream := [];
    for i := 0 to |frames|
      invariant stream + Wire(frames[i..]) == Wire(frames)
    {
      var frame := frames[i];
      var n := |frame|;
      var lenBuf: seq<byte> := [n % 256, n / 256 % 256, n / 0x1_0000 % 256, n / 0x100_0000 % 256];
      assert lenBuf == Bytes(n, 4) by { PrefixBytes(n); }
      assert Wire(frames[i..]) == Prefixed(frame) + Wire(frames[i + 1..]) by { assert frames[i..][1..] == frames[i + 1..]; }
      Regroup(stream, Prefixed(frame), Wire(frames[i + 1..]));
      Regroup(stream, lenBuf, frame);
      stream := stream + lenBuf;
      stream := stream + frame;
    }
  }

  lemma PrefixBytes(n: nat)
    ensures Bytes(n, 4) == [n % 256, n / 256 % 256, n / 0x1_0000 % 256, n / 0x100_0000 % 256]
  {
    var n1, n2, n3 := n / 256, n / 0x1_0000, n / 0x100_0000;
    assert n1 / 256 == n2 && n2 / 256 == n3;
    assert Bytes(n3, 1) == [n3 % 256];
    assert Bytes(n2, 2) == [n2 % 256] + Bytes(n3, 1);
    assert Bytes(n1, 3) == [n1 % 256] + Bytes(n2, 2);
  }

  // ---------- the worker's side ----------

  /** The length prefix as the worker reads it: a signed 32-bit number. */
  function FrameLen(buffer: seq<byte>): int
    requires |buffer| >= 4
  {
    var w := Word(buffer[..4]);
    if w < 0x8000_0000 then w else w - 0x1_0000_0000
  }

  /** It is the signed number of 32 bits with the value of those bytes modulo 2^32. */
  lemma FrameLenIs(buffer: seq<byte>)
    requires |buffer| >= 4
    ensures -0x8000_0000 <= FrameLen(buffer) < 0x8000_0000
    ensures (FrameLen(buffer) - Word(buffer[..4])) % 0x1_0000_0000 == 0
  {
    WordBound(buffer[..4]);
    Limits();
    hide Word;
  }

  /** The buffer starts with a complete frame. */
  predicate HoldsFrame(buffer: seq<byte>) {
    |buffer| >= 4 && 0 <= FrameLen(buffer) && 4 + FrameLen(buffer) <= |buffer|
  }

  datatype Drained = Drained(frames: seq<seq<byte>>, rest: seq<byte>)

  /** All complete frames at the front of the buffer. A negative length stops it. */
  function Drain(buffer: seq<byte>): (d: Drained)
    ensures !HoldsFrame(d.rest)
    decreases |buffer|
  {
    if !HoldsFrame(buffer) then Drained([], buffer)
    else
      var n := FrameLen(buffer);
      var d := Drain(buffer[4 + n..]);
      Drained([buffer[4..4 + n]] + d.frames, d.rest)
  }

  lemma PrefixStays(a: seq<byte>, b: seq<byte>)
    requires HoldsFrame(a)
    ensures HoldsFrame(a + b) && FrameLen(a + b) == FrameLen(a)
    ensures (a + b)[4..4 + FrameLen(a)] == a[4..4 + FrameLen(a)]
    ensures (a + b)[4 + FrameLen(a)..] == a[4 + FrameLen(a)..] + b
  {
    assert (a + b)[..4] == a[..4];
  }

  /** Reading a and then b is reading a + b. */
  lemma {:induction false} DrainSplit(a: seq<byte>, b: seq<byte>)
    ensures var first := Drain(a);
            var second := Drain(first.rest + b);
            Drain(a + b) == Drained(first.frames + second.frames, second.rest)
    decreases |a|
  {
    if HoldsFrame(a) {
      PrefixStays(a, b);
      var n := FrameLen(a);
      DrainSplit(a[4 + n..], b);
      hide HoldsFrame, FrameLen;
      Regroup([a[4..4 + n]], Drain(a[4 + n..]).frames, Drain(Drain(a[4 + n..]).rest + b).frames);
    }
  }

  /** Short enough for the worker's signed length. */
  ghost predicate Short(frames: seq<seq<byte>>) {
    forall i | 0 <= i < |frames| :: |frames[i]| < 0x8000_0000
  }

  lemma PrefixedHolds(frame: seq<byte>, tail: seq<byte>)
    requires |frame| < 0x8000_0000
    ensures var s := Prefixed(frame) + tail;
            HoldsFrame(s) && FrameLen(s) == |frame| && s[4..4 + |frame|] == frame && s[4 + |frame|..] == tail
  {
    var s := Prefixed(frame) + tail;
    assert Word(Bytes(|frame|, 4)) == |frame| by { Limits(); WordOfBytes(|frame|, 4); }
    hide Word, Bytes;
    assert s[..4] == Bytes(|frame|, 4);
  }

  lemma {:induction false} DrainWire(frames: seq<seq<byte>>)
    requires Short(frames)
    ensures Drain(Wire(frames)) == Drained(frames, [])
  {
    if frames != [] {
      PrefixedHolds(frames[0], Wire(frames[1..]));
      DrainWire(frames[1..]);
    }
  }

  /** What the worker has processed and kept after reading the chunks one by one. */
  function ReadChunks(rest: seq<byte>, chunks: seq<seq<byte>>): (d: Drained)
    decreases |chunks|
  {
    if chunks == [] then Drained([], rest)
    else
      var first := Drain(rest + chunks[0]);
      var others := ReadChunks(first.rest, chunks[1..]);
      Drained(first.frames + others.frames, others.rest)
  }

  lemma {:induction false} ReadIsDrain(rest: seq<byte>, chunks: seq<seq<byte>>)
    requires !HoldsFrame(rest)
    ensures ReadChunks(rest, chunks) == Drain(rest + Concat(chunks))
    decreases |chunks|
  {
    if chunks == [] {
      assert rest + Concat(chunks) == rest;
    } else {
      hide HoldsFrame, Drain;
      var first := Drain(rest + chunks[0]);
      ReadIsDrain(first.rest, chunks[1..]);
      DrainSplit(rest + chunks[0], Concat(chunks[1..]));
      Regroup(rest, chunks[0], Concat(chunks[1..]));
    }
  }

  /** At any moment, with part of the stream still to come: the frames processed so far followed by
      those still to be found are exactly the frames written, in order, and the leftover holds no
      complete frame. */
  lemma Delivery(frames: seq<seq<byte>>, chunks: seq<seq<byte>>, future: seq<byte>)
    requires Short(frames) && Concat(chunks) + future == Wire(frames)
    ensures var d := ReadChunks([], chunks);
            && d.frames + Drain(d.rest + future).frames == frames
            && !HoldsFrame(d.rest)
            && (future == [] ==> d == Drained(frames, []))
  {
    hide HoldsFrame, Drain, Wire;
    assert !HoldsFrame([]) by { HoldsNothing(); }
    ReadIsDrain([], chunks);
    assert [] + Concat(chunks) == Concat(chunks);
    DrainSplit(Concat(chunks), future);
    DrainWire(frames);
    if future == [] {
      assert Concat(chunks) + future == Concat(chunks);
    }
  }

  lemma HoldsNothing()
    ensures !HoldsFrame([])
  {
  }

  // ---------- the worker's state ----------

  const SAB_HEADER := 16

  class Worker {
    const maxEntities: nat
    const shared: array<byte>
    var buffer: seq<byte>
    var frameCount: nat
    ghost var processed: seq<seq<byte>>

    ghost predicate Valid()
      reads this
    {
      shared.Length == SAB_HEADER + maxEntities * ENTITY_SIZE && !HoldsFrame(buffer)
    }

    constructor (shared: array<byte>, maxEntities: nat)
      requires shared.Length == SAB_HEADER + maxEntities * ENTITY_SIZE
      ensures Valid() && buffer == [] && frameCount == 0 && processed == []
      ensures this.shared == shared && this.maxEntities == maxEntities
    {
      this.shared, this.maxEntities := shared, maxEntities;
      buffer, frameCount, processed := [], 0, [];
    }

    /** Writes records, count and timestamp, and the new sequence number last. */
    method Publish(count: nat, timestamp: nat, records: seq<byte>)
      requires SAB_HEADER + |records| <= shared.Length
      modifies this`frameCount, shared
      ensures frameCount == old(frameCount) + 1
      ensures shared[..] == Bytes(frameCount, 4) + (Bytes(count, 2) + old(shared[6..8]) + Bytes(timestamp, 8) + records + old(shared[SAB_HEADER + |records|..]))
    {
      hide Bytes;
      ghost var s0 := shared[..];
      Copy(shared, SAB_HEADER, records);
      ghost var s1 := shared[..];
      assert s1 == s0[..16] + records + s0[16 + |records|..];
      Put(shared, 4, count, 2);
      ghost var s2 := shared[..];
      assert s2 == s1[..4] + Bytes(count, 2) + s1[6..];
      Put(shared, 8, timestamp, 4);
      Put(shared, 12, timestamp / 0x1_0000_0000, 4);
      TwoWords(timestamp);
      ghost var s3 := shared[..];
      assert s3 == s2[..8] + Bytes(timestamp, 8) + s2[16..];
      frameCount := frameCount + 1;
      Put(shared, 0, frameCount, 4);
      assert shared[..] == Bytes(frameCount, 4) + s3[4..];
      Assemble(s0, s1, s2, s3, Bytes(count, 2), Bytes(timestamp, 8), records);
    }

    /** Copies the records of a well-formed frame into the shared buffer and publishes them under a
        new sequence number; anything else is ignored. */
    method ProcessFrame(data: seq<byte>)
      requires shared.Length == SAB_HEADER + maxEntities * ENTITY_SIZE
      modifies this`frameCount, shared
      ensures shared[..] == Published(old(shared[..]), data, maxEntities, old(frameCount))
      ensures frameCount == old(frameCount) + if Decode(data).Some? then 1 else 0
    {
      hide Word, Bytes, Entities, Doubles.Double;
      if |data| < HEADER_SIZE {
        return;
      }
      var header := data[..HEADER_SIZE];
      if Word(header[0..4]) != FRAME_MAGIC {
        return;
      }
      var entityCount := Word(header[6..8]);
      if |data| < HEADER_SIZE + entityCount * ENTITY_SIZE {
        return;
      }
      var writeCount := if entityCount < maxEntities then entityCount else maxEntities;
      var timestamp := Doubles.Double(Word(data[8..16]));
      Publish(writeCount, timestamp, data[HEADER_SIZE..HEADER_SIZE + writeCount * ENTITY_SIZE]);
    }

    /** Appends a chunk to the buffer and processes every complete frame in it. */
    method OnChunk(value: seq<byte>)
      requires Valid()
      modifies this, shared
      ensures Valid()
      ensures var d := Drain(old(buffer) + value);
              && buffer == d.rest && processed == old(processed) + d.frames
              && Screen() == ShowAll(old(Screen()), d.frames, maxEntities)
    {
      hide Published, Decode, Drain, FrameLen;
      buffer := buffer + value;
      ghost var all := Drain(buffer);
      while true
        invariant shared.Length == SAB_HEADER + maxEntities * ENTITY_SIZE
        invariant processed + Drain(buffer).frames == old(processed) + all.frames
        invariant Drain(buffer).rest == all.rest
        invariant ShowAll(Screen(), Drain(buffer).frames, maxEntities) == ShowAll(old(Screen()), all.frames, maxEntities)
        decreases |buffer|
      {
        if |buffer| < 4 {
          NoFrame(buffer);
          break;
        }
        var frameLen := FrameLen(buffer);
        if frameLen < 0 || |buffer| < 4 + frameLen {
          NoFrame(buffer);
          break;
        }
        DrainOne(buffer);
        var frameData := buffer[4..4 + frameLen];
        ProcessFrame(frameData);
        processed := processed + [frameData];
        buffer := buffer[4 + frameLen..];
      }
    }

    ghost function Screen(): Shown
      reads this`frameCount, shared
    {
      Shown(shared[..], frameCount)
    }
  }

  /** The shared buffer and the number of frames published in it. */
  datatype Shown = Shown(shared: seq<byte>, frameCount: nat)

  function Show(s: Shown, data: seq<byte>, maxEntities: nat): (r: Shown)
    requires |s.shared| == SAB_HEADER + maxEntities * ENTITY_SIZE
    ensures |r.shared| == |s.shared|
  {
    Shown(Published(s.shared, data, maxEntities, s.frameCount), s.frameCount + if Decode(data).Some? then 1 else 0)
  }

  function ShowAll(s: Shown, frames: seq<seq<byte>>, maxEntities: nat): (r: Shown)
    requires |s.shared| == SAB_HEADER + maxEntities * ENTITY_SIZE
    ensures |r.shared| == |s.shared|
    decreases |frames|
  {
    if frames == [] then s else ShowAll(Show(s, frames[0], maxEntities), frames[1..], maxEntities)
  }

  lemma NoFrame(buffer: seq<byte>)
    requires !HoldsFrame(buffer)
    ensures Drain(buffer) == Drained([], buffer)
  {
  }

  lemma DrainOne(buffer: seq<byte>)
    requires HoldsFrame(buffer)
    ensures var n := FrameLen(buffer);
            var d := Drain(buffer[4 + n..]);
            Drain(buffer) == Drained([buffer[4..4 + n]] + d.frames, d.rest)
  {
  }

  lemma Assemble(s0: seq<byte>, s1: seq<byte>, s2: seq<byte>, s3: seq<byte>, count: seq<byte>, time: seq<byte>, records: seq<byte>)
    requires |s0| == |s1| == |s2| == |s3| >= 16 + |records| && |count| == 2 && |time| == 8
    requires s1 == s0[..16] + records + s0[16 + |records|..]
    requires s2 == s1[..4] + count + s1[6..]
    requires s3 == s2[..8] + time + s2[16..]
    ensures s3[4..] == count + s0[6..8] + time + records + s0[16 + |records|..]
  {
    assert s3[4..8] == s2[4..8] == count + s1[6..8] == count + s0[6..8];
    assert s3[16..] == s2[16..] == s1[16..] == records + s0[16 + |records|..];
  }

  /** The number of records the worker takes over from a frame. */
  function Taken(data: seq<byte>, maxEntities: nat): (n: nat)
    requires Decode(data).Some?
    ensures n <= maxEntities && HEADER_SIZE + n * ENTITY_SIZE <= |data|
  {
    var n := Decode(data).value.0.entityCount;
    if n < maxEntities then n else maxEntities
  }

  /** The timestamp as the worker writes it, after a detour through a double. */
  function TimeField(data: seq<byte>): (s: seq<byte>)
    requires |data| >= HEADER_SIZE
    ensures |s| == 8
  {
    Bytes(Doubles.Double(Word(data[8..16])), 8)
  }

  lemma TwoWords(v: nat)
    ensures Bytes(v, 8) == Bytes(v, 4) + Bytes(v / 0x1_0000_0000, 4)
  {
    var v1, v2, v3, v4 := v / 256, v / 0x1_0000, v / 0x100_0000, v / 0x1_0000_0000;
    assert v1 / 256 == v2 && v2 / 256 == v3 && v3 / 256 == v4;
    PrefixBytes(v);
    assert Bytes(v3, 5) == [v3 % 256] + Bytes(v4, 4);
    assert Bytes(v2, 6) == [v2 % 256] + Bytes(v3, 5);
    assert Bytes(v1, 7) == [v1 % 256] + Bytes(v2, 6);
    assert Bytes(v, 8) == [v % 256] + Bytes(v1, 7);
  }

  /** The shared buffer after a frame has been processed. */
  function Published(shared: seq<byte>, data: seq<byte>, maxEntities: nat, frameCount: nat): (s: seq<byte>)
    requires |shared| == SAB_HEADER + maxEntities * ENTITY_SIZE
    ensures |s| == |shared|
  {
    if Decode(data).None? then shared
    else
      var size := Taken(data, maxEntities) * ENTITY_SIZE;
      Bytes(frameCount + 1, 4)
      + (Bytes(Taken(data, maxEntities), 2) + shared[6..8] + TimeField(data) + data[HEADER_SIZE..HEADER_SIZE + size]
         + shared[SAB_HEADER + size..])
  }

  lemma HeaderParts(seqNo: seq<byte>, count: seq<byte>, gap: seq<byte>, time: seq<byte>, records: seq<byte>, rest: seq<byte>)
    requires |seqNo| == 4 && |count| == 2 && |gap| == 2 && |time| == 8
    ensures var s := seqNo + (count + gap + time + records + rest);
            s[0..4] == seqNo && s[4..6] == count && s[6..8] == gap && s[8..16] == time && s[16..] == records + rest
  {
    var s := seqNo + (count + gap + time + records + rest);
    assert s[4..] == count + gap + time + records + rest;
    assert s == (seqNo + count + gap) + time + (records + rest);
  }

  lemma DecodedLength(data: seq<byte>)
    requires Decode(data).Some?
    ensures |data| >= HEADER_SIZE
  {
  }

  lemma PublishedParts(shared: seq<byte>, data: seq<byte>, maxEntities: nat, frameCount: nat)
    requires |shared| == SAB_HEADER + maxEntities * ENTITY_SIZE && Decode(data).Some?
    ensures var s := Published(shared, data, maxEntities, frameCount);
            var size := Taken(data, maxEntities) * ENTITY_SIZE;
            && s[0..4] == Bytes(frameCount + 1, 4)
            && s[4..6] == Bytes(Taken(data, maxEntities), 2)
            && s[6..8] == shared[6..8]
            && s[8..16] == TimeField(data)
            && s[SAB_HEADER..] == data[HEADER_SIZE..HEADER_SIZE + size] + shared[SAB_HEADER + size..]
  {
    hide Bytes, Decode, Entities, Taken, TimeField;
    DecodedLength(data);
    var size := Taken(data, maxEntities) * ENTITY_SIZE;
    HeaderParts(Bytes(frameCount + 1, 4), Bytes(Taken(data, maxEntities), 2), shared[6..8], TimeField(data),
                data[HEADER_SIZE..HEADER_SIZE + size], shared[SAB_HEADER + size..]);
  }

  /** The renderer's buffer shows these entities with this timestamp: the count, the first entities bit for bit,
      and the timestamp rounded to 53 significant bits, which is the one sent if and only if that loses nothing. */
  predicate Shows(s: seq<byte>, es: seq<EntityState>, timestampMs: nat, maxEntities: nat)
    requires |s| == SAB_HEADER + maxEntities * ENTITY_SIZE
  {
    var n := if |es| < maxEntities then |es| else maxEntities;
    && Word(s[4..6]) == n
    && Word(s[8..16]) == Doubles.Double(timestampMs) % Limit(8)
    && (Word(s[8..16]) == timestampMs <==> timestampMs % Doubles.Unit(timestampMs) == 0)
    && (timestampMs < Doubles.EXACT ==> Word(s[8..16]) == timestampMs)
    && Entities(s[SAB_HEADER..], n) == es[..n]
  }

  /** From the generator's entities to the renderer's buffer: after the worker has processed an encoded frame, the
      buffer shows it under the next 32-bit sequence number, and its bytes 6 and 7 and the records past the shown
      ones are as before. */
  lemma EndToEnd(es: seq<EntityState>, timestampMs: nat, shared: seq<byte>, maxEntities: nat, frameCount: nat)
    requires Reserved(es) && Encodable(es) && |es| <= 65535 && timestampMs < Limit(8)
    requires |shared| == SAB_HEADER + maxEntities * ENTITY_SIZE
    ensures var s := Published(shared, Frame(es, timestampMs), maxEntities, frameCount);
            var size := (if |es| < maxEntities then |es| else maxEntities) * ENTITY_SIZE;
            && Shows(s, es, timestampMs, maxEntities)
            && Word(s[0..4]) == (frameCount + 1) % 0x1_0000_0000
            && s[6..8] == shared[6..8] && s[SAB_HEADER + size..] == shared[SAB_HEADER + size..]
  {
    hide Records, Entities, Published, Frame, Word, Bytes, Limit, Encodable, Decode, TimeField;
    hide Doubles.Double, Doubles.Unit;
    var data := Frame(es, timestampMs);
    var n := if |es| < maxEntities then |es| else maxEntities;
    assert Decode(data).Some? && Taken(data, maxEntities) == n by {
      FrameRoundTrip(es, timestampMs, []);
      assert data + [] == data;
    }
    PublishedParts(shared, data, maxEntities, frameCount);
    assert Word(Bytes(n, 2)) == n by { Limits(); WordOfBytes(n, 2); }
    assert Word(Bytes(frameCount + 1, 4)) == (frameCount + 1) % 0x1_0000_0000 by { Limits(); WordOfBytesMod(frameCount + 1, 4); }
    TimestampField(es, timestampMs);
    TimeWord(data, timestampMs);
    FrameRecords(es, timestampMs, n);
    FirstEntities(es, n, shared[SAB_HEADER + n * ENTITY_SIZE..]);
    Behind16(Published(shared, data, maxEntities, frameCount), Records(es[..n]), shared[SAB_HEADER + n * ENTITY_SIZE..], n * ENTITY_SIZE);
  }

  lemma Behind16(s: seq<byte>, records: seq<byte>, rest: seq<byte>, size: nat)
    requires |s| >= SAB_HEADER && s[SAB_HEADER..] == records + rest && |records| == size
    ensures |s| >= SAB_HEADER + size && s[SAB_HEADER + size..] == rest
  {
    assert s[SAB_HEADER..][size..] == rest;
  }

  /** The well-formed frames among them. */
  function WellFormed(frames: seq<seq<byte>>): nat {
    if frames == [] then 0 else WellFormed(frames[..|frames| - 1]) + if Decode(frames[|frames| - 1]).Some? then 1 else 0
  }

  lemma {:induction false} ShowLast(s: Shown, frames: seq<seq<byte>>, maxEntities: nat)
    requires |s.shared| == SAB_HEADER + maxEntities * ENTITY_SIZE && frames != []
    ensures ShowAll(s, frames, maxEntities)
         == Show(ShowAll(s, frames[..|frames| - 1], maxEntities), frames[|frames| - 1], maxEntities)
    decreases |frames|
  {
    hide Show;
    if |frames| > 1 {
      ShowLast(Show(s, frames[0], maxEntities), frames[1..], maxEntities);
      assert frames[1..][..|frames| - 2] == frames[..|frames| - 1][1..];
    }
  }

  lemma {:induction false} FramesCounted(s: Shown, frames: seq<seq<byte>>, maxEntities: nat)
    requires |s.shared| == SAB_HEADER + maxEntities * ENTITY_SIZE
    ensures ShowAll(s, frames, maxEntities).frameCount == s.frameCount + WellFormed(frames)
    decreases |frames|
  {
    if frames != [] {
      ShowLast(s, frames, maxEntities);
      FramesCounted(s, frames[..|frames| - 1], maxEntities);
      hide Published, Decode;
    }
  }

  /** Whatever frames came before, the buffer shows the last one, and its sequence number is the number of
      well-formed frames processed, modulo 2^32. */
  lemma LastShown(s: Shown, frames: seq<seq<byte>>, es: seq<EntityState>, timestampMs: nat, maxEntities: nat)
    requires |s.shared| == SAB_HEADER + maxEntities * ENTITY_SIZE
    requires Reserved(es) && Encodable(es) && |es| <= 65535 && timestampMs < Limit(8)
    ensures var shown := ShowAll(s, frames + [Frame(es, timestampMs)], maxEntities);
            && |shown.shared| == |s.shared|
            && Shows(shown.shared, es, timestampMs, maxEntities)
            && Word(shown.shared[0..4]) == (s.frameCount + WellFormed(frames) + 1) % 0x1_0000_0000
  {
    hide Shows, Published, Frame, Word, WellFormed, Limit, Encodable, Reserved;
    var all := frames + [Frame(es, timestampMs)];
    assert all[..|frames|] == frames;
    ShowLast(s, all, maxEntities);
    FramesCounted(s, frames, maxEntities);
    EndToEnd(es, timestampMs, ShowAll(s, frames, maxEntities).shared, maxEntities, ShowAll(s, frames, maxEntities).frameCount);
  }

  lemma TimeWord(data: seq<byte>, timestampMs: nat)
    requires |data| >= HEADER_SIZE && Word(data[8..16]) == timestampMs < Limit(8)
    ensures Word(TimeField(data)) == Doubles.Double(timestampMs) % Limit(8)
    ensures Word(TimeField(data)) == timestampMs <==> timestampMs % Doubles.Unit(timestampMs) == 0
    ensures timestampMs < Doubles.EXACT ==> Word(TimeField(data)) == timestampMs
  {
    hide Word, Bytes, Doubles.Double, Doubles.Unit;
    Limits();
    WordOfBytesMod(Doubles.Double(timestampMs), 8);
    Doubles.WordExact(timestampMs);
  }

  lemma FirstEntities(es: seq<EntityState>, n: nat, rest: seq<byte>)
    requires Reserved(es) && Encodable(es) && n <= |es|
    ensures Entities(Records(es[..n]) + rest, n) == es[..n]
  {
    hide Records, Entities;
    EntitiesOfRecords(es[..n], n, rest);
    assert es[..n][..n] == es[..n];
  }

  lemma FrameRecords(es: seq<EntityState>, timestampMs: nat, n: nat)
    requires Reserved(es) && n <= |es|
    ensures HEADER_SIZE + n * ENTITY_SIZE <= |Frame(es, timestampMs)|
    ensures Frame(es, timestampMs)[HEADER_SIZE..HEADER_SIZE + n * ENTITY_SIZE] == Records(es[..n])
  {
    FirstRecords(es, n);
    hide Records, Header;
    var header := FrameHeader(FRAME_MAGIC, PROTOCOL_VERSION, 0, |es| % 0x1_0000, timestampMs);
    assert Frame(es, timestampMs) == Header(header) + Records(es);
    hide Frame;
    Behind(Header(header), Records(es), n * ENTITY_SIZE);
  }

  lemma Behind(front: seq<byte>, s: seq<byte>, size: nat)
    requires size <= |s|
    ensures (front + s)[|front|..|front| + size] == s[..size]
  {
  }

  lemma TimestampField(es: seq<EntityState>, timestampMs: nat)
    requires Reserved(es) && timestampMs < Limit(8)
    ensures Word(Frame(es, timestampMs)[8..16]) == timestampMs
  {
    var header := FrameHeader(FRAME_MAGIC, PROTOCOL_VERSION, 0, |es| % 0x1_0000, timestampMs);
    hide Bytes, Word, Records;
    assert Frame(es, timestampMs)[8..16] == Header(header)[8..16] == Bytes(timestampMs, 8);
    WordOfBytes(timestampMs, 8);
  }

  lemma {:induction false} FirstRecords(es: seq<EntityState>, n: nat)
    requires Reserved(es) && n <= |es|
    ensures Records(es)[..n * ENTITY_SIZE] == Records(es[..n])
    decreases |es|
  {
    hide Record;
    if n < |es| {
      var front := es[..|es| - 1];
      FirstRecords(front, n);
      assert front[..n] == es[..n];
      assert Records(es)[..n * ENTITY_SIZE] == Records(front)[..n * ENTITY_SIZE];
    } else {
      assert es[..n] == es;
    }
  }
}
