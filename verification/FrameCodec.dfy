/** The 64-byte entity record and the frame around it: written in place by the generator, read back
    by the protocol library. Floating-point fields are words. */
module FrameCodec {
  import opened BitStrings
  import opened Sequences
  import opened LittleEndian
  import opened Options

  const ENTITY_SIZE := 64
  const HEADER_SIZE := 16
  // "SGRF"
  const FRAME_MAGIC: nat := 0x53475246
  const PROTOCOL_VERSION: nat := 1

  datatype EntityState = EntityState(
    entityId: nat, flags: nat, entityType: nat, padding: nat, timestampMs: nat,
    latitude: nat, longitude: nat, altitudeM: nat, speedMs: nat, headingDeg: nat, vrateMs: nat,
    sequence: nat, gridCell: nat, reserved: seq<byte>)
  {
    /** Every field fits its width on the wire. */
    ghost predicate Fits() {
      && entityId < Limit(4) && flags < Limit(2) && entityType < Limit(1) && padding < Limit(1)
      && timestampMs < Limit(8) && latitude < Limit(8) && longitude < Limit(8)
      && altitudeM < Limit(4) && speedMs < Limit(4) && headingDeg < Limit(4) && vrateMs < Limit(4)
      && sequence < Limit(4) && gridCell < Limit(4) && |reserved| == 8
    }
  }

  datatype FrameHeader = FrameHeader(magic: nat, version: nat, frameType: nat, entityCount: nat, timestampMs: nat)

  // ---------- layouts ----------

  function Identity(e: EntityState): (s: seq<byte>)
    ensures |s| == 16
  {
    Bytes(e.entityId, 4) + Bytes(e.flags, 2) + Bytes(e.entityType, 1) + Bytes(e.padding, 1) + Bytes(e.timestampMs, 8)
  }

  function Place(e: EntityState): (s: seq<byte>)
    ensures |s| == 16
  {
    Bytes(e.latitude, 8) + Bytes(e.longitude, 8)
  }

  function Motion(e: EntityState): (s: seq<byte>)
    ensures |s| == 16
  {
    Bytes(e.altitudeM, 4) + Bytes(e.speedMs, 4) + Bytes(e.headingDeg, 4) + Bytes(e.vrateMs, 4)
  }

  function Rest(e: EntityState): (s: seq<byte>)
    requires |e.reserved| == 8
    ensures |s| == 16
  {
    Bytes(e.sequence, 4) + Bytes(e.gridCell, 4) + e.reserved
  }

  /** The record a marshalled entity occupies. */
  function Record(e: EntityState): (s: seq<byte>)
    requires |e.reserved| == 8
    ensures |s| == ENTITY_SIZE
  {
    Identity(e) + Place(e) + Motion(e) + Rest(e)
  }

  /** Reading a record field by field at its offset. */
  function Unrecord(s: seq<byte>): EntityState
    requires |s| == ENTITY_SIZE
  {
    EntityState(Word(s[0..4]), Word(s[4..6]), Word(s[6..7]), Word(s[7..8]), Word(s[8..16]),
                Word(s[16..24]), Word(s[24..32]), Word(s[32..36]), Word(s[36..40]), Word(s[40..44]),
                Word(s[44..48]), Word(s[48..52]), Word(s[52..56]), s[56..64])
  }

  function Header(h: FrameHeader): (s: seq<byte>)
    ensures |s| == HEADER_SIZE
  {
    Bytes(h.magic, 4) + Bytes(h.version, 1) + Bytes(h.frameType, 1) + Bytes(h.entityCount, 2) + Bytes(h.timestampMs, 8)
  }

  function Unheader(s: seq<byte>): FrameHeader
    requires |s| == HEADER_SIZE
  {
    FrameHeader(Word(s[0..4]), Word(s[4..5]), Word(s[5..6]), Word(s[6..8]), Word(s[8..16]))
  }

  /** Reserved is an array of eight bytes. */
  ghost predicate Reserved(es: seq<EntityState>) {
    forall i | 0 <= i < |es| :: |es[i].reserved| == 8
  }

  function Records(es: seq<EntityState>): (s: seq<byte>)
    requires Reserved(es)
    ensures |s| == ENTITY_SIZE * |es|
  {
    if es == [] then [] else Records(es[..|es| - 1]) + Record(es[|es| - 1])
  }

  lemma IdentityFields(e: EntityState)
    ensures var s := Identity(e);
            s[0..4] == Bytes(e.entityId, 4) && s[4..6] == Bytes(e.flags, 2) && s[6..7] == Bytes(e.entityType, 1)
            && s[7..8] == Bytes(e.padding, 1) && s[8..16] == Bytes(e.timestampMs, 8)
  {
    hide Bytes;
  }

  lemma MotionFields(e: EntityState)
    ensures var s := Motion(e);
            s[0..4] == Bytes(e.altitudeM, 4) && s[4..8] == Bytes(e.speedMs, 4)
            && s[8..12] == Bytes(e.headingDeg, 4) && s[12..16] == Bytes(e.vrateMs, 4)
  {
    hide Bytes;
  }

  lemma RestFields(e: EntityState)
    requires |e.reserved| == 8
    ensures var s := Rest(e);
            s[0..4] == Bytes(e.sequence, 4) && s[4..8] == Bytes(e.gridCell, 4) && s[8..16] == e.reserved
  {
    hide Bytes;
  }

  lemma PlaceFields(e: EntityState)
    ensures var s := Place(e);
            s[0..8] == Bytes(e.latitude, 8) && s[8..16] == Bytes(e.longitude, 8)
  {
    hide Bytes;
  }

  /** A slice inside one of the four sixteen-byte parts of a record. */
  lemma PartSlice(a: seq<byte>, b: seq<byte>, c: seq<byte>, d: seq<byte>)
    requires |a| == |b| == |c| == |d| == 16
    ensures var s := a + b + c + d;
            forall i, j {:trigger s[i..j]} | 0 <= i <= j <= 64 ::
              && (j <= 16 ==> s[i..j] == a[i..j])
              && (16 <= i && j <= 32 ==> s[i..j] == b[i - 16..j - 16])
              && (32 <= i && j <= 48 ==> s[i..j] == c[i - 32..j - 32])
              && (48 <= i ==> s[i..j] == d[i - 48..j - 48])
  {
  }

  lemma RecordRoundTrip(e: EntityState)
    requires e.Fits()
    ensures Unrecord(Record(e)) == e
  {
    var s := Record(e);
    PartSlice(Identity(e), Place(e), Motion(e), Rest(e));
    IdentityFields(e);
    PlaceFields(e);
    MotionFields(e);
    RestFields(e);
    hide Record, Identity, Place, Motion, Rest, Bytes, Word, Limit;
    WordOfBytes(e.entityId, 4); WordOfBytes(e.flags, 2); WordOfBytes(e.entityType, 1); WordOfBytes(e.padding, 1);
    WordOfBytes(e.timestampMs, 8); WordOfBytes(e.latitude, 8); WordOfBytes(e.longitude, 8);
    WordOfBytes(e.altitudeM, 4); WordOfBytes(e.speedMs, 4); WordOfBytes(e.headingDeg, 4); WordOfBytes(e.vrateMs, 4);
    WordOfBytes(e.sequence, 4); WordOfBytes(e.gridCell, 4);
  }

  lemma RecordParts(s: seq<byte>)
    requires |s| == ENTITY_SIZE
    ensures var e := Unrecord(s);
            && Identity(e) == s[0..16] && Place(e) == s[16..32] && Motion(e) == s[32..48] && Rest(e) == s[48..64]
  {
    hide Bytes, Word;
    BytesOfWord(s[0..4]); BytesOfWord(s[4..6]); BytesOfWord(s[6..7]); BytesOfWord(s[7..8]); BytesOfWord(s[8..16]);
    BytesOfWord(s[16..24]); BytesOfWord(s[24..32]);
    BytesOfWord(s[32..36]); BytesOfWord(s[36..40]); BytesOfWord(s[40..44]); BytesOfWord(s[44..48]);
    BytesOfWord(s[48..52]); BytesOfWord(s[52..56]);
    assert s[0..16] == s[0..4] + s[4..6] + s[6..7] + s[7..8] + s[8..16];
    assert s[16..32] == s[16..24] + s[24..32];
    assert s[32..48] == s[32..36] + s[36..40] + s[40..44] + s[44..48];
    assert s[48..64] == s[48..52] + s[52..56] + s[56..64];
  }

  /** Any 64 bytes are the record of the entity read from them. */
  lemma RecordOfUnrecord(s: seq<byte>)
    requires |s| == ENTITY_SIZE
    ensures Unrecord(s).Fits() && Record(Unrecord(s)) == s
  {
    RecordParts(s);
    UnrecordFits(s);
    hide Unrecord, Identity, Place, Motion, Rest;
    assert s == s[0..16] + s[16..32] + s[32..48] + s[48..64];
  }

  lemma UnrecordFits(s: seq<byte>)
    requires |s| == ENTITY_SIZE
    ensures Unrecord(s).Fits()
  {
    hide Word, Limit;
    WordBound(s[0..4]); WordBound(s[4..6]); WordBound(s[6..7]); WordBound(s[7..8]); WordBound(s[8..16]);
    WordBound(s[16..24]); WordBound(s[24..32]);
    WordBound(s[32..36]); WordBound(s[36..40]); WordBound(s[40..44]); WordBound(s[44..48]);
    WordBound(s[48..52]); WordBound(s[52..56]);
  }

  // ---------- writing in place ----------

  /** Writes the low n bytes of v at offset at. */
  method Put(buf: array<byte>, at: nat, v: nat, n: nat)
    requires at + n <= buf.Length
    modifies buf
    ensures buf[..at + n] == old(buf[..at]) + Bytes(v, n)
    ensures forall i | at + n <= i < buf.Length :: buf[i] == old(buf[i])
  {
    var rest := v;
    for i := 0 to n
      invariant buf[..at + i] + Bytes(rest, n - i) == old(buf[..at]) + Bytes(v, n)
      invariant forall k | at + i <= k < buf.Length :: buf[k] == old(buf[k])
    {
      buf[at + i] := rest % 256;
      rest := rest / 256;
    }
  }

  method Copy(buf: array<byte>, at: nat, s: seq<byte>)
    requires at + |s| <= buf.Length
    modifies buf
    ensures buf[..at + |s|] == old(buf[..at]) + s
    ensures forall i | at + |s| <= i < buf.Length :: buf[i] == old(buf[i])
  {
    for i := 0 to |s|
      invariant buf[..at + i] == old(buf[..at]) + s[..i]
      invariant forall k | at + i <= k < buf.Length :: buf[k] == old(buf[k])
    {
      buf[at + i] := s[i];
    }
  }

  method PutIdentity(e: EntityState, buf: array<byte>, at: nat)
    requires at + 16 <= buf.Length
    modifies buf
    ensures buf[..at + 16] == old(buf[..at]) + Identity(e)
    ensures forall i | at + 16 <= i < buf.Length :: buf[i] == old(buf[i])
  {
    hide Bytes;
    Put(buf, at, e.entityId, 4);
    Put(buf, at + 4, e.flags, 2);
    Put(buf, at + 6, e.entityType, 1);
    Put(buf, at + 7, e.padding, 1);
    Put(buf, at + 8, e.timestampMs, 8);
  }

  method PutPlace(e: EntityState, buf: array<byte>, at: nat)
    requires at + 16 <= buf.Length
    modifies buf
    ensures buf[..at + 16] == old(buf[..at]) + Place(e)
    ensures forall i | at + 16 <= i < buf.Length :: buf[i] == old(buf[i])
  {
    hide Bytes;
    Put(buf, at, e.latitude, 8);
    Put(buf, at + 8, e.longitude, 8);
  }

  method PutMotion(e: EntityState, buf: array<byte>, at: nat)
    requires at + 16 <= buf.Length
    modifies buf
    ensures buf[..at + 16] == old(buf[..at]) + Motion(e)
    ensures forall i | at + 16 <= i < buf.Length :: buf[i] == old(buf[i])
  {
    hide Bytes;
    Put(buf, at, e.altitudeM, 4);
    Put(buf, at + 4, e.speedMs, 4);
    Put(buf, at + 8, e.headingDeg, 4);
    Put(buf, at + 12, e.vrateMs, 4);
  }

  method PutRest(e: EntityState, buf: array<byte>, at: nat)
    requires at + 16 <= buf.Length && |e.reserved| == 8
    modifies buf
    ensures buf[..at + 16] == old(buf[..at]) + Rest(e)
    ensures forall i | at + 16 <= i < buf.Length :: buf[i] == old(buf[i])
  {
    hide Bytes;
    Put(buf, at, e.sequence, 4);
    Put(buf, at + 4, e.gridCell, 4);
    Copy(buf, at + 8, e.reserved);
  }

  /** Encodes one entity into the 64 bytes at offset at. */
  method MarshalBinary(e: EntityState, buf: array<byte>, at: nat)
    requires at + ENTITY_SIZE <= buf.Length && |e.reserved| == 8
    modifies buf
    ensures buf[..at + ENTITY_SIZE] == old(buf[..at]) + Record(e)
    ensures forall i | at + ENTITY_SIZE <= i < buf.Length :: buf[i] == old(buf[i])
  {
    hide Identity, Place, Motion, Rest;
    PutIdentity(e, buf, at);
    PutPlace(e, buf, at + 16);
    PutMotion(e, buf, at + 32);
    PutRest(e, buf, at + 48);
  }

  /** Reads one entity back: the one whose record these 64 bytes are. */
  method UnmarshalBinary(buf: array<byte>, at: nat) returns (e: EntityState)
    requires at + ENTITY_SIZE <= buf.Length
    ensures e.Fits() && Record(e) == buf[at..at + ENTITY_SIZE]
    ensures e == Unrecord(buf[at..at + ENTITY_SIZE])
  {
    hide Word, Record, EntityState.Fits;
    RecordOfUnrecord(buf[at..at + ENTITY_SIZE]);
    var s := buf[at..at + ENTITY_SIZE];
    e := EntityState(Word(s[0..4]), Word(s[4..6]), Word(s[6..7]), Word(s[7..8]), Word(s[8..16]),
                     Word(s[16..24]), Word(s[24..32]), Word(s[32..36]), Word(s[36..40]), Word(s[40..44]),
                     Word(s[44..48]), Word(s[48..52]), Word(s[52..56]), s[56..64]);
  }

  method MarshalFrameHeader(h: FrameHeader, buf: array<byte>)
    requires HEADER_SIZE <= buf.Length
    modifies buf
    ensures buf[..HEADER_SIZE] == Header(h)
    ensures forall i | HEADER_SIZE <= i < buf.Length :: buf[i] == old(buf[i])
  {
    hide Bytes;
    Put(buf, 0, h.magic, 4);
    Put(buf, 4, h.version, 1);
    Put(buf, 5, h.frameType, 1);
    Put(buf, 6, h.entityCount, 2);
    Put(buf, 8, h.timestampMs, 8);
  }

  /** A complete frame. The entity count is cut to 16 bits. */
  function Frame(es: seq<EntityState>, timestampMs: nat): seq<byte>
    requires Reserved(es)
  {
    Header(FrameHeader(FRAME_MAGIC, PROTOCOL_VERSION, 0, |es| % 0x1_0000, timestampMs)) + Records(es)
  }

  /** Every frame starts with "FRGS", version 1 and type 0. */
  lemma FrameStart(es: seq<EntityState>, timestampMs: nat)
    requires Reserved(es)
    ensures Frame(es, timestampMs)[..6] == [0x46, 0x52, 0x47, 0x53, 1, 0]
  {
    hide Records;
    assert Bytes(0x53475246, 4) == [0x46] + Bytes(0x534752, 3);
    assert Bytes(0x534752, 3) == [0x52] + Bytes(0x5347, 2);
    assert Bytes(0x5347, 2) == [0x47] + Bytes(0x53, 1);
    assert Bytes(0x53, 1) == [0x53] + Bytes(0, 0);
    assert Bytes(1, 1) == [1] + Bytes(0, 0) && Bytes(0, 1) == [0] + Bytes(0, 0);
  }

  /** Writes all records behind the header. */
  method PutFrame(es: seq<EntityState>, buf: array<byte>, timestampMs: nat)
    requires Reserved(es) && HEADER_SIZE + |es| * ENTITY_SIZE <= buf.Length
    modifies buf
    ensures buf[..HEADER_SIZE + |es| * ENTITY_SIZE] == Frame(es, timestampMs)
    ensures forall i | HEADER_SIZE + |es| * ENTITY_SIZE <= i < buf.Length :: buf[i] == old(buf[i])
  {
    hide Record, Header;
    var header := FrameHeader(FRAME_MAGIC, PROTOCOL_VERSION, 0, |es| % 0x1_0000, timestampMs);
    MarshalFrameHeader(header, buf);
    for i := 0 to |es|
      invariant buf[..HEADER_SIZE + i * ENTITY_SIZE] == Header(header) + Records(es[..i])
      invariant forall k | HEADER_SIZE + |es| * ENTITY_SIZE <= k < buf.Length :: buf[k] == old(buf[k])
    {
      assert es[..i + 1][..i] == es[..i];
      MarshalBinary(es[i], buf, HEADER_SIZE + i * ENTITY_SIZE);
      Regroup(Header(header), Records(es[..i]), Record(es[i]));
    }
    assert es[..|es|] == es;
  }

  /** Encodes a complete frame into a new buffer. */
  method EncodeFrame(es: seq<EntityState>, timestampMs: nat) returns (buf: array<byte>)
    requires Reserved(es)
    ensures fresh(buf) && buf[..] == Frame(es, timestampMs)
  {
    buf := new byte[HEADER_SIZE + |es| * ENTITY_SIZE];
    PutFrame(es, buf, timestampMs);
  }

  /** Encodes into a buffer that may be larger; zero if it is too small. */
  method EncodeFrameInto(es: seq<EntityState>, buf: array<byte>, timestampMs: nat) returns (written: nat)
    requires Reserved(es)
    modifies buf
    ensures var needed := HEADER_SIZE + |es| * ENTITY_SIZE;
            if buf.Length < needed then written == 0 && buf[..] == old(buf[..])
            else written == needed && buf[..] == Frame(es, timestampMs) + old(buf[needed..])
  {
    written := HEADER_SIZE + |es| * ENTITY_SIZE;
    if buf.Length < written {
      return 0;
    }
    PutFrame(es, buf, timestampMs);
  }

  // ---------- reading back ----------

  function Entities(body: seq<byte>, n: nat): (es: seq<EntityState>)
    requires ENTITY_SIZE * n <= |body|
    ensures |es| == n
  {
    seq(n, i requires 0 <= i < n => Unrecord(body[ENTITY_SIZE * i..ENTITY_SIZE * i + ENTITY_SIZE]))
  }

  function Decode(data: seq<byte>): Option<(FrameHeader, seq<EntityState>)> {
    if |data| < HEADER_SIZE then None
    else
      var h := Unheader(data[..HEADER_SIZE]);
      if h.magic != FRAME_MAGIC || |data| - HEADER_SIZE < h.entityCount * ENTITY_SIZE then None
      else Some((h, Entities(data[HEADER_SIZE..], h.entityCount)))
  }

  /** The protocol library's decoder. */
  method DecodeFrame(data: seq<byte>) returns (r: Option<(FrameHeader, seq<EntityState>)>)
    ensures r == Decode(data)
  {
    hide Unheader, Unrecord;
    if |data| < HEADER_SIZE {
      return None;
    }
    var header := Unheader(data[..HEADER_SIZE]);
    if header.magic != FRAME_MAGIC {
      return None;
    }
    var body := data[HEADER_SIZE..];
    if |body| < header.entityCount * ENTITY_SIZE {
      return None;
    }
    var entities := [];
    for i := 0 to header.entityCount
      invariant entities == Entities(body, i)
    {
      var offset := i * ENTITY_SIZE;
      entities := entities + [Unrecord(body[offset..offset + ENTITY_SIZE])];
    }
    return Some((header, entities));
  }

  lemma HeaderRoundTrip(h: FrameHeader)
    requires h.magic < Limit(4) && h.version < Limit(1) && h.frameType < Limit(1)
    requires h.entityCount < Limit(2) && h.timestampMs < Limit(8)
    ensures Unheader(Header(h)) == h
  {
    var s := Header(h);
    hide Bytes, Word, Limit;
    assert s[0..4] == Bytes(h.magic, 4) && s[4..5] == Bytes(h.version, 1) && s[5..6] == Bytes(h.frameType, 1)
        && s[6..8] == Bytes(h.entityCount, 2) && s[8..16] == Bytes(h.timestampMs, 8);
    WordOfBytes(h.magic, 4); WordOfBytes(h.version, 1); WordOfBytes(h.frameType, 1);
    WordOfBytes(h.entityCount, 2); WordOfBytes(h.timestampMs, 8);
  }

  lemma {:induction false} RecordAt(es: seq<EntityState>, i: nat)
    requires Reserved(es) && i < |es|
    ensures Records(es)[ENTITY_SIZE * i..ENTITY_SIZE * i + ENTITY_SIZE] == Record(es[i])
  {
    hide Record;
    var n := |es| - 1;
    if i < n {
      RecordAt(es[..n], i);
      SlicePrefix(Records(es[..n]), Record(es[n]), ENTITY_SIZE * i, ENTITY_SIZE * i + ENTITY_SIZE);
    }
  }

  ghost predicate Encodable(es: seq<EntityState>) {
    forall i | 0 <= i < |es| :: es[i].Fits()
  }

  lemma EntityAt(es: seq<EntityState>, i: nat, tail: seq<byte>)
    requires Reserved(es) && Encodable(es) && i < |es|
    ensures Unrecord((Records(es) + tail)[ENTITY_SIZE * i..ENTITY_SIZE * i + ENTITY_SIZE]) == es[i]
  {
    hide Record, Unrecord, Records;
    var lo, hi := ENTITY_SIZE * i, ENTITY_SIZE * i + ENTITY_SIZE;
    RecordAt(es, i);
    SlicePrefix(Records(es), tail, lo, hi);
    RecordRoundTrip(es[i]);
  }

  lemma EntitiesOfRecords(es: seq<EntityState>, n: nat, tail: seq<byte>)
    requires Reserved(es) && Encodable(es) && n <= |es|
    ensures Entities(Records(es) + tail, n) == es[..n]
  {
    hide Record, Unrecord, Records, Encodable, Reserved;
    forall i | 0 <= i < n
      ensures Entities(Records(es) + tail, n)[i] == es[i]
    {
      EntityAt(es, i, tail);
    }
  }

  lemma DecodeParts(h: FrameHeader, body: seq<byte>)
    requires Unheader(Header(h)) == h && h.magic == FRAME_MAGIC && |body| >= ENTITY_SIZE * h.entityCount
    ensures Decode(Header(h) + body) == Some((h, Entities(body, h.entityCount)))
  {
    hide Header, Unheader, Entities;
    var data := Header(h) + body;
    assert data[..HEADER_SIZE] == Header(h) && data[HEADER_SIZE..] == body;
  }

  lemma FrameHeaderRead(n: nat, timestampMs: nat)
    requires n < 0x1_0000 && timestampMs < Limit(8)
    ensures var header := FrameHeader(FRAME_MAGIC, PROTOCOL_VERSION, 0, n, timestampMs);
            Unheader(Header(header)) == header
  {
    hide Header, Unheader;
    Limits();
    HeaderRoundTrip(FrameHeader(FRAME_MAGIC, PROTOCOL_VERSION, 0, n, timestampMs));
  }

  lemma FrameOf(es: seq<EntityState>, timestampMs: nat)
    requires Reserved(es)
    ensures Frame(es, timestampMs) == Header(FrameHeader(FRAME_MAGIC, PROTOCOL_VERSION, 0, |es| % 0x1_0000, timestampMs)) + Records(es)
  {
    hide Header, Records;
  }

  /** Decoding an encoded frame, whatever follows it, returns the header and the encoded entities bit
      for bit: all of them up to 65535, and in general the first n mod 65536. */
  lemma FrameRoundTrip(es: seq<EntityState>, timestampMs: nat, tail: seq<byte>)
    requires Reserved(es) && Encodable(es) && timestampMs < Limit(8)
    ensures var n := |es| % 0x1_0000;
            Decode(Frame(es, timestampMs) + tail)
              == Some((FrameHeader(FRAME_MAGIC, PROTOCOL_VERSION, 0, n, timestampMs), es[..n]))
    ensures |es| <= 65535 ==> es[..|es| % 0x1_0000] == es
  {
    var n := |es| % 0x1_0000;
    var header := FrameHeader(FRAME_MAGIC, PROTOCOL_VERSION, 0, n, timestampMs);
    hide Frame, Header, Unheader, Record, Unrecord, Records, Limit, Entities, Encodable, Reserved, Decode;
    FrameHeaderRead(n, timestampMs);
    FrameOf(es, timestampMs);
    EntitiesOfRecords(es, n, tail);
    Regroup(Header(header), Records(es), tail);
    DecodeParts(header, Records(es) + tail);
  }
}
