/** What a subscriber gets of a generator's entities: the viewport test in terms of coordinates, and the
    frame that is queued. */
module EdgeSelection {
  import opened BitStrings
  import opened Sequences
  import opened Options
  import opened LittleEndian
  import opened FrameCodec
  import opened EdgeServer
  import opened EntityLookup

  // ---------- 64-bit floating-point numbers (IEEE 754 section 3.4) ----------

  // 2^52, the number of fractions
  const FRACTIONS: nat := 0x10_0000_0000_0000

  /** The magnitude of a word without its sign bit, in units of 2^-1074. */
  function Units(m: nat): nat {
    var exponent, fraction := m / FRACTIONS, m % FRACTIONS;
    if exponent == 0 then fraction else (FRACTIONS + fraction) * Pow2(exponent - 1)
  }

  /** Neither infinite nor not a number. */
  predicate IsFinite(w: nat) {
    w < 0x1_0000_0000_0000_0000 && w % 0x8000_0000_0000_0000 / FRACTIONS < 2047
  }

  function SignedUnits(w: nat): int {
    if w >= 0x8000_0000_0000_0000 then -(Units(w - 0x8000_0000_0000_0000) as int) else Units(w)
  }

  /** The number a word denotes. */
  function ValueOf(w: nat): real {
    SignedUnits(w) as real / Pow2(1074) as real
  }

  lemma {:induction false} PowMonotone(m: nat, n: nat)
    requires m <= n
    ensures Pow2(m) <= Pow2(n)
    decreases n
  {
    if m < n {
      PowMonotone(m, n - 1);
    }
  }

  lemma Scaled(a: nat, b: nat, p: nat)
    requires p > 0
    ensures a < b ==> a * p < b * p
    ensures a <= b ==> a * p <= b * p
  {
  }

  lemma UnitsRange(m: nat)
    ensures var e := m / FRACTIONS;
            if e == 0 then Units(m) < FRACTIONS
            else FRACTIONS * Pow2(e - 1) <= Units(m) < FRACTIONS * Pow2(e)
  {
    var e, f := m / FRACTIONS, m % FRACTIONS;
    if e > 0 {
      Scaled(FRACTIONS, FRACTIONS + f, Pow2(e - 1));
      Scaled(FRACTIONS + f, 2 * FRACTIONS, Pow2(e - 1));
      assert 2 * FRACTIONS * Pow2(e - 1) == FRACTIONS * Pow2(e);
    }
  }

  lemma UnitsIncrease(m: nat, n: nat)
    requires m < n
    ensures Units(m) < Units(n)
  {
    var e, e' := m / FRACTIONS, n / FRACTIONS;
    UnitsRange(m);
    UnitsRange(n);
    if e == e' {
      if e > 0 {
        Scaled(FRACTIONS + m % FRACTIONS, FRACTIONS + n % FRACTIONS, Pow2(e - 1));
      }
    } else {
      PowMonotone(e, e' - 1);
      Scaled(Pow2(e), Pow2(e' - 1), FRACTIONS);
    }
  }

  lemma UnitsOrder(m: nat, n: nat)
    ensures m < n <==> Units(m) < Units(n)
    ensures Units(m) == 0 <==> m == 0
  {
    if m < n {
      UnitsIncrease(m, n);
    } else if n < m {
      UnitsIncrease(n, m);
    }
    if m > 0 {
      UnitsIncrease(0, m);
    }
  }

  lemma SignedOrder(a: nat, b: nat)
    requires IsFinite(a) && IsFinite(b)
    ensures Less(a, b) <==> SignedUnits(a) < SignedUnits(b)
  {
    var sign := 0x8000_0000_0000_0000;
    var m, n := a % sign, b % sign;
    UnitsOrder(m, n);
    UnitsOrder(n, m);
    FiniteWord(a);
    FiniteWord(b);
    hide Units;
  }

  lemma FiniteWord(w: nat)
    requires IsFinite(w)
    ensures !IsNaN(w)
    ensures w % 0x8000_0000_0000_0000 == if w >= 0x8000_0000_0000_0000 then w - 0x8000_0000_0000_0000 else w
  {
  }

  /** The comparison of words is the order of the numbers they denote. */
  lemma LessIsOrder(a: nat, b: nat)
    requires IsFinite(a) && IsFinite(b)
    ensures Less(a, b) <==> ValueOf(a) < ValueOf(b)
  {
    SignedOrder(a, b);
    hide SignedUnits, Less, Pow2;
    Quotients(SignedUnits(a) as real, SignedUnits(b) as real, Pow2(1074) as real);
  }

  /** An infinity is beyond every number, and what is not a number is neither below nor above any word. */
  lemma SpecialWords(a: nat, w: nat)
    requires IsFinite(a) && w < 0x1_0000_0000_0000_0000 && !IsFinite(w)
    ensures w % FRACTIONS != 0 ==> !Less(a, w) && !Less(w, a)
    ensures w % FRACTIONS == 0 && w < 0x8000_0000_0000_0000 ==> Less(a, w) && !Less(w, a)
    ensures w % FRACTIONS == 0 && w >= 0x8000_0000_0000_0000 ==> Less(w, a) && !Less(a, w)
  {
  }

  lemma Quotients(x: real, y: real, d: real)
    requires d > 0.0
    ensures x < y <==> x / d < y / d
  {
    assert x / d * d == x && y / d * d == y;
    if x / d < y / d {
      assert (y / d - x / d) * d > 0.0;
    } else {
      assert (x / d - y / d) * d >= 0.0;
    }
  }

  // ---------- the fields of a record ----------

  /** What the edge server reads in a marshalled entity. */
  lemma RecordFields(e: EntityState)
    requires e.Fits()
    ensures IdOf(Record(e)) == e.entityId && SeqOf(Record(e)) == e.sequence
    ensures LatOf(Record(e)) == e.latitude && LonOf(Record(e)) == e.longitude
  {
    RecordRoundTrip(e);
    hide Record, Word;
    var s := Record(e);
    assert Unrecord(s).entityId == Word(s[0..4]) && Unrecord(s).sequence == Word(s[48..52]);
    assert Unrecord(s).latitude == Word(s[16..24]) && Unrecord(s).longitude == Word(s[24..32]);
  }

  /** The coordinates of the entity are within the bounds. */
  predicate Contains(vp: Viewport, e: EntityState) {
    && ValueOf(vp.minLat) <= ValueOf(e.latitude) <= ValueOf(vp.maxLat)
    && ValueOf(vp.minLon) <= ValueOf(e.longitude) <= ValueOf(vp.maxLon)
  }

  predicate FiniteBounds(vp: Viewport) {
    IsFinite(vp.minLat) && IsFinite(vp.maxLat) && IsFinite(vp.minLon) && IsFinite(vp.maxLon)
  }

  /** An entity whose fields fit and whose coordinates are numbers. */
  ghost predicate Located(e: EntityState) {
    e.Fits() && IsFinite(e.latitude) && IsFinite(e.longitude)
  }

  /** The viewport test, for any words: no coordinate is below or above its own bounds. */
  lemma InViewWords(vp: Viewport, e: EntityState)
    requires e.Fits()
    ensures InView(Some(vp), Record(e)) <==>
              !(Less(e.latitude, vp.minLat) || Less(vp.maxLat, e.latitude) || Less(e.longitude, vp.minLon) || Less(vp.maxLon, e.longitude))
  {
    RecordFields(e);
    hide Record, Less, LatOf, LonOf;
  }

  /** And for numbers. */
  lemma InViewIff(vp: Viewport, e: EntityState)
    requires Located(e) && FiniteBounds(vp)
    ensures InView(Some(vp), Record(e)) <==> Contains(vp, e)
  {
    hide Record, Less, ValueOf, IsFinite, InView;
    InViewWords(vp, e);
    LessIsOrder(e.latitude, vp.minLat);
    LessIsOrder(vp.maxLat, e.latitude);
    LessIsOrder(e.longitude, vp.minLon);
    LessIsOrder(vp.maxLon, e.longitude);
  }

  // ---------- selection ----------

  ghost predicate AllLocated(es: seq<EntityState>) {
    forall i | 0 <= i < |es| :: Located(es[i])
  }

  /** Within the bounds, and not what the client has. */
  predicate Wanted(vp: Viewport, have: map<nat, nat>, e: EntityState) {
    Contains(vp, e) && !(e.entityId in have && have[e.entityId] == e.sequence)
  }

  /** The entities within the bounds that the client does not have with this sequence number. */
  function Selected(vp: Viewport, have: map<nat, nat>, es: seq<EntityState>): (s: seq<EntityState>)
    ensures |s| <= |es|
    ensures forall i | 0 <= i < |s| :: s[i] in es
  {
    if es == [] then []
    else
      var e := es[|es| - 1];
      Selected(vp, have, es[..|es| - 1])
      + if Wanted(vp, have, e) then [e] else []
  }

  function RecordsOf(es: seq<EntityState>): (s: seq<Entity>)
    requires Reserved(es)
    ensures |s| == |es|
  {
    if es == [] then [] else RecordsOf(es[..|es| - 1]) + [Record(es[|es| - 1])]
  }

  lemma MatchedNext(vp: Option<Viewport>, lastSent: Option<map<nat, nat>>, es: seq<Entity>, e: Entity)
    ensures Matched(vp, lastSent, es + [e])
         == Matched(vp, lastSent, es) + if InView(vp, e) && !Unchanged(lastSent, e) then [e] else []
  {
    hide InView, Unchanged;
    assert (es + [e])[..|es|] == es;
    var v := Visible(vp, es);
    assert (v + [e])[..|v|] == v && v + [] == v;
    assert Visible(vp, es + [e]) == if InView(vp, e) then v + [e] else v;
  }

  lemma {:induction false} MatchedSelects(vp: Viewport, have: map<nat, nat>, es: seq<EntityState>)
    requires AllLocated(es) && Reserved(es) && FiniteBounds(vp)
    ensures Reserved(Selected(vp, have, es))
    ensures Matched(Some(vp), Some(have), RecordsOf(es)) == RecordsOf(Selected(vp, have, es))
  {
    if es == [] {
      NothingSelected(vp, have);
    } else {
      var front, e := es[..|es| - 1], es[|es| - 1];
      assert es == front + [e];
      MatchedSelects(vp, have, front);
      FitsOf(e);
      SelectsNext(vp, have, front, e);
    }
  }

  lemma NothingSelected(vp: Viewport, have: map<nat, nat>)
    ensures Selected(vp, have, []) == [] && RecordsOf([]) == [] && Matched(Some(vp), Some(have), []) == []
  {
  }

  lemma SelectedNext(vp: Viewport, have: map<nat, nat>, front: seq<EntityState>, e: EntityState)
    ensures Selected(vp, have, front + [e]) == Selected(vp, have, front) + if Wanted(vp, have, e) then [e] else []
  {
    hide Wanted;
    assert (front + [e])[..|front|] == front;
  }

  lemma WantedIff(vp: Viewport, have: map<nat, nat>, e: EntityState)
    requires Located(e) && FiniteBounds(vp)
    ensures Wanted(vp, have, e) <==> InView(Some(vp), Record(e)) && !Unchanged(Some(have), Record(e))
  {
    hide Record, Contains, InView, Located, FiniteBounds, IdOf, SeqOf;
    FitsOf(e);
    InViewIff(vp, e);
    RecordFields(e);
  }

  lemma SelectsNext(vp: Viewport, have: map<nat, nat>, front: seq<EntityState>, e: EntityState)
    requires Located(e) && |e.reserved| == 8 && FiniteBounds(vp) && Reserved(front) && Reserved(Selected(vp, have, front))
    requires Matched(Some(vp), Some(have), RecordsOf(front)) == RecordsOf(Selected(vp, have, front))
    ensures Reserved(front + [e]) && Reserved(Selected(vp, have, front + [e]))
    ensures Matched(Some(vp), Some(have), RecordsOf(front + [e])) == RecordsOf(Selected(vp, have, front + [e]))
  {
    hide Record, InView, Unchanged, Wanted, Matched, Located, FiniteBounds, RecordsOf, Selected, Reserved;
    var s, r := Selected(vp, have, front), RecordsOf(Selected(vp, have, front));
    MatchedNext(Some(vp), Some(have), RecordsOf(front), Record(e));
    WantedIff(vp, have, e);
    SelectedNext(vp, have, front, e);
    RecordsAppend(front, e);
    RecordsAppend(s, e);
    assert r + [] == r && s + [] == s;
  }

  lemma FitsOf(e: EntityState)
    requires Located(e)
    ensures e.Fits()
  {
  }

  lemma RecordsAppend(es: seq<EntityState>, e: EntityState)
    requires Reserved(es) && |e.reserved| == 8
    ensures Reserved(es + [e]) && RecordsOf(es + [e]) == RecordsOf(es) + [Record(e)]
  {
    hide Record;
    assert (es + [e])[..|es|] == es;
  }

  // ---------- frames ----------

  lemma {:induction false} FirstEntitiesOf(frame: seq<byte>, es: seq<EntityState>, n: nat)
    requires Reserved(es) && n <= |es| && HEADER_SIZE + |es| * ENTITY_SIZE <= |frame|
    requires frame[HEADER_SIZE..] == Records(es)
    ensures FirstEntities(frame, n) == RecordsOf(es[..n])
  {
    hide Record, Records;
    if n > 0 {
      FirstEntitiesOf(frame, es, n - 1);
      RecordAt(es, n - 1);
      var lo := ENTITY_SIZE * (n - 1);
      assert frame[HEADER_SIZE..][lo..lo + ENTITY_SIZE] == frame[HEADER_SIZE + lo..HEADER_SIZE + lo + ENTITY_SIZE];
      assert es[..n] == es[..n - 1] + [es[n - 1]];
      RecordsAppend(es[..n - 1], es[n - 1]);
    }
  }

  /** A frame with this header, so many records announced and these bytes behind it. */
  predicate HasParts(frame: seq<byte>, start: seq<byte>, count: nat, time: seq<byte>, records: seq<byte>) {
    && |frame| >= 16 && frame[..6] == start && frame[6..8] == Bytes(count, 2) && frame[8..16] == time
    && frame[16..] == records
  }

  lemma FrameParts(es: seq<EntityState>, timestampMs: nat)
    requires Reserved(es) && |es| <= 65535
    ensures HasParts(Frame(es, timestampMs), Bytes(FRAME_MAGIC, 4) + Bytes(PROTOCOL_VERSION, 1) + Bytes(0, 1), |es|,
                     Bytes(timestampMs, 8), Records(es))
  {
    hide *;
    HeaderOf(es, timestampMs);
    Parts(Frame(es, timestampMs), Bytes(FRAME_MAGIC, 4), Bytes(PROTOCOL_VERSION, 1), Bytes(0, 1), Bytes(|es|, 2), Bytes(timestampMs, 8), Records(es));
    IsParts(Frame(es, timestampMs), Bytes(FRAME_MAGIC, 4) + Bytes(PROTOCOL_VERSION, 1) + Bytes(0, 1), |es|, Bytes(timestampMs, 8), Records(es));
  }

  lemma HeaderOf(es: seq<EntityState>, timestampMs: nat)
    requires Reserved(es) && |es| <= 65535
    ensures Frame(es, timestampMs)
         == Bytes(FRAME_MAGIC, 4) + Bytes(PROTOCOL_VERSION, 1) + Bytes(0, 1) + Bytes(|es|, 2) + Bytes(timestampMs, 8) + Records(es)
  {
    hide *;
    FrameIs(es, timestampMs, |es|);
    HeaderIs(FrameHeader(FRAME_MAGIC, PROTOCOL_VERSION, 0, |es|, timestampMs));
  }

  lemma FrameIs(es: seq<EntityState>, timestampMs: nat, n: nat)
    requires Reserved(es) && n == |es| <= 65535
    ensures Frame(es, timestampMs) == Header(FrameHeader(FRAME_MAGIC, PROTOCOL_VERSION, 0, n, timestampMs)) + Records(es)
  {
    hide Header, Records;
    assert n % 0x1_0000 == n;
  }

  lemma HeaderIs(h: FrameHeader)
    ensures Header(h) == Bytes(h.magic, 4) + Bytes(h.version, 1) + Bytes(h.frameType, 1) + Bytes(h.entityCount, 2) + Bytes(h.timestampMs, 8)
  {
    hide Bytes;
  }

  lemma Parts(s: seq<byte>, a: seq<byte>, b: seq<byte>, c: seq<byte>, d: seq<byte>, e: seq<byte>, f: seq<byte>)
    requires |a| == 4 && |b| == |c| == 1 && |d| == 2 && |e| == 8
    requires s == a + b + c + d + e + f
    ensures |s| >= 16 && s[..6] == a + b + c && s[6..8] == d && s[8..16] == e && s[16..] == f
  {
    assert s == (a + b + c) + (d + (e + f));
  }

  lemma IsParts(s: seq<byte>, start: seq<byte>, count: nat, time: seq<byte>, records: seq<byte>)
    requires |s| >= 16 && s[..6] == start && s[6..8] == Bytes(count, 2) && s[8..16] == time && s[16..] == records
    ensures HasParts(s, start, count, time, records)
  {
  }

  /** The records that the edge server finds in a frame are those of its entities. */
  lemma FrameRecords(es: seq<EntityState>, timestampMs: nat)
    requires Reserved(es) && |es| <= 65535
    ensures FrameValid(Frame(es, timestampMs)) && EntitiesOf(Frame(es, timestampMs)) == RecordsOf(es)
  {
    hide Word, Bytes, Records, Frame, RecordsOf, Limit;
    var frame := Frame(es, timestampMs);
    FrameParts(es, timestampMs);
    Limits();
    WordOfBytes(|es|, 2);
    assert |frame| == 16 + |frame[16..]|;
    FirstEntitiesOf(frame, es, |es|);
    assert es[..|es|] == es;
  }

  lemma {:induction false} JoinRecords(es: seq<EntityState>)
    requires Reserved(es)
    ensures Join(RecordsOf(es)) == Records(es)
  {
    hide Record;
    if es != [] {
      JoinRecords(es[..|es| - 1]);
      assert RecordsOf(es)[..|es| - 1] == RecordsOf(es[..|es| - 1]);
    }
  }

  /** Filtering a frame of some entities down to others gives the frame of those. */
  lemma FilteredIsFrame(es: seq<EntityState>, kept: seq<EntityState>, timestampMs: nat)
    requires Reserved(es) && Reserved(kept) && |kept| <= |es| <= 65535
    ensures FilteredFrame(Frame(es, timestampMs)[..HEADER_SIZE], RecordsOf(kept)) == Frame(kept, timestampMs)
  {
    hide *;
    JoinRecords(kept);
    FrameParts(es, timestampMs);
    FrameParts(kept, timestampMs);
    FilteredSplice(Frame(es, timestampMs), Frame(kept, timestampMs), RecordsOf(kept), |es|, Records(es),
                   Bytes(FRAME_MAGIC, 4) + Bytes(PROTOCOL_VERSION, 1) + Bytes(0, 1), Bytes(timestampMs, 8));
  }

  /** A filtered frame is the one with the same header, its own count and its own records. */
  lemma FilteredSplice(frame: seq<byte>, other: seq<byte>, es: seq<Entity>, n: nat, records: seq<byte>, start: seq<byte>, time: seq<byte>)
    requires HasParts(frame, start, n, time, records) && HasParts(other, start, |es|, time, Join(es))
    ensures |frame| >= HEADER_SIZE && FilteredFrame(frame[..HEADER_SIZE], es) == other
  {
    hide *;
    Slices(frame, start, n, time, records);
    Slices(other, start, |es|, time, Join(es));
    Spliced(frame, other, es);
  }

  lemma Slices(frame: seq<byte>, start: seq<byte>, count: nat, time: seq<byte>, records: seq<byte>)
    requires HasParts(frame, start, count, time, records)
    ensures |frame| >= HEADER_SIZE && frame[..6] == start && frame[6..8] == Bytes(count, 2) && frame[8..16] == time
    ensures frame[16..] == records && HEADER_SIZE == 16
  {
  }

  lemma Spliced(frame: seq<byte>, other: seq<byte>, es: seq<Entity>)
    requires HEADER_SIZE == 16 && |frame| >= HEADER_SIZE && |other| >= 16
    requires frame[..6] == other[..6] && frame[8..16] == other[8..16]
    requires other[6..8] == Bytes(|es|, 2) && other[16..] == Join(es)
    ensures FilteredFrame(frame[..HEADER_SIZE], es) == other
  {
    hide Bytes, Join;
    Heads(frame);
    Whole(other, frame[..16][..6], Bytes(|es|, 2), frame[..16][8..], Join(es));
  }

  lemma Heads(frame: seq<byte>)
    requires |frame| >= 16
    ensures frame[..16][..6] == frame[..6] && frame[..16][8..] == frame[8..16]
  {
  }

  lemma Whole(s: seq<byte>, a: seq<byte>, b: seq<byte>, c: seq<byte>, d: seq<byte>)
    requires |s| >= 16 && s[..6] == a && s[6..8] == b && s[8..16] == c && s[16..] == d
    ensures a + b + c + d == s
  {
  }

  /** What a subscriber is sent of a frame: the frame of exactly the entities within its bounds that it does not
      have with that sequence number, and nothing if there are none. */
  lemma SubscriberGets(vp: Viewport, have: map<nat, nat>, es: seq<EntityState>, timestampMs: nat)
    requires AllLocated(es) && Reserved(es) && FiniteBounds(vp) && |es| <= 65535
    ensures var kept := Selected(vp, have, es);
            && Reserved(kept)
            && Outgoing(Snapshot(Some(vp), Some(have)), Frame(es, timestampMs)) == if kept == [] then None else Some(Frame(kept, timestampMs))
  {
    hide Frame, Matched, FilteredFrame, Selected, EntitiesOf, FrameValid, AllLocated, RecordsOf;
    FrameRecords(es, timestampMs);
    MatchedSelects(vp, have, es);
    FilteredIsFrame(es, Selected(vp, have, es), timestampMs);
    FrameSize(es, timestampMs);
  }

  lemma FrameSize(es: seq<EntityState>, timestampMs: nat)
    requires Reserved(es)
    ensures |Frame(es, timestampMs)| >= HEADER_SIZE
    ensures es == [] <==> RecordsOf(es) == []
  {
  }

  /** The sequence numbers a client has of a generator's entities, after these more. */
  function Having(have: map<nat, nat>, es: seq<EntityState>): map<nat, nat> {
    if es == [] then have else Having(have, es[..|es| - 1])[es[|es| - 1].entityId := es[|es| - 1].sequence]
  }

  lemma {:induction false} RecordedHaving(have: map<nat, nat>, es: seq<EntityState>)
    requires Encodable(es) && Reserved(es)
    ensures Recorded(have, RecordsOf(es)) == Having(have, es)
  {
    hide Record, IdOf, SeqOf;
    if es != [] {
      var front, e := es[..|es| - 1], es[|es| - 1];
      RecordedHaving(have, front);
      RecordFields(e);
      assert RecordsOf(es)[..|es| - 1] == RecordsOf(front);
    }
  }

  /** A broadcast to a subscribed client: the frame of the selected entities is queued if there is room and dropped
      if there is not; it decodes to them bit for bit, and either way they count as sent. */
  lemma SubscriberQueues(c: ClientState, es: seq<EntityState>, timestampMs: nat)
    requires AllLocated(es) && Reserved(es) && |es| <= 65535 && timestampMs < Limit(8)
    requires c.viewport.Some? && FiniteBounds(c.viewport.value) && c.lastSent.Some? && !c.closed
    ensures var kept := Selected(c.viewport.value, c.lastSent.value, es);
            var after := Commit(c, TakeSnapshot(c), Frame(es, timestampMs));
            && Reserved(kept)
            && after.queue == c.queue + (if kept == [] || |c.queue| >= c.capacity then [] else [Frame(kept, timestampMs)])
            && after.lastSent == Some(Having(c.lastSent.value, kept)) && after.viewport == c.viewport && !after.closed
            && Decode(Frame(kept, timestampMs)).Some? && Decode(Frame(kept, timestampMs)).value.1 == kept
  {
    hide Frame, Selected, Decode, AllLocated, Outgoing, Recorded, Matched, EntitiesOf, Limit, RecordsOf, FiniteBounds;
    var (vp, have) := (c.viewport.value, c.lastSent.value);
    var kept := Selected(vp, have, es);
    SubscriberGets(vp, have, es, timestampMs);
    SelectedFit(vp, have, es);
    MatchedSelects(vp, have, es);
    FrameRecords(es, timestampMs);
    RecordedHaving(have, kept);
    FrameDecodes(kept, timestampMs);
  }

  lemma FrameDecodes(es: seq<EntityState>, timestampMs: nat)
    requires Reserved(es) && Encodable(es) && |es| <= 65535 && timestampMs < Limit(8)
    ensures Decode(Frame(es, timestampMs)).Some? && Decode(Frame(es, timestampMs)).value.1 == es
  {
    hide Frame, Decode, Limit;
    FrameRoundTrip(es, timestampMs, []);
    assert Frame(es, timestampMs) + [] == Frame(es, timestampMs);
    assert es[..|es|] == es;
  }

  // ---------- changing subscriptions ----------

  /** A first subscription is served everything within its bounds, and a client that has unsubscribed every frame
      as it is. */
  lemma FirstSubscription(c: ClientState, vp: Viewport, es: seq<EntityState>, timestampMs: nat, frame: seq<byte>)
    requires c.lastSent.None? && AllLocated(es) && Reserved(es) && FiniteBounds(vp) && |es| <= 65535
    ensures var kept := Selected(vp, map[], es);
            && Reserved(kept)
            && Outgoing(TakeSnapshot(Subscribe(c, vp)), Frame(es, timestampMs)) == if kept == [] then None else Some(Frame(kept, timestampMs))
    ensures Outgoing(TakeSnapshot(Unsubscribe(c)), frame) == Some(frame)
  {
    hide Frame, Selected, AllLocated, FrameValid, Matched, EntitiesOf, FilteredFrame, FiniteBounds, Reserved;
    SubscriberGets(vp, map[], es, timestampMs);
  }

  ghost predicate DistinctIds(es: seq<EntityState>) {
    forall i, j | 0 <= i < j < |es| :: es[i].entityId != es[j].entityId
  }

  lemma {:induction false} SelectedDistinct(vp: Viewport, have: map<nat, nat>, es: seq<EntityState>)
    requires DistinctIds(es)
    ensures DistinctIds(Selected(vp, have, es))
    ensures forall i | 0 <= i < |Selected(vp, have, es)| :: Wanted(vp, have, Selected(vp, have, es)[i])
  {
    hide Wanted;
    if es != [] {
      var front, e := es[..|es| - 1], es[|es| - 1];
      SelectedDistinct(vp, have, front);
      var s := Selected(vp, have, front);
      forall i | 0 <= i < |s|
        ensures s[i].entityId != e.entityId
      {
        assert s[i] in front;
      }
    }
  }

  lemma {:induction false} HavingKept(have: map<nat, nat>, es: seq<EntityState>, i: nat)
    requires DistinctIds(es) && i < |es|
    ensures es[i].entityId in Having(have, es) && Having(have, es)[es[i].entityId] == es[i].sequence
  {
    if i < |es| - 1 {
      HavingKept(have, es[..|es| - 1], i);
    }
  }

  /** A change of the viewport does not start over: of the next frame a client is sent exactly the entities within the
      new bounds that it does not have, and none that was sent in the frame before, unless it has changed. */
  lemma Resubscribed(c: ClientState, vp: Viewport, es: seq<EntityState>, timestampMs: nat, next: seq<EntityState>, time: nat)
    requires AllLocated(es) && Reserved(es) && |es| <= 65535 && timestampMs < Limit(8) && DistinctIds(es)
    requires AllLocated(next) && Reserved(next) && |next| <= 65535 && FiniteBounds(vp) && DistinctIds(next)
    requires c.viewport.Some? && FiniteBounds(c.viewport.value) && c.lastSent.Some? && !c.closed
    ensures var sent := Selected(c.viewport.value, c.lastSent.value, es);
            var more := Selected(vp, Having(c.lastSent.value, sent), next);
            && Reserved(more)
            && (Outgoing(TakeSnapshot(Subscribe(Commit(c, TakeSnapshot(c), Frame(es, timestampMs)), vp)), Frame(next, time))
                == if more == [] then None else Some(Frame(more, time)))
            && forall i, j | 0 <= i < |sent| && 0 <= j < |more| ::
                 !(sent[i].entityId == more[j].entityId && sent[i].sequence == more[j].sequence)
  {
    hide Frame, Selected, AllLocated, Outgoing, Commit, Having, Contains, Limit, Reserved, FiniteBounds, DistinctIds, Decode;
    var (bounds, have) := (c.viewport.value, c.lastSent.value);
    SubscriberQueues(c, es, timestampMs);
    var sent := Selected(bounds, have, es);
    var more := Selected(vp, Having(have, sent), next);
    SubscriberGets(vp, Having(have, sent), next, time);
    SelectedDistinct(bounds, have, es);
    SelectedDistinct(vp, Having(have, sent), next);
    forall i, j | 0 <= i < |sent| && 0 <= j < |more|
      ensures !(sent[i].entityId == more[j].entityId && sent[i].sequence == more[j].sequence)
    {
      HavingKept(have, sent, i);
      assert Wanted(vp, Having(have, sent), more[j]);
    }
  }

  lemma SelectedFit(vp: Viewport, have: map<nat, nat>, es: seq<EntityState>)
    requires AllLocated(es)
    ensures Encodable(Selected(vp, have, es)) && |Selected(vp, have, es)| <= |es|
  {
    hide Contains;
    forall i | 0 <= i < |Selected(vp, have, es)|
      ensures Selected(vp, have, es)[i].Fits()
    {
      assert Selected(vp, have, es)[i] in es;
    }
  }
}
