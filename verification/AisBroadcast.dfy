/** Messages of any type on the air: bits armoured, cut anywhere into pieces and written as sentences are
    decoded as if the bits had been handed over directly. */
module AisBroadcast {
  import opened AisBits
  import opened AisDecoder
  import opened AisReassembly
  import opened AisStream
  import opened BitStrings
  import opened Nmea
  import opened Options
  import opened Sequences

  /** The armoured payload of a message. */
  function Payload(bits: seq<bool>): string {
    Armour(Padded(bits))
  }

  lemma DecodePayload(bits: seq<bool>)
    ensures DecodedBits(Payload(bits), FillBits(|bits|)) == bits
  {
    ArmourRoundTrip(bits);
  }

  /** The parts heard so far, whatever else was heard between them. */
  lemma PendingParts(st: State, lines: seq<Heard>, group: seq<Sentence>, key: string, n: nat)
    requires InOrder(group, key) && 0 < n < |group|
    requires Own(SentencesOf(lines), Some(key)) == group[..n]
    ensures var fragments := FeedAll(st, lines).fragments;
            key in fragments && fragments[key] == Payloads(group[..n])
  {
    hide FeedAll, SentencesOf, Own, After, Completed, InOrder, Payloads;
    FragmentsAfter(st, lines);
    Isolation(st.fragments, st.fragments, SentencesOf(lines), Some(key));
    GroupWaits(st.fragments, group, key, n);
  }

  lemma FeedLast(st: State, line: Heard, s: Sentence, key: string)
    requires ParseLine(line.line) == Parsed(s) && s.total > 1 && s.num == s.total && Key(s) == key && key in st.fragments
    ensures Feed(st, line.line, line.now)
         == Decode(st.(fragments := st.fragments - {key}),
                   DecodedBits(Concat(st.fragments[key] + [s.payload]), s.fill), line.now)
  {
    hide ParseLine, Decode, DecodedBits, Concat, Key, Assemble;
    LastPart(st.fragments, s, key);
  }

  lemma FeedEarlier(st: State, line: Heard, s: Sentence, key: string)
    requires ParseLine(line.line) == Parsed(s) && s.total > 1 && s.num < s.total && Key(s) == key
    requires s.num == 1 || key in st.fragments
    ensures var parts := (if s.num == 1 then [] else st.fragments[key]) + [s.payload];
            Feed(st, line.line, line.now) == (st.(fragments := st.fragments[key := parts]), false)
  {
    hide ParseLine, Decode, DecodedBits, Concat, Key;
  }

  /** The last sentence of a message, whatever was heard before and between its parts: the message is
      decoded and its parts are dropped. */
  lemma LastPartDecodes(st: State, lines: seq<Heard>, last: Heard, bits: seq<bool>, group: seq<Sentence>, key: string)
    requires InOrder(group, key) && Concat(Payloads(group)) == Payload(bits)
    requires group[|group| - 1].fill == FillBits(|bits|)
    requires Own(SentencesOf(lines), Some(key)) == group[..|group| - 1]
    requires ParseLine(last.line) == Parsed(group[|group| - 1])
    ensures var before := FeedAll(st, lines);
            Feed(before, last.line, last.now)
              == Decode(before.(fragments := before.fragments - {key}), bits, last.now)
  {
    hide Feed, FeedAll, SentencesOf, Own, Payload, Decode, DecodedBits, Concat, ParseLine, Key, Payloads;
    var n := |group| - 1;
    var before := FeedAll(st, lines);
    PendingParts(st, lines, group, key, n);
    assert group == group[..n] + [group[n]];
    PayloadsAppend(group[..n], group[n]);
    FeedLast(before, last, group[n], key);
    DecodePayload(bits);
  }

  /** The parts before the last are kept without decoding anything. */
  lemma EarlierPartsWait(st: State, lines: seq<Heard>, line: Heard, group: seq<Sentence>, key: string, n: nat)
    requires InOrder(group, key) && n < |group| - 1
    requires Own(SentencesOf(lines), Some(key)) == group[..n]
    requires ParseLine(line.line) == Parsed(group[n])
    ensures var before := FeedAll(st, lines);
            Feed(before, line.line, line.now)
              == (before.(fragments := before.fragments[key := Payloads(group[..n + 1])]), false)
  {
    hide Feed, FeedAll, SentencesOf, Own, ParseLine, Key, Payloads;
    if n > 0 {
      PendingParts(st, lines, group, key, n);
    } else {
      assert Payloads(group[..0]) == [] by { assert |Payloads(group[..0])| == 0; }
    }
    assert group[..n + 1] == group[..n] + [group[n]];
    PayloadsAppend(group[..n], group[n]);
    FeedEarlier(FeedAll(st, lines), line, group[n], key);
  }

  // ---------- a whole broadcast ----------

  /** Pieces of a payload as sentences; a payload in one piece is a message of one sentence. */
  function Sentences(pieces: seq<string>, seqId: string, fill: nat): (ss: seq<Sentence>)
    ensures |ss| == |pieces|
    ensures forall i | 0 <= i < |ss| :: ss[i] == Sentence(|pieces|, i + 1, seqId, pieces[i], if i == |pieces| - 1 then fill else 0)
  {
    seq(|pieces|, i requires 0 <= i < |pieces| => Sentence(|pieces|, i + 1, seqId, pieces[i], if i == |pieces| - 1 then fill else 0))
  }

  lemma {:induction false} PiecePayloads(ss: seq<Sentence>, pieces: seq<string>)
    requires |ss| == |pieces| && forall i | 0 <= i < |ss| :: ss[i].payload == pieces[i]
    ensures Payloads(ss) == pieces
  {
    if ss != [] {
      PiecePayloads(ss[..|ss| - 1], pieces[..|pieces| - 1]);
    }
  }

  lemma {:induction false} ArmourIsPlain(bits: seq<bool>)
    requires |bits| % 6 == 0
    ensures Plain(Armour(bits))
  {
    if bits != [] {
      hide ArmourChar;
      ArmourIsPlain(bits[..|bits| - 6]);
    }
  }

  lemma {:induction false} PiecesArePlain(pieces: seq<string>)
    requires Plain(Concat(pieces))
    ensures forall i | 0 <= i < |pieces| :: Plain(pieces[i])
  {
    if pieces != [] {
      var rest := Concat(pieces[1..]);
      assert forall c :: c in rest ==> c in pieces[0] + rest;
      PiecesArePlain(pieces[1..]);
      forall i | 0 <= i < |pieces|
        ensures Plain(pieces[i])
      {
        assert i > 0 ==> pieces[i] == pieces[1..][i - 1];
      }
    }
  }

  /** The lines of a message in pieces, each written with its checksum. */
  ghost predicate Written(lines: seq<Heard>, pieces: seq<string>, seqId: string, fill: nat, channel: string) {
    && |lines| == |pieces|
    && forall i | 0 <= i < |lines| :: lines[i].line == Format(Sentences(pieces, seqId, fill)[i], channel)
  }

  ghost predicate Carries(lines: seq<Heard>, ss: seq<Sentence>) {
    |lines| == |ss| && forall i | 0 <= i < |lines| :: ParseLine(lines[i].line) == Parsed(ss[i])
  }

  lemma WrittenCarries(lines: seq<Heard>, pieces: seq<string>, seqId: string, fill: nat, channel: string)
    requires Written(lines, pieces, seqId, fill, channel) && |pieces| < INT_LIMIT && fill < INT_LIMIT
    requires Plain(Concat(pieces)) && Plain(seqId) && Plain(channel)
    ensures Carries(lines, Sentences(pieces, seqId, fill))
  {
    hide Plain, Concat, Format, ParseLine, Sentences;
    PiecesArePlain(pieces);
    forall i | 0 <= i < |lines|
      ensures ParseLine(lines[i].line) == Parsed(Sentences(pieces, seqId, fill)[i])
    {
      FormatParses(Sentences(pieces, seqId, fill)[i], channel);
    }
  }

  lemma FormatParses(s: Sentence, channel: string)
    requires Sendable(s) && Plain(channel)
    ensures ParseLine(Format(s, channel)) == Parsed(s)
  {
    hide Plain, Format, ParseLine;
    FormatRoundTrip(s, channel, "", "");
    assert "" + Format(s, channel) + "" == Format(s, channel);
  }

  lemma CarriedFront(lines: seq<Heard>, ss: seq<Sentence>)
    requires Carries(lines, ss)
    ensures |lines| == |ss|
    ensures lines != [] ==>
      var n := |lines| - 1; Carries(lines[..n], ss[..n]) && SentenceIn(lines[n].line) == [ss[n]]
  {
    hide ParseLine;
  }

  lemma {:induction false} SentencesCarried(lines: seq<Heard>, ss: seq<Sentence>)
    requires Carries(lines, ss)
    ensures SentencesOf(lines) == ss
  {
    hide Carries, SentenceIn, ParseLine;
    CarriedFront(lines, ss);
    if lines != [] {
      var n := |lines| - 1;
      SentencesCarried(lines[..n], ss[..n]);
      assert ss == ss[..n] + [ss[n]];
    }
  }

  lemma {:induction false} OwnAll(ss: seq<Sentence>, key: string)
    requires forall i | 0 <= i < |ss| :: KeyOf(ss[i]) == Some(key)
    ensures Own(ss, Some(key)) == ss
  {
    if ss != [] {
      hide KeyOf;
      OwnAll(ss[..|ss| - 1], key);
    }
  }

  /** The lines before the last leave their parts pending and change nothing else. */
  lemma {:induction false} PartsPending(st: State, lines: seq<Heard>, ss: seq<Sentence>, key: string, n: nat)
    requires InOrder(ss, key) && Carries(lines, ss) && n < |ss|
    ensures FeedAll(st, lines[..n])
         == st.(fragments := if n == 0 then st.fragments else st.fragments[key := Payloads(ss[..n])])
    ensures n < |ss| - 1 ==> !Feed(FeedAll(st, lines[..n]), lines[n].line, lines[n].now).1
    decreases n
  {
    hide ParseLine, Feed, Key, Payloads, SentencesOf, Own;
    SentencesCarried(lines[..n], ss[..n]);
    OwnAll(ss[..n], key);
    if n < |ss| - 1 {
      EarlierPartsWait(st, lines[..n], lines[n], ss, key, n);
    }
    if n > 0 {
      PartsPending(st, lines, ss, key, n - 1);
      SentencesCarried(lines[..n - 1], ss[..n - 1]);
      OwnAll(ss[..n - 1], key);
      EarlierPartsWait(st, lines[..n - 1], lines[n - 1], ss, key, n - 1);
      assert lines[..n][..n - 1] == lines[..n - 1];
    }
  }

  function Silent(n: nat): (results: seq<bool>)
    ensures |results| == n && forall i | 0 <= i < n :: !results[i]
  {
    seq(n, _ => false)
  }

  /** Whether each line led to a decoded message. */
  function Results(st: State, lines: seq<Heard>): seq<bool> {
    if lines == [] then []
    else
      var front, last := lines[..|lines| - 1], lines[|lines| - 1];
      Results(st, front) + [Feed(FeedAll(st, front), last.line, last.now).1]
  }

  lemma FeedAllAppend(st: State, lines: seq<Heard>, last: Heard)
    ensures FeedAll(st, lines + [last]) == Feed(FeedAll(st, lines), last.line, last.now).0
    ensures Results(st, lines + [last]) == Results(st, lines) + [Feed(FeedAll(st, lines), last.line, last.now).1]
  {
    hide Feed;
    assert (lines + [last])[..|lines|] == lines;
  }

  lemma {:induction false} NoResultYet(st: State, lines: seq<Heard>, ss: seq<Sentence>, key: string, n: nat)
    requires InOrder(ss, key) && Carries(lines, ss) && n < |ss|
    ensures |lines| == |ss| && Results(st, lines[..n]) == Silent(n)
    decreases n
  {
    hide Feed, FeedAll, InOrder, Carries, Silent, Results;
    CarriedFront(lines, ss);
    if n > 0 {
      NoResultYet(st, lines, ss, key, n - 1);
      PartsPending(st, lines, ss, key, n - 1);
      assert lines[..n] == lines[..n - 1] + [lines[n - 1]];
      FeedAllAppend(st, lines[..n - 1], lines[n - 1]);
      assert Silent(n) == Silent(n - 1) + [false];
    } else {
      NothingHeard(st);
    }
  }

  lemma NothingHeard(st: State)
    ensures FeedAll(st, []) == st && Results(st, []) == []
  {
  }

  /** A message in two or more pieces. */
  lemma {:induction false} BroadcastParts(st: State, lines: seq<Heard>, bits: seq<bool>, ss: seq<Sentence>, key: string)
    requires InOrder(ss, key) && Carries(lines, ss)
    requires Concat(Payloads(ss)) == Payload(bits) && ss[|ss| - 1].fill == FillBits(|bits|)
    ensures var n := |ss| - 1;
            var last := Decode(st.(fragments := st.fragments - {key}), bits, lines[n].now);
            Results(st, lines) == Silent(n) + [last.1] && FeedAll(st, lines) == last.0
  {
    hide Feed, FeedAll, Results, Payload, Decode, Concat, ParseLine, Payloads, SentencesOf, Own, Key, FillBits;
    var n := |ss| - 1;
    var front := lines[..n];
    SentencesCarried(front, ss[..n]);
    OwnAll(ss[..n], key);
    LastPartDecodes(st, front, lines[n], bits, ss, key);
    PartsPending(st, lines, ss, key, n);
    NoResultYet(st, lines, ss, key, n);
    assert lines == front + [lines[n]];
    FeedAllAppend(st, front, lines[n]);
    assert st.fragments[key := Payloads(ss[..n])] - {key} == st.fragments - {key};
  }

  lemma {:induction false} BroadcastWhole(st: State, lines: seq<Heard>, bits: seq<bool>, ss: seq<Sentence>)
    requires |ss| == 1 && Carries(lines, ss)
    requires ss[0].total == 1 && ss[0].payload == Payload(bits) && ss[0].fill == FillBits(|bits|)
    ensures var last := Decode(st, bits, lines[0].now);
            Results(st, lines) == [last.1] && FeedAll(st, lines) == last.0
  {
    hide Payload, ParseLine, Decode, DecodedBits, FillBits;
    DecodePayload(bits);
    assert lines == [] + [lines[0]];
    FeedAllAppend(st, [], lines[0]);
    NothingHeard(st);
    SingleCompletes(st.fragments, ss[0]);
  }

  /** Round trip through the air: a message of any bits, armoured, cut anywhere into any number of pieces
      and written as sentences, is decoded at the last line and only there, with no part of it left
      pending. */
  lemma Broadcast(st: State, lines: seq<Heard>, bits: seq<bool>, pieces: seq<string>, seqId: string, channel: string)
    requires 0 < |pieces| < INT_LIMIT && Concat(pieces) == Payload(bits)
    requires Plain(seqId) && Plain(channel) && Written(lines, pieces, seqId, FillBits(|bits|), channel)
    ensures var n := |pieces| - 1;
            var last := Decode(Dropped(st, |pieces|, seqId), bits, lines[n].now);
            Results(st, lines) == Silent(n) + [last.1] && FeedAll(st, lines) == last.0
  {
    hide Payload, FeedAll, Results, Decode, Plain, Key, Written, Carries, Sentences, Concat, FillBits;
    var ss := Sentences(pieces, seqId, FillBits(|bits|));
    PayloadIsPlain(bits);
    WrittenCarries(lines, pieces, seqId, FillBits(|bits|), channel);
    if |pieces| == 1 {
      OnePiece(pieces[0]);
      assert pieces == [pieces[0]];
      BroadcastWhole(st, lines, bits, ss);
    } else {
      SameKey(ss, pieces, seqId, FillBits(|bits|));
      PiecePayloads(ss, pieces);
      BroadcastParts(st, lines, bits, ss, KeyFor(|pieces|, seqId));
    }
  }

  /** The key of a message of so many sentences. */
  function KeyFor(total: nat, seqId: string): string {
    if seqId == "" then "_" + Decimal(total) else seqId
  }

  /** Without the parts pending under the message's key; a message of one sentence has none. */
  function Dropped(st: State, total: nat, seqId: string): State {
    if total == 1 then st else st.(fragments := st.fragments - {KeyFor(total, seqId)})
  }

  lemma PayloadIsPlain(bits: seq<bool>)
    ensures Plain(Payload(bits))
  {
    hide Plain, Padded, Armour;
    ArmourIsPlain(Padded(bits));
  }

  lemma OnePiece(piece: string)
    ensures Concat([piece]) == piece
  {
    assert [piece][1..] == [];
  }

  lemma SameKey(ss: seq<Sentence>, pieces: seq<string>, seqId: string, fill: nat)
    requires |pieces| >= 2 && ss == Sentences(pieces, seqId, fill)
    ensures InOrder(ss, KeyFor(|pieces|, seqId))
  {
    hide Decimal, Sentences;
  }
}
