/** Multi-sentence messages: whatever order the parts of different messages arrive in, each message is
    put together from its own parts only. */
module AisReassembly {
  import opened AisDecoder
  import opened Nmea
  import opened Options
  import opened Sequences

  type Pending = map<string, seq<string>>

  /** The message a sentence is part of; None for a message of one sentence. */
  function KeyOf(s: Sentence): Option<string> {
    if s.total > 1 then Some(Key(s)) else None
  }

  datatype Message = Message(key: Option<string>, payload: string)

  function After(f: Pending, ss: seq<Sentence>): Pending {
    if ss == [] then f else Assemble(After(f, ss[..|ss| - 1]), ss[|ss| - 1]).0
  }

  function CompletedBy(f: Pending, s: Sentence): seq<Message> {
    match Assemble(f, s).1
    case Complete(payload) => [Message(KeyOf(s), payload)]
    case _ => []
  }

  /** The messages completed by a run of sentences, in order. */
  function Completed(f: Pending, ss: seq<Sentence>): seq<Message> {
    if ss == [] then []
    else Completed(f, ss[..|ss| - 1]) + CompletedBy(After(f, ss[..|ss| - 1]), ss[|ss| - 1])
  }

  /** The sentences that belong to one message key. */
  function Own(ss: seq<Sentence>, key: Option<string>): seq<Sentence> {
    if ss == [] then []
    else Own(ss[..|ss| - 1], key) + if KeyOf(ss[|ss| - 1]) == key then [ss[|ss| - 1]] else []
  }

  function Of(messages: seq<Message>, key: Option<string>): seq<Message> {
    if messages == [] then []
    else Of(messages[..|messages| - 1], key)
         + if messages[|messages| - 1].key == key then [messages[|messages| - 1]] else []
  }

  lemma OfAppend(messages: seq<Message>, m: Message, key: Option<string>)
    ensures Of(messages + [m], key) == Of(messages, key) + if m.key == key then [m] else []
  {
    assert (messages + [m])[..|messages|] == messages;
  }

  predicate Agree(f: Pending, g: Pending, key: Option<string>) {
    key.Some? ==> (key.value in f <==> key.value in g) && (key.value in f ==> f[key.value] == g[key.value])
  }

  /** One sentence: it changes nothing for other keys, and what it does for its own depends on nothing else. */
  lemma StepAlone(f: Pending, g: Pending, s: Sentence, key: Option<string>)
    requires Agree(f, g, key)
    ensures if KeyOf(s) == key
            then Agree(Assemble(f, s).0, Assemble(g, s).0, key) && CompletedBy(f, s) == CompletedBy(g, s)
            else Agree(Assemble(f, s).0, g, key)
  {
    hide Key, Concat;
  }

  /** Non-interference: what becomes of the sentences of one key in any stream is what becomes of them
      on their own. */
  lemma {:induction false} Isolation(f: Pending, g: Pending, ss: seq<Sentence>, key: Option<string>)
    requires Agree(f, g, key)
    ensures Agree(After(f, ss), After(g, Own(ss, key)), key)
    ensures Of(Completed(f, ss), key) == Completed(g, Own(ss, key))
  {
    hide *;
    if ss == [] {
      IsolationNone(f, g, key);
    } else {
      var front, s := ss[..|ss| - 1], ss[|ss| - 1];
      Isolation(f, g, front, key);
      assert ss == front + [s];
      if KeyOf(s) == key {
        IsolationOwn(f, g, front, s, key);
      } else {
        IsolationOther(f, g, front, s, key);
      }
    }
  }

  lemma IsolationNone(f: Pending, g: Pending, key: Option<string>)
    requires Agree(f, g, key)
    ensures Agree(After(f, []), After(g, Own([], key)), key)
    ensures Of(Completed(f, []), key) == Completed(g, Own([], key))
  {
    hide Agree, Assemble, CompletedBy;
  }

  lemma IsolationOwn(f: Pending, g: Pending, ss: seq<Sentence>, s: Sentence, key: Option<string>)
    requires KeyOf(s) == key
    requires Agree(After(f, ss), After(g, Own(ss, key)), key)
    requires Of(Completed(f, ss), key) == Completed(g, Own(ss, key))
    ensures Agree(After(f, ss + [s]), After(g, Own(ss + [s], key)), key)
    ensures Of(Completed(f, ss + [s]), key) == Completed(g, Own(ss + [s], key))
  {
    hide *;
    OwnAppend(ss, s, key);
    CompletedAppend(f, ss, s);
    CompletedAppend(g, Own(ss, key), s);
    OfCompleted(Completed(f, ss), After(f, ss), s, key);
    StepAlone(After(f, ss), After(g, Own(ss, key)), s, key);
  }

  lemma IsolationOther(f: Pending, g: Pending, ss: seq<Sentence>, s: Sentence, key: Option<string>)
    requires KeyOf(s) != key
    requires Agree(After(f, ss), After(g, Own(ss, key)), key)
    requires Of(Completed(f, ss), key) == Completed(g, Own(ss, key))
    ensures Agree(After(f, ss + [s]), After(g, Own(ss + [s], key)), key)
    ensures Of(Completed(f, ss + [s]), key) == Completed(g, Own(ss + [s], key))
  {
    hide *;
    OwnAppend(ss, s, key);
    CompletedAppend(f, ss, s);
    OfCompleted(Completed(f, ss), After(f, ss), s, key);
    StepAlone(After(f, ss), After(g, Own(ss, key)), s, key);
    assert Own(ss, key) + [] == Own(ss, key);
    assert Of(Completed(f, ss), key) + [] == Of(Completed(f, ss), key);
  }

  lemma OwnAppend(ss: seq<Sentence>, s: Sentence, key: Option<string>)
    ensures Own(ss + [s], key) == Own(ss, key) + if KeyOf(s) == key then [s] else []
  {
    assert (ss + [s])[..|ss|] == ss;
  }

  lemma CompletedAppend(f: Pending, ss: seq<Sentence>, s: Sentence)
    ensures Completed(f, ss + [s]) == Completed(f, ss) + CompletedBy(After(f, ss), s)
    ensures After(f, ss + [s]) == Assemble(After(f, ss), s).0
  {
    hide CompletedBy, Assemble;
    assert (ss + [s])[..|ss|] == ss;
  }

  lemma OfCompleted(messages: seq<Message>, f: Pending, s: Sentence, key: Option<string>)
    ensures Of(messages + CompletedBy(f, s), key)
         == Of(messages, key) + if KeyOf(s) == key then CompletedBy(f, s) else []
  {
    hide Assemble, Of;
    var done := CompletedBy(f, s);
    if done == [] {
      assert messages + done == messages;
    } else {
      OfAppend(messages, done[0], key);
      assert done == [done[0]];
    }
  }

  // ---------- in-order groups ----------

  /** All the sentences of one message, in order. */
  ghost predicate InOrder(group: seq<Sentence>, key: string) {
    && |group| >= 2
    && forall i | 0 <= i < |group| ::
         group[i].total == |group| && group[i].num == i + 1 && Key(group[i]) == key
  }

  function Payloads(ss: seq<Sentence>): (ps: seq<string>)
    ensures |ps| == |ss|
  {
    if ss == [] then [] else Payloads(ss[..|ss| - 1]) + [ss[|ss| - 1].payload]
  }

  lemma NothingYet(f: Pending)
    ensures After(f, []) == f && Completed(f, []) == [] && Payloads([]) == []
  {
  }

  lemma FirstPart(f: Pending, s: Sentence, key: string)
    requires s.total > 1 && s.num == 1 && Key(s) == key
    ensures Assemble(f, s).0 == f[key := [s.payload]] && CompletedBy(f, s) == []
  {
    hide Key, Concat;
    assert [] + [s.payload] == [s.payload];
  }

  lemma MiddlePart(f: Pending, s: Sentence, key: string)
    requires 1 < s.num < s.total && Key(s) == key && key in f
    ensures Assemble(f, s).0 == f[key := f[key] + [s.payload]] && CompletedBy(f, s) == []
  {
    hide Key, Concat;
  }

  lemma PayloadsAppend(ss: seq<Sentence>, s: Sentence)
    ensures Payloads(ss + [s]) == Payloads(ss) + [s.payload]
  {
    assert (ss + [s])[..|ss|] == ss;
  }

  /** All but the last sentence of a message: its parts so far wait, whatever was pending before. */
  lemma {:induction false} GroupWaits(f: Pending, group: seq<Sentence>, key: string, n: nat)
    requires InOrder(group, key) && 0 < n < |group|
    ensures After(f, group[..n]) == f[key := Payloads(group[..n])]
    ensures Completed(f, group[..n]) == []
    decreases n
  {
    hide After, Completed, Key, Assemble, CompletedBy, Payloads;
    var front, s := group[..n - 1], group[n - 1];
    assert group[..n] == front + [s] && Key(s) == key;
    CompletedAppend(f, front, s);
    PayloadsAppend(front, s);
    if n > 1 {
      GroupWaits(f, group, key, n - 1);
      MiddlePart(f[key := Payloads(front)], s, key);
      assert f[key := Payloads(front)][key := Payloads(group[..n])] == f[key := Payloads(group[..n])];
    } else {
      assert front == [];
      NothingYet(f);
      FirstPart(f, s, key);
      assert [] + [s.payload] == [s.payload];
    }
  }

  lemma LastPart(f: Pending, s: Sentence, key: string)
    requires s.total > 1 && s.num >= s.total && Key(s) == key && key in f
    ensures Assemble(f, s) == (f - {key}, Complete(Concat(f[key] + [s.payload])))
    ensures CompletedBy(f, s) == [Message(Some(key), Concat(f[key] + [s.payload]))]
  {
    hide Key, Concat;
  }

  /** The whole message: it is completed once, from its own parts, and leaves no entry behind. */
  lemma GroupCompletes(f: Pending, group: seq<Sentence>, key: string)
    requires InOrder(group, key)
    ensures After(f, group) == f - {key}
    ensures Completed(f, group) == [Message(Some(key), Concat(Payloads(group)))]
  {
    hide Key, Concat, After, Completed, Assemble, CompletedBy, Payloads;
    var n := |group|;
    var front, s := group[..n - 1], group[n - 1];
    assert group == front + [s] && Key(s) == key;
    var waiting := f[key := Payloads(front)];
    GroupWaits(f, group, key, n - 1);
    CompletedAppend(f, front, s);
    LastPart(waiting, s, key);
    PayloadsAppend(front, s);
    assert waiting - {key} == f - {key};
  }

  ghost predicate AllInOrder(groups: seq<seq<Sentence>>, key: string) {
    forall i | 0 <= i < |groups| :: InOrder(groups[i], key)
  }

  /** What a series of messages with the same key should deliver. */
  function Deliveries(groups: seq<seq<Sentence>>, key: string): seq<Message> {
    if groups == [] then [] else [Message(Some(key), Concat(Payloads(groups[0])))] + Deliveries(groups[1..], key)
  }

  lemma {:induction false} CompletedConcat(f: Pending, a: seq<Sentence>, b: seq<Sentence>)
    ensures Completed(f, a + b) == Completed(f, a) + Completed(After(f, a), b)
    ensures After(f, a + b) == After(After(f, a), b)
  {
    if b == [] {
      assert a + b == a;
    } else {
      hide *;
      var front, s := b[..|b| - 1], b[|b| - 1];
      CompletedConcat(f, a, front);
      Regroup(a, front, [s]);
      assert front + [s] == b;
      CompletedAppend(f, a + front, s);
      CompletedAppend(After(f, a), front, s);
      Regroup(Completed(f, a), Completed(After(f, a), front), CompletedBy(After(After(f, a), front), s));
    }
  }

  lemma {:induction false} SeriesCompletes(f: Pending, groups: seq<seq<Sentence>>, key: string)
    requires AllInOrder(groups, key)
    ensures Completed(f, Concat(groups)) == Deliveries(groups, key)
    ensures After(f, Concat(groups)) == if groups == [] then f else f - {key}
  {
    if groups != [] {
      hide InOrder, After, Completed;
      GroupCompletes(f, groups[0], key);
      SeriesCompletes(f - {key}, groups[1..], key);
      CompletedConcat(f, groups[0], Concat(groups[1..]));
      assert f - {key} - {key} == f - {key};
    } else {
      assert Concat(groups) == [];
    }
  }

  /** Reassembly: in any stream in which the sentences of a key are whole messages in order, one after
      another, each of these messages is delivered once with its own payload and none stays pending,
      whatever other sentences come between. */
  lemma Interleaving(f: Pending, ss: seq<Sentence>, key: string, groups: seq<seq<Sentence>>)
    requires AllInOrder(groups, key) && Own(ss, Some(key)) == Concat(groups)
    ensures Of(Completed(f, ss), Some(key)) == Deliveries(groups, key)
    ensures groups != [] || key !in f ==> key !in After(f, ss)
  {
    hide After, Completed, Own, Of, InOrder, Deliveries, Concat;
    Isolation(f, f, ss, Some(key));
    SeriesCompletes(f, groups, key);
  }

  /** Messages of one sentence come through as they are, whatever else is pending. */
  lemma {:induction false} SinglesPass(f: Pending, ss: seq<Sentence>)
    ensures Of(Completed(f, ss), None) == SinglesOf(ss)
  {
    if ss != [] {
      hide Assemble, CompletedBy;
      var front, s := ss[..|ss| - 1], ss[|ss| - 1];
      SinglesPass(f, front);
      OfCompleted(Completed(f, front), After(f, front), s, None);
      SingleCompletes(After(f, front), s);
    }
  }

  function SinglesOf(ss: seq<Sentence>): seq<Message> {
    if ss == [] then []
    else SinglesOf(ss[..|ss| - 1]) + if ss[|ss| - 1].total <= 1 then [Message(None, ss[|ss| - 1].payload)] else []
  }

  lemma SingleCompletes(f: Pending, s: Sentence)
    ensures KeyOf(s) == None ==> CompletedBy(f, s) == [Message(None, s.payload)] && Assemble(f, s).0 == f
  {
  }

  ghost predicate Grouped(ss: seq<Sentence>, key: string) {
    exists groups :: AllInOrder(groups, key) && Own(ss, Some(key)) == Concat(groups)
  }

  /** When every key's sentences are whole messages in order, nothing is pending at the end. */
  lemma NothingPending(ss: seq<Sentence>)
    requires forall key :: Grouped(ss, key)
    ensures After(map[], ss) == map[]
  {
    hide After, Own, AllInOrder;
    forall key
      ensures key !in After(map[], ss)
    {
      assert Grouped(ss, key);
      var groups :| AllInOrder(groups, key) && Own(ss, Some(key)) == Concat(groups);
      Interleaving(map[], ss, key, groups);
    }
  }

  // ---------- two messages under one key ----------

  /** ss is a and b merged in some way. */
  ghost predicate Merge(ss: seq<Sentence>, a: seq<Sentence>, b: seq<Sentence>) {
    if a == [] then ss == b
    else if b == [] then ss == a
    else
      && ss != []
      && (|| (ss[0] == a[0] && Merge(ss[1..], a[1..], b))
          || (ss[0] == b[0] && Merge(ss[1..], a, b[1..])))
  }

  /** Where b begins: after i sentences of a. */
  ghost predicate Begins(ss: seq<Sentence>, a: seq<Sentence>, b: seq<Sentence>, i: nat)
    requires b != []
  {
    i <= |a| && i < |ss| && ss[..i] == a[..i] && ss[i] == b[0] && Merge(ss[i + 1..], a[i..], b[1..])
  }

  lemma BeginsLater(ss: seq<Sentence>, a: seq<Sentence>, b: seq<Sentence>, i: nat)
    requires a != [] && b != [] && ss != [] && ss[0] == a[0] && Begins(ss[1..], a[1..], b, i)
    ensures Begins(ss, a, b, i + 1)
  {
    hide Merge;
    assert ss[..i + 1] == [ss[0]] + ss[1..][..i];
    assert a[..i + 1] == [a[0]] + a[1..][..i];
    assert ss[i + 2..] == ss[1..][i + 1..] && a[i + 1..] == a[1..][i..];
  }

  lemma {:induction false} SecondBegins(ss: seq<Sentence>, a: seq<Sentence>, b: seq<Sentence>) returns (i: nat)
    requires Merge(ss, a, b) && b != []
    ensures Begins(ss, a, b, i)
  {
    if a == [] {
      i := 0;
    } else if ss[0] == a[0] && Merge(ss[1..], a[1..], b) {
      i := SecondBegins(ss[1..], a[1..], b);
      BeginsLater(ss, a, b, i);
      i := i + 1;
    } else {
      i := 0;
      assert a[0..] == a;
    }
  }

  lemma {:induction false} MergeSwap(ss: seq<Sentence>, a: seq<Sentence>, b: seq<Sentence>)
    requires Merge(ss, a, b)
    ensures Merge(ss, b, a)
    decreases |ss|
  {
    if a != [] && b != [] {
      if ss[0] == a[0] && Merge(ss[1..], a[1..], b) {
        MergeSwap(ss[1..], a[1..], b);
      } else {
        MergeSwap(ss[1..], a, b[1..]);
      }
    }
  }

  /** Sentences of one message key that are not first parts. */
  ghost predicate Later(ss: seq<Sentence>, key: string) {
    forall i | 0 <= i < |ss| :: ss[i].total > 1 && ss[i].num > 1 && Key(ss[i]) == key
  }

  predicate Final(s: Sentence) {
    s.num >= s.total
  }

  ghost predicate HasFinal(ss: seq<Sentence>) {
    exists i :: 0 <= i < |ss| && Final(ss[i])
  }

  lemma {:induction false} MergeLater(ss: seq<Sentence>, a: seq<Sentence>, b: seq<Sentence>, key: string)
    requires Merge(ss, a, b) && Later(a, key) && Later(b, key)
    ensures Later(ss, key)
    ensures HasFinal(a) ==> HasFinal(ss)
    decreases |ss|
  {
    hide Key;
    if a != [] && b != [] {
      var tail := ss[1..];
      assert ss == [ss[0]] + tail;
      if ss[0] == a[0] && Merge(tail, a[1..], b) {
        MergeLater(tail, a[1..], b, key);
        if HasFinal(a) {
          var i :| 0 <= i < |a| && Final(a[i]);
          if i > 0 {
            assert Final(a[1..][i - 1]);
            var j :| 0 <= j < |tail| && Final(tail[j]);
            assert Final(ss[j + 1]);
          } else {
            assert Final(ss[0]);
          }
        }
      } else {
        MergeLater(tail, a, b[1..], key);
        if HasFinal(a) {
          var j :| 0 <= j < |tail| && Final(tail[j]);
          assert Final(ss[j + 1]);
        }
      }
    }
  }

  /** The index of the first final part. */
  ghost function FirstFinal(ss: seq<Sentence>): (t: nat)
    requires HasFinal(ss)
    ensures t < |ss| && Final(ss[t]) && forall j | 0 <= j < t :: !Final(ss[j])
  {
    if Final(ss[0]) then 0
    else
      assert HasFinal(ss[1..]) by {
        var i :| 0 <= i < |ss| && Final(ss[i]);
        assert ss[1..][i - 1] == ss[i];
      }
      1 + FirstFinal(ss[1..])
  }

  /** Parts that are neither first nor final are added to what is pending. */
  lemma {:induction false} MiddleParts(f: Pending, ss: seq<Sentence>, key: string)
    requires key in f && Later(ss, key) && forall i | 0 <= i < |ss| :: !Final(ss[i])
    ensures After(f, ss) == f[key := f[key] + Payloads(ss)] && Completed(f, ss) == []
  {
    hide After, Completed, Key, Assemble, CompletedBy, Payloads;
    if ss == [] {
      NothingYet(f);
      assert f[key] + [] == f[key] && f[key := f[key]] == f;
    } else {
      var front, s := ss[..|ss| - 1], ss[|ss| - 1];
      MiddleParts(f, front, key);
      assert ss == front + [s];
      CompletedAppend(f, front, s);
      PayloadsAppend(front, s);
      var g := f[key := f[key] + Payloads(front)];
      MiddlePart(g, s, key);
      Regroup(f[key], Payloads(front), [s.payload]);
      assert g[key := f[key] + Payloads(ss)] == f[key := f[key] + Payloads(ss)];
    }
  }

  /** Once nothing is pending, later parts are orphans. */
  lemma {:induction false} LostParts(f: Pending, ss: seq<Sentence>, key: string)
    requires key !in f && Later(ss, key)
    ensures After(f, ss) == f && Completed(f, ss) == []
  {
    hide After, Completed, Key, Assemble, CompletedBy;
    if ss == [] {
      NothingYet(f);
    } else {
      var front, s := ss[..|ss| - 1], ss[|ss| - 1];
      LostParts(f, front, key);
      assert ss == front + [s];
      CompletedAppend(f, front, s);
      LostPart(f, s, key);
    }
  }

  lemma ThenFinal(f: Pending, front: seq<Sentence>, s: Sentence, key: string)
    requires key in f && Later(front, key) && forall i | 0 <= i < |front| :: !Final(front[i])
    requires s.total > 1 && Final(s) && Key(s) == key
    ensures After(f, front + [s]) == f - {key}
    ensures Completed(f, front + [s]) == [Message(Some(key), Concat(f[key] + Payloads(front + [s])))]
  {
    hide After, Completed, Key, Assemble, CompletedBy, Payloads, Concat;
    MiddleParts(f, front, key);
    hide Later;
    CompletedAppend(f, front, s);
    PayloadsAppend(front, s);
    var g := f[key := f[key] + Payloads(front)];
    LastPart(g, s, key);
    Regroup(f[key], Payloads(front), [s.payload]);
    assert g - {key} == f - {key};
  }

  /** Of a run of later parts the first final one completes what is pending; all behind it are orphans. */
  lemma LaterParts(f: Pending, ss: seq<Sentence>, key: string)
    requires key in f && Later(ss, key) && HasFinal(ss)
    ensures Completed(f, ss) == [Message(Some(key), Concat(f[key] + Payloads(ss[..FirstFinal(ss) + 1])))]
    ensures key !in After(f, ss)
  {
    hide *;
    var t := FirstFinal(ss);
    AtFirstFinal(ss, key);
    ThenFinal(f, ss[..t], ss[t], key);
    LostParts(f - {key}, ss[t + 1..], key);
    CompletedConcat(f, ss[..t + 1], ss[t + 1..]);
  }

  lemma LaterSlice(ss: seq<Sentence>, lo: nat, hi: nat, key: string)
    requires Later(ss, key) && lo <= hi <= |ss|
    ensures Later(ss[lo..hi], key)
  {
    hide Key;
  }

  lemma AtFirstFinal(ss: seq<Sentence>, key: string)
    requires Later(ss, key) && HasFinal(ss)
    ensures var t := FirstFinal(ss);
            && Later(ss[..t], key) && (forall i | 0 <= i < |ss[..t]| :: !Final(ss[..t][i]))
            && ss[t].total > 1 && Final(ss[t]) && Key(ss[t]) == key && Later(ss[t + 1..], key)
            && ss[..t + 1] == ss[..t] + [ss[t]] && ss == ss[..t + 1] + ss[t + 1..]
  {
    var t := FirstFinal(ss);
    assert ss[t].total > 1 && Key(ss[t]) == key;
    hide Key, Later, HasFinal, FirstFinal, Final;
    LaterSlice(ss, 0, t, key);
    LaterSlice(ss, t + 1, |ss|, key);
    assert ss[0..t] == ss[..t] && ss[t + 1..|ss|] == ss[t + 1..];
  }

  /** The message that an overlapped merge completes: from the later first part to the first final part
      behind it. */
  ghost function Mixed(first: Sentence, rest: seq<Sentence>, key: string): Message
    requires HasFinal(rest)
  {
    Message(Some(key), Concat([first.payload] + Payloads(rest[..FirstFinal(rest) + 1])))
  }

  lemma GroupTail(a: seq<Sentence>, key: string, i: nat)
    requires InOrder(a, key) && 0 < i < |a|
    ensures Later(a[i..], key) && HasFinal(a[i..])
  {
    hide Key;
    assert Final(a[i..][|a| - 1 - i]);
  }

  /** A first part drops what was pending, and exactly one message is completed behind it. */
  lemma Restarted(f: Pending, s: Sentence, rest: seq<Sentence>, key: string)
    requires s.total > 1 && s.num == 1 && Key(s) == key && Later(rest, key) && HasFinal(rest)
    ensures Completed(f, [s] + rest) == [Mixed(s, rest, key)] && key !in After(f, [s] + rest)
  {
    hide After, Completed, Key, Assemble, CompletedBy, Payloads, Concat, Later, HasFinal;
    NothingYet(f);
    CompletedAppend(f, [], s);
    assert [] + [s] == [s];
    FirstPart(f, s, key);
    LaterParts(f[key := [s.payload]], rest, key);
    CompletedConcat(f, [s], rest);
  }

  lemma OverlapTail(ss: seq<Sentence>, a: seq<Sentence>, b: seq<Sentence>, i: nat, key: string)
    requires InOrder(a, key) && InOrder(b, key) && 0 < i < |a| && Begins(ss, a, b, i)
    ensures Later(ss[i + 1..], key) && HasFinal(ss[i + 1..]) && ss == a[..i] + ([b[0]] + ss[i + 1..])
  {
    hide Key, Merge, HasFinal;
    GroupTail(a, key, i);
    GroupTail(b, key, 1);
    MergeLater(ss[i + 1..], a[i..], b[1..], key);
  }

  /** If b begins inside a: what was pending of a is dropped, and exactly one message is completed. */
  lemma Overlap(f: Pending, ss: seq<Sentence>, a: seq<Sentence>, b: seq<Sentence>, i: nat, key: string)
    requires InOrder(a, key) && InOrder(b, key) && 0 < i < |a| && Begins(ss, a, b, i)
    ensures HasFinal(ss[i + 1..])
    ensures Completed(f, ss) == [Mixed(b[0], ss[i + 1..], key)] && key !in After(f, ss)
  {
    hide After, Completed, Key, Payloads, Concat, Merge, Later, HasFinal, Mixed;
    OverlapTail(ss, a, b, i, key);
    GroupWaits(f, a, key, i);
    assert b[0].total == |b| && b[0].num == 1 && Key(b[0]) == key;
    var g := f[key := Payloads(a[..i])];
    Restarted(g, b[0], ss[i + 1..], key);
    CompletedConcat(f, a[..i], [b[0]] + ss[i + 1..]);
  }

  function Whole(group: seq<Sentence>, key: string): Message {
    Message(Some(key), Concat(Payloads(group)))
  }

  lemma OneAfterOther(f: Pending, a: seq<Sentence>, b: seq<Sentence>, key: string)
    requires InOrder(a, key) && InOrder(b, key)
    ensures Completed(f, a + b) == [Whole(a, key), Whole(b, key)] && key !in After(f, a + b)
  {
    hide After, Completed, InOrder, Payloads, Concat;
    GroupCompletes(f, a, key);
    GroupCompletes(f - {key}, b, key);
    CompletedConcat(f, a, b);
  }

  /** Two messages under one key, merged in any way, after anything: one after the other both are
      delivered; otherwise exactly one message is completed. Nothing stays pending. */
  lemma SharedKey(f: Pending, ss: seq<Sentence>, a: seq<Sentence>, b: seq<Sentence>, key: string)
    requires InOrder(a, key) && InOrder(b, key) && Merge(ss, a, b)
    ensures ss == a + b ==> Completed(f, ss) == [Whole(a, key), Whole(b, key)]
    ensures ss == b + a ==> Completed(f, ss) == [Whole(b, key), Whole(a, key)]
    ensures ss != a + b && ss != b + a ==> |Completed(f, ss)| == 1
    ensures key !in After(f, ss)
  {
    hide After, Completed, Whole, Merge, Key, Mixed;
    OneAfterOther(f, a, b, key);
    OneAfterOther(f, b, a, key);
    var i := SecondBegins(ss, a, b);
    if i == |a| {
      EndOfMerge(ss[i + 1..], a[i..], b[1..]);
      assert ss == a + b;
    } else if i > 0 {
      Overlap(f, ss, a, b, i, key);
    } else {
      assert a[0..] == a;
      MergeSwap(ss[1..], a, b[1..]);
      var j := SecondBegins(ss[1..], b[1..], a);
      BeginsLater(ss, b, a, j);
      if j + 1 == |b| {
        EndOfMerge(ss[j + 2..], b[j + 1..], a[1..]);
        assert ss == b + a;
      } else {
        Overlap(f, ss, b, a, j + 1, key);
      }
    }
  }

  lemma EndOfMerge(ss: seq<Sentence>, a: seq<Sentence>, b: seq<Sentence>)
    requires Merge(ss, a, b) && a == []
    ensures ss == b
  {
  }

  /** Reassembly under a shared key succeeds for both messages if and only if one ends before the other
      begins; in any stream, whatever sentences of other keys come between. */
  lemma BothDeliveredIff(f: Pending, stream: seq<Sentence>, ss: seq<Sentence>, a: seq<Sentence>, b: seq<Sentence>, key: string)
    requires Own(stream, Some(key)) == ss
    requires InOrder(a, key) && InOrder(b, key) && Merge(ss, a, b)
    ensures var delivered := Of(Completed(f, stream), Some(key));
            && (delivered in {[Whole(a, key), Whole(b, key)], [Whole(b, key), Whole(a, key)]} <==> ss == a + b || ss == b + a)
            && (ss != a + b && ss != b + a ==> |delivered| == 1)
            && key !in After(f, stream)
  {
    hide After, Completed, Own, Of, Merge, InOrder, Whole;
    Isolation(f, f, stream, Some(key));
    SharedKey(f, ss, a, b, key);
  }

  /** Without sequence ids two interleaved messages of two parts are mixed up, and one part is lost. */
  lemma EmptyIdsMix(a: Sentence, a': Sentence, b: Sentence, b': Sentence)
    requires a.total == a'.total == b.total == b'.total == 2
    requires a.seqId == a'.seqId == b.seqId == b'.seqId == ""
    requires a.num == b.num == 1 && a'.num == b'.num == 2
    ensures Completed(map[], [a, b, a', b']) == [Message(Some("_2"), b.payload + a'.payload)]
  {
    assert Decimal(2) == "2";
    var key := "_2";
    assert Key(a) == Key(b) == Key(a') == Key(b') == key;
    hide *;
    var f: Pending, g: Pending, h: Pending := map[key := [a.payload]], map[key := [b.payload]], map[];
    assert [] + [a] == [a] && [a] + [b] == [a, b] && [a, b] + [a'] == [a, b, a'] && [a, b, a'] + [b'] == [a, b, a', b'];
    NothingYet(h);
    CompletedAppend(h, [], a);
    CompletedAppend(h, [a], b);
    CompletedAppend(h, [a, b], a');
    CompletedAppend(h, [a, b, a'], b');
    FirstPart(h, a, key);
    FirstPart(f, b, key);
    LastPart(g, a', key);
    LostPart(h, b', key);
    assert f[key := [b.payload]] == g && g - {key} == h;
    JoinTwo(b.payload, a'.payload);
  }

  lemma LostPart(f: Pending, s: Sentence, key: string)
    requires s.total > 1 && s.num != 1 && Key(s) == key && key !in f
    ensures Assemble(f, s).0 == f && CompletedBy(f, s) == []
  {
    hide Key, Concat;
  }

  lemma JoinTwo(x: string, y: string)
    ensures Concat([x] + [y]) == x + y
  {
    assert ([x] + [y])[1..] == [y] && [y][1..] == [];
    assert Concat([y]) == y + Concat([]) == y;
    assert Concat([x] + [y]) == x + Concat([y]);
  }
}
