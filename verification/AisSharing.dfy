/** Messages that share a key: any number of them, of any sizes, their sentences merged in any way. What is
    completed are stretches of sentences from a first part to the next final one, so a message is delivered
    if and only if no other one's part falls between its own. */
module AisSharing {
  import opened AisDecoder
  import opened AisReassembly
  import opened Nmea
  import opened Options
  import opened Sequences

  ghost predicate OfKey(ss: seq<Sentence>, key: string) {
    forall i | 0 <= i < |ss| :: ss[i].total > 1 && Key(ss[i]) == key
  }

  predicate First(s: Sentence) {
    s.num == 1
  }

  /** A final part that is not a first one. */
  predicate Closing(s: Sentence) {
    !First(s) && Final(s)
  }

  /** Where the list of parts that is pending began. */
  function OpenAt(ss: seq<Sentence>): (at: Option<nat>)
    ensures at.Some? ==> at.value < |ss|
  {
    if ss == [] then None
    else if First(ss[|ss| - 1]) then Some(|ss| - 1)
    else if Final(ss[|ss| - 1]) then None
    else OpenAt(ss[..|ss| - 1])
  }

  /** Sentences lo to hi - 1. */
  datatype Span = Span(lo: nat, hi: nat)

  predicate Within(spans: seq<Span>, n: nat) {
    forall k | 0 <= k < |spans| :: spans[k].lo < spans[k].hi <= n
  }

  /** The stretches that complete a message, in order. */
  function Spans(ss: seq<Sentence>): (spans: seq<Span>)
    ensures Within(spans, |ss|)
  {
    if ss == [] then []
    else
      var front := ss[..|ss| - 1];
      Spans(front) + if Closing(ss[|ss| - 1]) && OpenAt(front).Some? then [Span(OpenAt(front).value, |ss|)] else []
  }

  function SpanMessage(ss: seq<Sentence>, span: Span, key: string): Message
    requires span.lo < span.hi <= |ss|
  {
    Whole(ss[span.lo..span.hi], key)
  }

  function Spelled(ss: seq<Sentence>, spans: seq<Span>, key: string): (messages: seq<Message>)
    requires Within(spans, |ss|)
    ensures |messages| == |spans|
    ensures forall k | 0 <= k < |spans| :: messages[k] == SpanMessage(ss, spans[k], key)
  {
    if spans == [] then [] else Spelled(ss, spans[..|spans| - 1], key) + [SpanMessage(ss, spans[|spans| - 1], key)]
  }

  lemma SpelledFront(ss: seq<Sentence>, s: Sentence, spans: seq<Span>, key: string)
    requires Within(spans, |ss|)
    ensures Spelled(ss + [s], spans, key) == Spelled(ss, spans, key)
  {
    hide Spelled, Whole;
    forall k | 0 <= k < |spans|
      ensures SpanMessage(ss + [s], spans[k], key) == SpanMessage(ss, spans[k], key)
    {
      assert (ss + [s])[spans[k].lo..spans[k].hi] == ss[spans[k].lo..spans[k].hi];
    }
  }

  lemma SpansNext(ss: seq<Sentence>, s: Sentence)
    ensures Spans(ss + [s]) == Spans(ss) + if Closing(s) && OpenAt(ss).Some? then [Span(OpenAt(ss).value, |ss| + 1)] else []
    ensures OpenAt(ss + [s]) == if First(s) then Some(|ss|) else if Final(s) then None else OpenAt(ss)
  {
    OpenNext(ss, s);
    hide First, Final, Closing, Within, OpenAt;
    assert (ss + [s])[..|ss|] == ss;
  }

  lemma OpenNext(ss: seq<Sentence>, s: Sentence)
    ensures OpenAt(ss + [s]) == if First(s) then Some(|ss|) else if Final(s) then None else OpenAt(ss)
  {
    hide First, Final;
    assert (ss + [s])[..|ss|] == ss;
  }

  /** One more sentence of the key, when the pending list is what OpenAt says. */
  lemma PartNext(f: Pending, ss: seq<Sentence>, s: Sentence, key: string)
    requires s.total > 1 && Key(s) == key
    requires ss == [] ==> First(s) || key !in f
    requires OpenAt(ss).None? && ss != [] ==> key !in f
    requires OpenAt(ss).Some? ==> key in f && f[key] == Payloads(ss[OpenAt(ss).value..])
    ensures var g, at := Assemble(f, s).0, OpenAt(ss + [s]);
            if at.Some? then key in g && g[key] == Payloads((ss + [s])[at.value..]) else key !in g
    ensures CompletedBy(f, s) == if Closing(s) && OpenAt(ss).Some? then [Whole(ss[OpenAt(ss).value..] + [s], key)] else []
  {
    hide Key, Concat, Payloads;
    SpansNext(ss, s);
    if First(s) {
      assert (ss + [s])[|ss|..] == [s];
      PayloadsAppend([], s);
      NothingYet(f);
      assert [] + [s] == [s];
    } else if OpenAt(ss).Some? {
      var at := OpenAt(ss).value;
      assert (ss + [s])[at..] == ss[at..] + [s];
      PayloadsAppend(ss[at..], s);
    }
  }

  /** Reassembly of any sentences of one key: what is completed are the stretches, each as the message of
      exactly its sentences, and what stays pending is the open one. */
  lemma {:induction false} Stretches(f: Pending, ss: seq<Sentence>, key: string)
    requires OfKey(ss, key) && (key !in f || (ss != [] && First(ss[0])))
    ensures Completed(f, ss) == Spelled(ss, Spans(ss), key)
    ensures var g, at := After(f, ss), OpenAt(ss);
            if at.Some? then key in g && g[key] == Payloads(ss[at.value..]) else key !in g
  {
    if ss == [] {
      NothingYet(f);
      NoStretch(key);
    } else {
      var front, s := ss[..|ss| - 1], ss[|ss| - 1];
      assert ss == front + [s];
      if front != [] || key !in f {
        Stretches(f, front, key);
      } else {
        NothingYet(f);
        NoStretch(key);
      }
      assert s.total > 1 && Key(s) == key;
      StretchNext(f, front, s, key);
    }
  }

  lemma StretchNext(f: Pending, ss: seq<Sentence>, s: Sentence, key: string)
    requires s.total > 1 && Key(s) == key && (ss == [] ==> First(s) || key !in f)
    requires Completed(f, ss) == Spelled(ss, Spans(ss), key)
    requires ss == [] ==> After(f, ss) == f
    requires OpenAt(ss).None? && ss != [] ==> key !in After(f, ss)
    requires OpenAt(ss).Some? ==> key in After(f, ss) && After(f, ss)[key] == Payloads(ss[OpenAt(ss).value..])
    ensures Completed(f, ss + [s]) == Spelled(ss + [s], Spans(ss + [s]), key)
    ensures var g, at := After(f, ss + [s]), OpenAt(ss + [s]);
            if at.Some? then key in g && g[key] == Payloads((ss + [s])[at.value..]) else key !in g
  {
    hide *;
    PartNext(After(f, ss), ss, s, key);
    CompletedAppend(f, ss, s);
    SpansNext(ss, s);
    SpelledFront(ss, s, Spans(ss), key);
    if Closing(s) && OpenAt(ss).Some? {
      var at := OpenAt(ss).value;
      LastStretch(ss, s, at, key);
      WithinMore(Spans(ss), |ss|);
      SpelledMore(ss + [s], Spans(ss), Span(at, |ss| + 1), key);
    }
  }

  lemma LastStretch(ss: seq<Sentence>, s: Sentence, at: nat, key: string)
    requires at < |ss|
    ensures SpanMessage(ss + [s], Span(at, |ss| + 1), key) == Whole(ss[at..] + [s], key)
  {
    assert (ss + [s])[at..|ss| + 1] == ss[at..] + [s];
  }

  lemma WithinMore(spans: seq<Span>, n: nat)
    requires Within(spans, n)
    ensures Within(spans, n + 1)
  {
  }

  lemma NoStretch(key: string)
    ensures Spans([]) == [] && OpenAt([]) == None && Spelled([], [], key) == []
  {
  }

  lemma SpelledMore(ss: seq<Sentence>, spans: seq<Span>, span: Span, key: string)
    requires Within(spans, |ss|) && span.lo < span.hi <= |ss|
    ensures Spelled(ss, spans + [span], key) == Spelled(ss, spans, key) + [SpanMessage(ss, span, key)]
  {
    assert (spans + [span])[..|spans|] == spans;
  }

  // ---------- which stretches ----------

  /** From a first part to a closing one, with neither in between. */
  ghost predicate Stretch(ss: seq<Sentence>, lo: nat, hi: nat) {
    && lo + 1 < hi <= |ss| && First(ss[lo]) && Closing(ss[hi - 1])
    && forall i | lo < i < hi - 1 :: !First(ss[i]) && !Final(ss[i])
  }

  lemma {:induction false} OpenIff(ss: seq<Sentence>, lo: nat)
    ensures OpenAt(ss) == Some(lo) <==>
              lo < |ss| && First(ss[lo]) && forall i | lo < i < |ss| :: !First(ss[i]) && !Final(ss[i])
  {
    if ss != [] {
      OpenIff(ss[..|ss| - 1], lo);
    }
  }

  lemma {:induction false} SpanIff(ss: seq<Sentence>, span: Span)
    ensures span in Spans(ss) <==> Stretch(ss, span.lo, span.hi)
  {
    if ss != [] {
      var front := ss[..|ss| - 1];
      SpanIff(front, span);
      OpenIff(front, span.lo);
      assert ss == front + [ss[|ss| - 1]];
      SpansNext(front, ss[|ss| - 1]);
      hide Spans, OpenAt, First, Closing, Final;
      if span.hi <= |front| {
        StretchFront(ss, span.lo, span.hi);
      }
    }
  }

  lemma StretchFront(ss: seq<Sentence>, lo: nat, hi: nat)
    requires ss != [] && hi < |ss|
    ensures Stretch(ss, lo, hi) <==> Stretch(ss[..|ss| - 1], lo, hi)
  {
    hide First, Closing, Final;
  }

  // ---------- groups ----------

  predicate Below(place: seq<nat>, n: nat) {
    forall k | 0 <= k < |place| :: place[k] < n
  }

  predicate Placed(places: seq<seq<nat>>, i: nat) {
    exists g :: 0 <= g < |places| && i in places[g]
  }

  /** The sentences at these places. */
  function Pick(ss: seq<Sentence>, place: seq<nat>): (group: seq<Sentence>)
    requires Below(place, |ss|)
    ensures |group| == |place|
  {
    seq(|place|, k requires 0 <= k < |place| => ss[place[k]])
  }

  predicate Ascending(place: seq<nat>) {
    forall j, k | 0 <= j < k < |place| :: place[j] < place[k]
  }

  /** The sentences are those of groups, each in order at its own places; every place belongs to one group. */
  ghost predicate Arranged(ss: seq<Sentence>, places: seq<seq<nat>>, key: string) {
    && (forall g | 0 <= g < |places| :: Ascending(places[g]) && Below(places[g], |ss|) && InOrder(Pick(ss, places[g]), key))
    && (forall i | 0 <= i < |ss| :: Placed(places, i))
    && (forall g, h, i | 0 <= g < h < |places| && i in places[g] :: i !in places[h])
  }

  /** No other group's part falls between the parts of this one. */
  ghost predicate Unbroken(place: seq<nat>) {
    place != [] && forall i | place[0] < i < place[|place| - 1] :: i in place
  }

  /** A message is completed from exactly the sentences at these places. */
  ghost predicate Delivers(ss: seq<Sentence>, place: seq<nat>) {
    exists k :: 0 <= k < |Spans(ss)| && Covers(Spans(ss)[k], place)
  }

  ghost predicate Covers(span: Span, place: seq<nat>) {
    forall i: nat :: i in place <==> span.lo <= i < span.hi
  }

  lemma {:induction false} Consecutive(place: seq<nat>, k: nat)
    requires Ascending(place) && Unbroken(place) && k < |place|
    ensures place[k] == place[0] + k
    decreases k
  {
    if k > 0 {
      Consecutive(place, k - 1);
      if place[k] > place[k - 1] + 1 {
        var i := place[k - 1] + 1;
        assert i in place;
        var j :| 0 <= j < |place| && place[j] == i;
      }
    }
  }

  lemma UnbrokenStretch(ss: seq<Sentence>, place: seq<nat>, key: string)
    requires Ascending(place) && Below(place, |ss|)
    requires InOrder(Pick(ss, place), key) && Unbroken(place)
    ensures var lo, hi := place[0], place[0] + |place|;
            Stretch(ss, lo, hi) && ss[lo..hi] == Pick(ss, place) && Covers(Span(lo, hi), place)
  {
    hide Key;
    var lo, hi, group := place[0], place[0] + |place|, Pick(ss, place);
    forall k | 0 <= k < |place|
      ensures place[k] == lo + k && ss[lo + k] == group[k] && group[k].num == k + 1 && group[k].total == |place|
    {
      Consecutive(place, k);
    }
    assert place[|place| - 1] == hi - 1;
    assert ss[lo] == group[0] && ss[hi - 1] == group[|place| - 1];
    forall i: nat
      ensures i in place <==> lo <= i < hi
    {
      if lo <= i < hi {
        assert place[i - lo] == i;
      }
    }
    forall i | lo < i < hi - 1
      ensures !First(ss[i]) && !Final(ss[i])
    {
      assert ss[i] == group[i - lo];
    }
  }

  lemma NotFirst(place: seq<nat>, k: nat)
    requires Ascending(place) && k < |place|
    ensures k > 0 ==> place[k] > 0
  {
    if k > 0 {
      assert place[0] < place[k];
    }
  }

  /** The first sentence of all is a first part. */
  lemma StartsFirst(ss: seq<Sentence>, places: seq<seq<nat>>, key: string)
    requires Arranged(ss, places, key) && ss != []
    ensures First(ss[0])
  {
    hide Key;
    assert Placed(places, 0);
    hide Pick;
    var g :| 0 <= g < |places| && 0 in places[g];
    assert Ascending(places[g]) && Below(places[g], |ss|) && InOrder(Pick(ss, places[g]), key);
    hide Arranged;
    var k :| 0 <= k < |places[g]| && places[g][k] == 0;
    NotFirst(places[g], k);
    PickAt(ss, places[g], 0);
  }

  lemma PickAt(ss: seq<Sentence>, place: seq<nat>, k: nat)
    requires Below(place, |ss|) && k < |place|
    ensures Pick(ss, place)[k] == ss[place[k]]
  {
  }

  lemma ArrangedKey(ss: seq<Sentence>, places: seq<seq<nat>>, key: string)
    requires Arranged(ss, places, key)
    ensures OfKey(ss, key)
  {
    hide Key;
    forall i | 0 <= i < |ss|
      ensures ss[i].total > 1 && Key(ss[i]) == key
    {
      assert Placed(places, i);
      var g :| 0 <= g < |places| && i in places[g];
      assert Below(places[g], |ss|) && InOrder(Pick(ss, places[g]), key);
      var k :| 0 <= k < |places[g]| && places[g][k] == i;
      PickAt(ss, places[g], k);
    }
  }

  /** Any number of messages under one key, merged in any way, in any stream and after anything: a message is
      completed from exactly its own sentences if and only if no other one's falls between them. What is
      completed are the stretches, and nothing else. */
  lemma EachDeliveredIff(f: Pending, stream: seq<Sentence>, ss: seq<Sentence>, places: seq<seq<nat>>, key: string, g: nat)
    requires Own(stream, Some(key)) == ss && Arranged(ss, places, key) && g < |places|
    ensures Of(Completed(f, stream), Some(key)) == Spelled(ss, Spans(ss), key)
    ensures Delivers(ss, places[g]) <==> Unbroken(places[g])
    ensures Unbroken(places[g]) ==> Whole(Pick(ss, places[g]), key) in Of(Completed(f, stream), Some(key))
  {
    Isolation(f, f, stream, Some(key));
    ArrangedKey(ss, places, key);
    ArrangedPlace(ss, places, key, g);
    StartsFirst(ss, places, key);
    Stretches(f, ss, key);
    var place := places[g];
    hide Key, Own, Of, Completed, After, Spans, Whole, Stretch, Closing, First, Payloads, InOrder, Arranged, OfKey, Pick, Within, Spelled;
    if Unbroken(place) {
      UnbrokenStretch(ss, place, key);
      var span := Span(place[0], place[0] + |place|);
      SpanIff(ss, span);
      var k :| 0 <= k < |Spans(ss)| && Spans(ss)[k] == span;
      assert Spelled(ss, Spans(ss), key)[k] == SpanMessage(ss, span, key) == Whole(Pick(ss, place), key);
    } else if Delivers(ss, place) {
      CoveredUnbroken(ss, place);
    }
  }

  lemma ArrangedPlace(ss: seq<Sentence>, places: seq<seq<nat>>, key: string, g: nat)
    requires Arranged(ss, places, key) && g < |places|
    ensures Ascending(places[g]) && Below(places[g], |ss|) && InOrder(Pick(ss, places[g]), key)
    ensures places[g] != [] && ss != []
  {
    hide Key;
    assert Ascending(places[g]) && Below(places[g], |ss|) && InOrder(Pick(ss, places[g]), key);
    assert places[g][0] < |ss|;
  }

  lemma CoveredUnbroken(ss: seq<Sentence>, place: seq<nat>)
    requires place != [] && Delivers(ss, place)
    ensures Unbroken(place)
  {
    hide Spans;
    var k :| 0 <= k < |Spans(ss)| && Covers(Spans(ss)[k], place);
    assert place[0] in place && place[|place| - 1] in place;
  }
}
