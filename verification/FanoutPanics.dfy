/** When the server panics: which events of a run make it send on a closed queue. */
module FanoutPanics {
  import opened BitStrings
  import opened Options
  import opened EdgeServer
  import opened FanoutRuns

  /** This event commits an outgoing frame to a client whose queue is closed. */
  predicate SendsOnClosed(s: System, e: Event) {
    !s.panicked && e.Leave? && Served(s).Some? && EndsProgram(Served(s).value)
  }

  lemma PanicStep(s: System, e: Event)
    ensures Proceed(s, e).panicked <==> s.panicked || SendsOnClosed(s, e)
  {
    hide EndVisit, Panics, Subscribe, Unsubscribe, Read, BeginVisit, Closed, NewLink;
  }

  /** The first panic of a run is at an event that sends on a closed queue. */
  lemma {:induction false} PanicSends(capacity: nat, events: seq<Event>)
    ensures Run(capacity, events).panicked
       <==> exists n | 0 <= n < |events| :: SendsOnClosed(Run(capacity, events[..n]), events[n])
  {
    hide *;
    if events == [] {
      StartsWell(capacity);
    } else {
      var k := |events| - 1;
      var front := events[..k];
      PanicSends(capacity, front);
      RunStep(capacity, events);
      PanicStep(Run(capacity, front), events[k]);
      forall n | 0 <= n < k
        ensures SendsOnClosed(Run(capacity, events[..n]), events[n]) <==> SendsOnClosed(Run(capacity, front[..n]), front[n])
      {
        assert front[..n] == events[..n];
      }
    }
  }

  /** The read pump of a client that is registered, or still being served, closes its queue. */
  predicate Closes(s: System, e: Event, id: nat) {
    e == CloseQueue(id) && !s.panicked && (id in s.links || (s.serving == Some(id) && s.detached.Some?))
  }

  /** A broadcast comes to a client that it will send something. */
  predicate Begins(s: System, e: Event, id: nat) {
    && e == Visit(id) && !s.panicked && s.frame.Some? && s.serving.None? && id in s.links && id !in s.visited
    && Outgoing(TakeSnapshot(s.links[id].client), s.frame.value).Some?
  }

  ghost predicate WasClosed(capacity: nat, events: seq<Event>, id: nat) {
    exists m | 0 <= m < |events| :: Closes(Run(capacity, events[..m]), events[m], id)
  }

  /** A visit that began and has not ended. */
  ghost predicate OpenSince(capacity: nat, events: seq<Event>, v: nat, id: nat)
    requires v < |events|
  {
    Begins(Run(capacity, events[..v]), events[v], id) && forall i | v < i < |events| :: events[i] != Leave
  }

  ghost predicate Open(capacity: nat, events: seq<Event>, id: nat) {
    exists v | 0 <= v < |events| :: OpenSince(capacity, events, v, id)
  }

  lemma ClosedNext(capacity: nat, events: seq<Event>, e: Event, id: nat)
    ensures WasClosed(capacity, events + [e], id) <==> WasClosed(capacity, events, id) || Closes(Run(capacity, events), e, id)
  {
    hide Run, Closes;
    var all := events + [e];
    assert all[..|events|] == events;
    assert forall m | 0 <= m < |events| :: all[..m] == events[..m];
    if WasClosed(capacity, events, id) {
      var m :| 0 <= m < |events| && Closes(Run(capacity, events[..m]), events[m], id);
      assert Closes(Run(capacity, all[..m]), all[m], id);
    }
    if Closes(Run(capacity, events), e, id) {
      assert Closes(Run(capacity, all[..|events|]), all[|events|], id);
    }
  }

  lemma OpenNext(capacity: nat, events: seq<Event>, e: Event, id: nat)
    ensures Open(capacity, events + [e], id) <==>
              e != Leave && (Open(capacity, events, id) || Begins(Run(capacity, events), e, id))
  {
    assert Begins(Run(capacity, events), e, id) ==> e != Leave;
    hide Run, Begins, OpenSince;
    var all := events + [e];
    forall v | 0 <= v < |events|
      ensures OpenSince(capacity, all, v, id) <==> OpenSince(capacity, events, v, id) && e != Leave
    {
      StillOpen(capacity, events, e, v, id);
    }
    JustOpen(capacity, events, e, id);
    if Open(capacity, all, id) {
      var v :| 0 <= v < |all| && OpenSince(capacity, all, v, id);
      if v < |events| {
        assert OpenSince(capacity, events, v, id);
      }
    }
    if e != Leave && Open(capacity, events, id) {
      var v :| 0 <= v < |events| && OpenSince(capacity, events, v, id);
      assert OpenSince(capacity, all, v, id);
    }
  }

  lemma StillOpen(capacity: nat, events: seq<Event>, e: Event, v: nat, id: nat)
    requires v < |events|
    ensures OpenSince(capacity, events + [e], v, id) <==> OpenSince(capacity, events, v, id) && e != Leave
  {
    hide Run, Begins;
    var all := events + [e];
    assert all[..v] == events[..v] && all[v] == events[v] && all[|events|] == e;
    assert forall i | v < i < |events| :: all[i] == events[i];
  }

  lemma JustOpen(capacity: nat, events: seq<Event>, e: Event, id: nat)
    ensures OpenSince(capacity, events + [e], |events|, id) <==> Begins(Run(capacity, events), e, id)
  {
    hide Run, Begins;
    assert (events + [e])[..|events|] == events;
  }

  /** The server is serving this client, and owes it a frame. */
  predicate Owes(s: System, id: nat) {
    && !s.panicked && s.serving == Some(id) && Served(s).Some? && Served(s).value.pending.Some?
    && Outgoing(Served(s).value.pending.value.snap, Served(s).value.pending.value.frame).Some?
  }

  lemma OwesNext(s: System, e: Event, id: nat)
    requires Safe(s)
    ensures Owes(Proceed(s, e), id) <==> e != Leave && (Owes(s, id) || Begins(s, e, id))
  {
    hide Fifo, Before, EndVisit, EndsProgram, Outgoing, TakeSnapshot, Subscribe, Unsubscribe;
    ServingIs(s);
  }

  lemma OwesNothing(capacity: nat, id: nat)
    ensures !Owes(Run(capacity, []), id)
  {
  }

  /** The server owes a client a frame exactly while a visit to it that gives rise to one is open. */
  lemma {:induction false} OwesIffOpen(capacity: nat, events: seq<Event>, id: nat)
    ensures Owes(Run(capacity, events), id) <==> Open(capacity, events, id)
  {
    hide Owes, Begins, OpenSince, Safe, Proceed;
    if events == [] {
      OwesNothing(capacity, id);
    } else {
      var front, e := events[..|events| - 1], events[|events| - 1];
      assert events == front + [e];
      OwesIffOpen(capacity, front, id);
      FanoutSafety(capacity, front);
      OwesNext(Run(capacity, front), e, id);
      OpenNext(capacity, front, e, id);
    }
  }

  /** Whether the queue of a client is closed; false if it is neither registered nor being served. */
  predicate IsClosed(s: System, id: nat) {
    if id in s.links then s.links[id].client.closed
    else s.serving == Some(id) && s.detached.Some? && s.detached.value.client.closed
  }

  predicate Known(s: System, id: nat) {
    id in s.links || (s.serving == Some(id) && s.detached.Some?)
  }

  lemma ClosedStep(s: System, e: Event, id: nat)
    requires Safe(s) && Known(Proceed(s, e), id)
    ensures if Known(s, id) then IsClosed(Proceed(s, e), id) <==> IsClosed(s, id) || Closes(s, e, id)
            else !IsClosed(Proceed(s, e), id) && id == s.nextId + 1
  {
    hide Safe, EndVisit, EndsProgram, Read, Subscribe, Unsubscribe, Outgoing;
    ServingIs(s);
    NotBoth(s);
    if id in s.links {
      StaysClosed(s.links[id], if e.SubscribeTo? then e.viewport else Viewport(0, 0, 0, 0));
    }
  }

  /** What happens to a client otherwise leaves its queue open or closed. */
  lemma StaysClosed(l: Link, vp: Viewport)
    ensures Read(l).client.closed == l.client.closed
    ensures Subscribe(l.client, vp).closed == l.client.closed && Unsubscribe(l.client).closed == l.client.closed
    ensures l.pending.Some? ==> EndVisit(l).client.closed == l.client.closed
  {
    hide EndVisit;
    if l.pending.Some? {
      CommitClient(l);
    }
  }

  lemma NotBoth(s: System)
    requires Safe(s)
    ensures s.detached.Some? ==> s.serving.Some? && s.serving.value !in s.links && s.serving.value <= s.nextId
  {
  }

  /** Nothing was closed under an id not given out yet. */
  lemma {:induction false} ClosedKnown(capacity: nat, events: seq<Event>, id: nat)
    requires WasClosed(capacity, events, id)
    ensures id <= Run(capacity, events).nextId
  {
    if events != [] {
      var front, e := events[..|events| - 1], events[|events| - 1];
      assert events == front + [e];
      ClosedNext(capacity, front, e, id);
      FanoutSafety(capacity, front);
      NextIdGrows(Run(capacity, front), e);
      hide Proceed, WasClosed, Fifo, Before, InStep;
      if WasClosed(capacity, front, id) {
        ClosedKnown(capacity, front, id);
      }
    }
  }

  lemma NextIdGrows(s: System, e: Event)
    ensures s.nextId <= Proceed(s, e).nextId
  {
    hide EndVisit, EndsProgram, Subscribe, Unsubscribe, Read;
  }

  /** A client's queue is closed if and only if its read pump closed it earlier in the run. */
  lemma {:induction false} ClosedIff(capacity: nat, events: seq<Event>, id: nat)
    requires Known(Run(capacity, events), id)
    ensures IsClosed(Run(capacity, events), id) <==> WasClosed(capacity, events, id)
  {
    if events != [] {
      var front, e := events[..|events| - 1], events[|events| - 1];
      assert events == front + [e];
      var s := Run(capacity, front);
      FanoutSafety(capacity, front);
      hide Safe, Proceed, WasClosed, IsClosed, Known, Closes;
      ClosedStep(s, e, id);
      ClosedNext(capacity, front, e, id);
      if Known(s, id) {
        ClosedIff(capacity, front, id);
      } else {
        ClosesKnown(s, e, id);
        if WasClosed(capacity, front, id) {
          ClosedKnown(capacity, front, id);
        }
      }
    }
  }

  lemma ClosesKnown(s: System, e: Event, id: nat)
    ensures Closes(s, e, id) ==> Known(s, id)
  {
  }

  lemma SendsIff(s: System, e: Event)
    requires Safe(s)
    ensures SendsOnClosed(s, e) <==> e == Leave && exists id :: Owes(s, id) && IsClosed(s, id)
    ensures forall id | Owes(s, id) :: Known(s, id)
  {
    hide Fifo, Before, Outgoing;
    ServingIs(s);
    if SendsOnClosed(s, e) {
      assert Owes(s, s.serving.value) && IsClosed(s, s.serving.value);
    }
  }

  /** The events that make a run panic at its n-th event: the end of an open visit to a client whose queue was
      closed before, be it before the visit or during it. */
  ghost predicate Crash(capacity: nat, events: seq<Event>, n: nat, id: nat)
    requires n < |events|
  {
    events[n] == Leave && Open(capacity, events[..n], id) && WasClosed(capacity, events[..n], id)
  }

  /** A run panics if and only if the read pump of some client closed its queue and, later in the run, a visit
      to that client that gives rise to a frame ends. */
  lemma PanicIff(capacity: nat, events: seq<Event>)
    ensures Run(capacity, events).panicked <==> exists n, id | 0 <= n < |events| :: Crash(capacity, events, n, id)
  {
    hide Run, Safe, SendsOnClosed, Open, WasClosed, Owes, IsClosed, Known;
    PanicSends(capacity, events);
    forall n | 0 <= n < |events|
      ensures SendsOnClosed(Run(capacity, events[..n]), events[n]) <==> exists id :: Crash(capacity, events, n, id)
    {
      CrashAt(capacity, events, n);
    }
  }

  lemma CrashAt(capacity: nat, events: seq<Event>, n: nat)
    requires n < |events|
    ensures SendsOnClosed(Run(capacity, events[..n]), events[n]) <==> exists id :: Crash(capacity, events, n, id)
  {
    hide Run, Safe, SendsOnClosed, Open, WasClosed, Owes, IsClosed, Known;
    var front := events[..n];
    var s := Run(capacity, front);
    FanoutSafety(capacity, front);
    SendsIff(s, events[n]);
    forall id
      ensures Owes(s, id) && IsClosed(s, id) <==> Open(capacity, front, id) && WasClosed(capacity, front, id)
    {
      OwesIffOpen(capacity, front, id);
      if Owes(s, id) {
        ClosedIff(capacity, front, id);
      }
    }
    if SendsOnClosed(s, events[n]) {
      var id :| Owes(s, id) && IsClosed(s, id);
      assert Crash(capacity, events, n, id);
    }
    if id :| Crash(capacity, events, n, id) {
      assert Owes(s, id) && IsClosed(s, id);
    }
  }

  lemma StartsWell(capacity: nat)
    ensures !Run(capacity, []).panicked
  {
  }

  lemma RunStep(capacity: nat, events: seq<Event>)
    requires events != []
    ensures Run(capacity, events) == Proceed(Run(capacity, events[..|events| - 1]), events[|events| - 1])
  {
    hide Proceed;
  }

  function After(s: System, events: seq<Event>): System
    decreases |events|
  {
    if events == [] then s else After(Proceed(s, events[0]), events[1..])
  }

  lemma {:induction false} RunAfter(capacity: nat, a: seq<Event>, b: seq<Event>)
    ensures Run(capacity, a + b) == After(Run(capacity, a), b)
    decreases |b|
  {
    hide Proceed;
    if b == [] {
      assert a + b == a;
    } else {
      var a' := a + [b[0]];
      assert a'[..|a|] == a;
      RunAfter(capacity, a', b[1..]);
      assert a' + b[1..] == a + b;
    }
  }

  /** A client without a subscription on an idle server: it is sent every frame. */
  predicate Idle(s: System, id: nat) {
    && !s.panicked && s.frame.None? && s.serving.None? && s.detached.None?
    && id in s.links && s.links[id].pending.None? && TakeSnapshot(s.links[id].client) == Snapshot(None, None)
  }

  lemma FourSteps(s: System, a: Event, b: Event, c: Event, d: Event)
    ensures After(s, [a, b, c, d]) == Proceed(Proceed(Proceed(Proceed(s, a), b), c), d)
  {
    hide Proceed;
    assert [a, b, c, d][1..] == [b, c, d] && [b, c, d][1..] == [c, d] && [c, d][1..] == [d] && [d][1..] == [];
    var s1 := Proceed(s, a);
    var s2 := Proceed(s1, b);
    assert After(s1, [b, c, d]) == After(s2, [c, d]);
    assert After(s2, [c, d]) == After(Proceed(s2, c), [d]);
  }

  /** Two inputs that end the program: the queue is closed after a visit has begun, or before the broadcast
      while the client is still registered. */
  lemma CloseThenSend(s: System, id: nat, frame: seq<byte>)
    requires Idle(s, id)
    ensures After(s, [Broadcast(frame), Visit(id), CloseQueue(id), Leave]).panicked
    ensures After(s, [CloseQueue(id), Broadcast(frame), Visit(id), Leave]).panicked
  {
    FourSteps(s, Broadcast(frame), Visit(id), CloseQueue(id), Leave);
    FourSteps(s, CloseQueue(id), Broadcast(frame), Visit(id), Leave);
    hide EndVisit, After;
    ClosedInVisit(s, id, frame);
    ClosedBefore(s, id, frame);
  }

  lemma ClosedInVisit(s: System, id: nat, frame: seq<byte>)
    requires Idle(s, id)
    ensures Proceed(Proceed(Proceed(Proceed(s, Broadcast(frame)), Visit(id)), CloseQueue(id)), Leave).panicked
  {
    hide EndVisit;
    var s1 := Proceed(s, Broadcast(frame));
    var s2 := Proceed(s1, Visit(id));
    var s3 := Proceed(s2, CloseQueue(id));
    assert s2.serving == Some(id) && s2.links[id] == BeginVisit(s.links[id], frame, s.number + 1);
    assert Served(s3) == Some(Closed(s2.links[id])) && EndsProgram(Served(s3).value);
  }

  lemma ClosedBefore(s: System, id: nat, frame: seq<byte>)
    requires Idle(s, id)
    ensures Proceed(Proceed(Proceed(Proceed(s, CloseQueue(id)), Broadcast(frame)), Visit(id)), Leave).panicked
  {
    hide EndVisit;
    var s1 := Proceed(s, CloseQueue(id));
    var s2 := Proceed(s1, Broadcast(frame));
    var s3 := Proceed(s2, Visit(id));
    assert s2.links[id] == Closed(s.links[id]);
    assert Served(s3) == Some(BeginVisit(s2.links[id], frame, s2.number)) && EndsProgram(Served(s3).value);
  }

  /** Removed before the broadcast reaches it, a client is not served any more. */
  lemma RemovedInTime(s: System, id: nat, frame: seq<byte>)
    requires Idle(s, id)
    ensures !After(s, [CloseQueue(id), Disconnect(id), Broadcast(frame), Visit(id)]).panicked
    ensures After(s, [CloseQueue(id), Disconnect(id), Broadcast(frame), Visit(id)]).serving == None
  {
    FourSteps(s, CloseQueue(id), Disconnect(id), Broadcast(frame), Visit(id));
    hide EndVisit, After;
    var s1 := Proceed(s, CloseQueue(id));
    var s2 := Proceed(s1, Disconnect(id));
    var s3 := Proceed(s2, Broadcast(frame));
    assert id !in s2.links && id !in s3.links && s3.serving == None;
  }
}
