/** What a run of the fan-out leaves behind: where every queued frame came from, that every broadcast counts,
    and what a drop costs. */
module FanoutHistory {
  import opened BitStrings
  import opened Sequences
  import opened Options
  import opened FrameCodec
  import opened EdgeServer
  import opened EntityLookup
  import opened FanoutRuns

  // ---------- the broadcasts of a run ----------

  /** This event starts a broadcast: none is under way. */
  predicate Starts(s: System, e: Event) {
    e.Broadcast? && !s.panicked && s.frame.None?
  }

  /** The frames broadcast in a run, in order. */
  function Frames(capacity: nat, events: seq<Event>): seq<seq<byte>> {
    if events == [] then []
    else
      var front, e := events[..|events| - 1], events[|events| - 1];
      Frames(capacity, front) + if Starts(Run(capacity, front), e) then [e.frame] else []
  }

  lemma FramesNext(capacity: nat, events: seq<Event>, e: Event)
    ensures Frames(capacity, events + [e]) == Frames(capacity, events) + if Starts(Run(capacity, events), e) then [e.frame] else []
    ensures Run(capacity, events + [e]) == Proceed(Run(capacity, events), e)
  {
    hide Proceed, Starts;
    assert (events + [e])[..|events|] == events;
  }

  lemma {:induction false} FramesBroadcast(capacity: nat, events: seq<Event>, i: nat)
    requires i < |Frames(capacity, events)|
    ensures Broadcast(Frames(capacity, events)[i]) in events
  {
    hide Run;
    var front, e := events[..|events| - 1], events[|events| - 1];
    assert events == front + [e];
    if i < |Frames(capacity, front)| {
      FramesBroadcast(capacity, front, i);
    }
  }

  /** The state of a client during a broadcast. */
  ghost predicate Meanwhile(s: System, id: nat, p: Pending) {
    && id in s.links && TakeSnapshot(s.links[id].client) == p.snap
    && s.frame == Some(p.frame) && s.number == p.number
  }

  /** A broadcast of the run and a state that this client had while it was under way. */
  ghost predicate FromRun(capacity: nat, events: seq<Event>, id: nat, p: Pending) {
    && 0 < p.number <= |Frames(capacity, events)| && Frames(capacity, events)[p.number - 1] == p.frame
    && exists n | 0 <= n <= |events| :: Meanwhile(Run(capacity, events[..n]), id, p)
  }

  /** The client connected at this point, after so many broadcasts. */
  ghost predicate JoinedAt(capacity: nat, events: seq<Event>, n: nat, id: nat, joined: nat)
    requires n < |events|
  {
    && events[n] == Connect && Run(capacity, events[..n]).nextId + 1 == id
    && joined == |Frames(capacity, events[..n])|
  }

  ghost predicate Joined(capacity: nat, events: seq<Event>, id: nat, joined: nat) {
    exists n | 0 <= n < |events| :: JoinedAt(capacity, events, n, id, joined)
  }

  function Origin(sent: Sent): Pending {
    Pending(sent.snap, sent.source, sent.number)
  }

  ghost predicate LinkFromRun(capacity: nat, events: seq<Event>, id: nat, l: Link) {
    && Joined(capacity, events, id, l.joined)
    && (l.pending.Some? ==> FromRun(capacity, events, id, l.pending.value))
    && (forall i | 0 <= i < |l.visits| :: FromRun(capacity, events, id, l.visits[i]))
    && forall i | 0 <= i < |l.log| :: FromRun(capacity, events, id, Origin(l.log[i]))
  }

  ghost predicate AllFromRun(capacity: nat, events: seq<Event>, s: System) {
    && s.number == |Frames(capacity, events)|
    && (s.frame.Some? ==> s.number > 0 && Frames(capacity, events)[s.number - 1] == s.frame.value)
    && forall id | id in s.links :: LinkFromRun(capacity, events, id, s.links[id])
  }

  lemma StillFromRun(capacity: nat, events: seq<Event>, e: Event, id: nat, p: Pending)
    requires FromRun(capacity, events, id, p)
    ensures FromRun(capacity, events + [e], id, p)
  {
    FramesNext(capacity, events, e);
    hide Meanwhile, Frames, Run, Starts;
    var n :| 0 <= n <= |events| && Meanwhile(Run(capacity, events[..n]), id, p);
    assert (events + [e])[..n] == events[..n];
  }

  lemma StillJoined(capacity: nat, events: seq<Event>, e: Event, id: nat, joined: nat)
    requires Joined(capacity, events, id, joined)
    ensures Joined(capacity, events + [e], id, joined)
  {
    hide Run, Frames;
    var n :| 0 <= n < |events| && JoinedAt(capacity, events, n, id, joined);
    assert (events + [e])[..n] == events[..n];
    assert JoinedAt(capacity, events + [e], n, id, joined);
  }

  lemma LinkStillFromRun(capacity: nat, events: seq<Event>, e: Event, id: nat, l: Link)
    requires LinkFromRun(capacity, events, id, l)
    ensures LinkFromRun(capacity, events + [e], id, l)
  {
    hide FromRun, Joined;
    StillJoined(capacity, events, e, id, l.joined);
    if l.pending.Some? {
      StillFromRun(capacity, events, e, id, l.pending.value);
    }
    forall i | 0 <= i < |l.visits|
      ensures FromRun(capacity, events + [e], id, l.visits[i])
    {
      StillFromRun(capacity, events, e, id, l.visits[i]);
    }
    forall i | 0 <= i < |l.log|
      ensures FromRun(capacity, events + [e], id, Origin(l.log[i]))
    {
      assert FromRun(capacity, events, id, Origin(l.log[i]));
      StillFromRun(capacity, events, e, id, Origin(l.log[i]));
    }
  }

  /** A visit begins with the client's own state; a commit adds it to the visits, and to the log what was
      queued. */
  lemma LinkStepFromRun(capacity: nat, events: seq<Event>, id: nat, l: Link, l': Link)
    requires LinkFromRun(capacity, events, id, l) && l'.joined == l.joined
    requires l'.pending.None? || l'.pending == l.pending || FromRun(capacity, events, id, l'.pending.value)
    requires l'.visits == l.visits || (l.pending.Some? && l'.visits == l.visits + [l.pending.value])
    requires l'.log == l.log
          || (l.pending.Some? && |l'.log| == |l.log| + 1 && l'.log[..|l.log|] == l.log && Origin(l'.log[|l.log|]) == l.pending.value)
    ensures LinkFromRun(capacity, events, id, l')
  {
    hide FromRun, Joined, Origin;
    forall i | 0 <= i < |l'.log|
      ensures FromRun(capacity, events, id, Origin(l'.log[i]))
    {
      if i < |l.log| {
        assert l'.log[i] == l'.log[..|l.log|][i] == l.log[i];
      }
    }
  }

  lemma BeginFromRun(capacity: nat, events: seq<Event>, id: nat)
    requires AllFromRun(capacity, events, Run(capacity, events))
    requires id in Run(capacity, events).links && Run(capacity, events).frame.Some?
    ensures var s := Run(capacity, events);
            FromRun(capacity, events, id, Pending(TakeSnapshot(s.links[id].client), s.frame.value, s.number))
  {
    hide Run, Frames, LinkFromRun;
    var s := Run(capacity, events);
    assert events[..|events|] == events;
    assert Meanwhile(Run(capacity, events[..|events|]), id, Pending(TakeSnapshot(s.links[id].client), s.frame.value, s.number));
  }

  lemma OldLinkFromRun(capacity: nat, events: seq<Event>, e: Event, id: nat)
    requires Safe(Run(capacity, events)) && AllFromRun(capacity, events, Run(capacity, events))
    requires id in Run(capacity, events).links && id in Next(Run(capacity, events), e).links
    ensures LinkFromRun(capacity, events, id, Next(Run(capacity, events), e).links[id])
  {
    var s := Run(capacity, events);
    var l, l' := s.links[id], Next(s, e).links[id];
    LinkNext(s, e, id);
    assert LinkFromRun(capacity, events, id, l);
    if s.frame.Some? {
      BeginFromRun(capacity, events, id);
    }
    if l.pending.Some? {
      CommitQueue(l);
    }
    hide Run, Next, Safe, AllFromRun, FromRun, LinkFromRun, EndVisit, Subscribe, Unsubscribe;
    LinkStepFromRun(capacity, events, id, l, l');
  }

  lemma NewLinkFromRun(capacity: nat, events: seq<Event>, id: nat)
    requires id == Run(capacity, events).nextId + 1
    ensures LinkFromRun(capacity, events + [Connect], id, NewLink(capacity, |Frames(capacity, events)|))
  {
    hide Run, Frames;
    assert (events + [Connect])[..|events|] == events;
    assert JoinedAt(capacity, events + [Connect], |events|, id, |Frames(capacity, events)|);
  }

  lemma NextFromRun(capacity: nat, events: seq<Event>, e: Event, id: nat)
    requires Safe(Run(capacity, events)) && AllFromRun(capacity, events, Run(capacity, events))
    requires Run(capacity, events).capacity == capacity
    requires id in Next(Run(capacity, events), e).links
    ensures LinkFromRun(capacity, events + [e], id, Next(Run(capacity, events), e).links[id])
  {
    var s := Run(capacity, events);
    VisitsNext(s, e, id);
    if id in s.links {
      OldLinkFromRun(capacity, events, e, id);
      LinkStillFromRun(capacity, events, e, id, Next(s, e).links[id]);
    } else {
      NewLinkFromRun(capacity, events, id);
    }
  }

  lemma {:induction false} SameCapacity(capacity: nat, events: seq<Event>)
    ensures Run(capacity, events).capacity == capacity
  {
    if events != [] {
      hide EndVisit, EndsProgram;
      SameCapacity(capacity, events[..|events| - 1]);
    }
  }

  /** Over any run every visit and every queued frame stems from a frame broadcast in it, by way of a state that
      its client had during that broadcast. */
  lemma {:induction false} QueuedFromRun(capacity: nat, events: seq<Event>)
    ensures AllFromRun(capacity, events, Run(capacity, events))
  {
    if events != [] {
      var front, e := events[..|events| - 1], events[|events| - 1];
      assert events == front + [e];
      var s := Run(capacity, front);
      QueuedFromRun(capacity, front);
      FanoutSafety(capacity, front);
      SameCapacity(capacity, front);
      FramesNext(capacity, front, e);
      NumberNext(s, e);
      hide Run, Safe, LinkFromRun, Frames, Next;
      forall id | id in Run(capacity, events).links
        ensures LinkFromRun(capacity, events, id, Run(capacity, events).links[id])
      {
        if s.panicked {
          LinkStillFromRun(capacity, front, e, id, s.links[id]);
        } else {
          NextFromRun(capacity, front, e, id);
        }
      }
    }
  }

  lemma NumberNext(s: System, e: Event)
    ensures var s' := Proceed(s, e);
            if Starts(s, e) then s'.number == s.number + 1 && s'.frame == Some(e.frame)
            else s'.number == s.number && (s'.frame == s.frame || s'.frame == None)
  {
    hide EndVisit, EndsProgram;
  }

  // ---------- every broadcast counts ----------

  /** The visits of the client are of exactly the broadcasts since it joined, in order; the one under way when
      it joined may be among them. */
  ghost predicate VisitedByAll(frames: seq<seq<byte>>, l: Link) {
    var first := |frames| - |l.visits|;
    && 0 <= first && l.joined - 1 <= first <= l.joined
    && forall i | 0 <= i < |l.visits| :: l.visits[i].frame == frames[first + i] && l.visits[i].number == first + i + 1
  }

  /** Delta and viewport refinement, in terms of the broadcasts of the run. Once no broadcast is under way a
      client has been visited by every one since it joined, each time with a state it had during that
      broadcast. At any time, its view holds for an id the newest record among those broadcasts that was
      inside the viewport then in force, if and only if the id is not stale. */
  lemma NewestBroadcasts(truth: (nat, nat) -> Entity, capacity: nat, events: seq<Event>, id: nat)
    requires GoodRun(truth, events) && id in Run(capacity, events).links
    ensures var s := Run(capacity, events);
            var l := s.links[id];
            && Joined(capacity, events, id, l.joined)
            && (s.frame.None? ==> VisitedByAll(Frames(capacity, events), l))
            && (forall i | 0 <= i < |l.visits| :: FromRun(capacity, events, id, l.visits[i]))
            && (forall k: nat :: k in l.stale <==> Wrong(ViewOf(l.log), InForce(l.visits), k))
            && (l.stale == {} <==> ViewOf(l.log) == InForce(l.visits))
  {
    NoDropsNoLoss(truth, capacity, events, id);
    CoveredClient(capacity, events, id);
    hide Run, ViewOf, InForce, Wrong, Joined, GoodRun, FromRun, VisitedByAll;
  }

  lemma CoveredClient(capacity: nat, events: seq<Event>, id: nat)
    requires id in Run(capacity, events).links
    ensures var s := Run(capacity, events);
            var l := s.links[id];
            && Joined(capacity, events, id, l.joined)
            && (forall i | 0 <= i < |l.visits| :: FromRun(capacity, events, id, l.visits[i]))
            && (s.frame.None? ==> VisitedByAll(Frames(capacity, events), l))
  {
    EveryoneCovered(capacity, events);
    QueuedFromRun(capacity, events);
    hide Run, Joined, FromRun, InSeries, LastVisit, Frames;
    var l := Run(capacity, events).links[id];
    assert LinkFromRun(capacity, events, id, l);
    if Run(capacity, events).frame.None? {
      assert UpToDate(Run(capacity, events), id);
      SeriesOf(capacity, events, id, l);
    }
  }

  lemma SeriesOf(capacity: nat, events: seq<Event>, id: nat, l: Link)
    requires InSeries(l) && LastVisit(l) == |Frames(capacity, events)|
    requires forall i | 0 <= i < |l.visits| :: FromRun(capacity, events, id, l.visits[i])
    ensures VisitedByAll(Frames(capacity, events), l)
  {
    hide Frames, Run, Meanwhile;
    if l.visits != [] {
      assert FromRun(capacity, events, id, l.visits[0]);
    }
  }

  // ---------- what is queued ----------

  /** What a queued frame is, given the frame it stems from and the snapshot it was made with. */
  ghost predicate FrameShape(data: seq<byte>, source: seq<byte>, snap: Snapshot) {
    if snap == Snapshot(None, None) then data == source
    else
      var es := EntitiesOf(data);
      && FrameValid(source) && FrameValid(data)
      && |es| > 0 && |data| == HEADER_SIZE + ENTITY_SIZE * |es|
      && data[..6] == source[..6] && data[8..HEADER_SIZE] == source[8..HEADER_SIZE]
      && IsSubsequence(es, EntitiesOf(source))
      && forall e | e in es :: InView(snap.viewport, e) && !Unchanged(snap.lastSent, e)
  }

  /** Over any run, every frame ever queued for a client is a frame broadcast in the run, or 16 + 64 k bytes with
      k > 0 records of one, in order, all in the viewport and changed since the delta map that the client had
      at one moment of that broadcast. */
  lemma QueuedFrames(capacity: nat, events: seq<Event>, id: nat, i: nat)
    requires id in Run(capacity, events).links && i < |Run(capacity, events).links[id].log|
    ensures var sent := Run(capacity, events).links[id].log[i];
            && Broadcast(sent.source) in events && FromRun(capacity, events, id, Origin(sent))
            && FrameShape(sent.data, sent.source, sent.snap)
  {
    FanoutSafety(capacity, events);
    QueuedFromRun(capacity, events);
    assert InStep(Run(capacity, events), id);
    assert LinkFromRun(capacity, events, id, Run(capacity, events).links[id]);
    hide Run, Meanwhile, Frames;
    var sent := Run(capacity, events).links[id].log[i];
    assert Outgoing(sent.snap, sent.source) == Some(sent.data);
    assert FromRun(capacity, events, id, Origin(sent));
    FramesBroadcast(capacity, events, sent.number - 1);
    ShapeOf(sent.snap, sent.source);
  }

  lemma ShapeOf(snap: Snapshot, frame: seq<byte>)
    requires Outgoing(snap, frame).Some?
    ensures FrameShape(Outgoing(snap, frame).value, frame, snap)
  {
    if snap != Snapshot(None, None) {
      hide Outgoing, EntitiesOf, IsSubsequence, InView, Unchanged, FrameValid;
      FilteredShape(snap, frame);
    }
  }

  // ---------- what a drop costs ----------

  /** The commit finds the queue full and delta tracking on, undisturbed since its snapshot. */
  predicate DropsTracked(l: Link) {
    && l.pending.Some? && !l.client.closed && |l.client.queue| >= l.client.capacity
    && l.client.lastSent.Some? && TakeSnapshot(l.client) == l.pending.value.snap
    && Unique(EntitiesOf(l.pending.value.frame))
  }

  lemma DropRecords(l: Link, id: nat)
    requires DropsTracked(l)
    ensures EndVisit(l).log == l.log && EndVisit(l).client.lastSent.Some?
    ensures EndVisit(l).client.viewport == l.client.viewport
    ensures var seen := Find(Visible(l.client.viewport, EntitiesOf(l.pending.value.frame)), id);
            seen.Some? ==> IdOf(seen.value) == id && Unchanged(EndVisit(l).client.lastSent, seen.value)
  {
    hide EndVisit, Find, Matched, Visible, EntitiesOf, SeqOf, IdOf, Unique;
    var p := l.pending.value;
    CommitClient(l);
    CommitMap(l, id);
    FullQueue(l);
    FindMatched(p.snap.viewport, p.snap.lastSent, EntitiesOf(p.frame), id);
    FoundId(Visible(p.snap.viewport, EntitiesOf(p.frame)), id);
  }

  lemma FullQueue(l: Link)
    requires l.pending.Some? && |l.client.queue| >= l.client.capacity
    ensures EndVisit(l).log == l.log
  {
    hide ViewOf, Due, Matched, Visible, EntitiesOf, Outgoing, Recorded, Overlay, Lacking, Ids;
  }

  lemma {:induction false} FoundId(es: seq<Entity>, id: nat)
    ensures Find(es, id).Some? ==> IdOf(Find(es, id).value) == id && Find(es, id).value in es
  {
    hide IdOf;
    if es != [] && IdOf(es[|es| - 1]) != id {
      FoundId(es[..|es| - 1], id);
    }
  }

  lemma {:induction false} FindsEach(es: seq<Entity>, e: Entity)
    requires Unique(es) && e in es
    ensures Find(es, IdOf(e)) == Some(e)
  {
    hide IdOf;
    var front, last := es[..|es| - 1], es[|es| - 1];
    assert es == front + [last];
    if e in front {
      FindsEach(front, e);
    }
  }

  lemma {:induction false} NothingChanged(lastSent: Option<map<nat, nat>>, es: seq<Entity>)
    requires forall e | e in es :: Unchanged(lastSent, e)
    ensures Changed(lastSent, es) == []
  {
    hide Unchanged;
    if es != [] {
      NothingChanged(lastSent, es[..|es| - 1]);
    }
  }

  /** A dropped frame counts as sent: broadcast again to the same subscription it gives rise to nothing, so
      the client, which never got it, does not get it now either. */
  lemma DroppedNotResent(l: Link)
    requires DropsTracked(l)
    ensures EndVisit(l).log == l.log
    ensures Outgoing(TakeSnapshot(EndVisit(l).client), l.pending.value.frame) == None
  {
    var frame := l.pending.value.frame;
    var es := Visible(l.client.viewport, EntitiesOf(frame));
    var lastSent := EndVisit(l).client.lastSent;
    hide EndVisit, Find, EntitiesOf, SeqOf, IdOf, Unique, Unchanged, Visible, FilteredFrame, FrameValid;
    DropRecords(l, 0);
    UniqueVisible(l.client.viewport, EntitiesOf(frame));
    forall e | e in es
      ensures Unchanged(lastSent, e)
    {
      FindsEach(es, e);
      DropRecords(l, IdOf(e));
    }
    NothingChanged(lastSent, es);
  }
}
