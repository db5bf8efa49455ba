/** Runs of the fan-out: connects, disconnects, subscription changes and reads by clients, interleaved
    with broadcasts that serve one client after another in two steps, a snapshot and a commit. */
module FanoutRuns {
  import opened BitStrings
  import opened Sequences
  import opened Options
  import opened FrameCodec
  import opened EdgeServer
  import opened EntityLookup

  /** A frame that was queued: its bytes, the broadcast it came from and the snapshot it was made with. */
  datatype Sent = Sent(data: seq<byte>, number: nat, source: seq<byte>, snap: Snapshot)

  /** A client between the two steps of a broadcast. */
  datatype Pending = Pending(snap: Snapshot, frame: seq<byte>, number: nat)

  /** A client together with what happened to it: the number of broadcasts before it joined, the visits of
      those that have been to it since, every frame ever queued, how many of them have been read, and the
      ids whose last outgoing record was dropped by a full queue and is not what the client already had. */
  datatype Link = Link(
    client: ClientState, joined: nat, pending: Option<Pending>, visits: seq<Pending>,
    log: seq<Sent>, taken: nat, stale: set<nat>)

  function NewLink(capacity: nat, joined: nat): Link {
    Link(ClientState(None, None, [], capacity, false), joined, None, [], [], 0, {})
  }

  /** For each id the last record among these broadcasts that was inside the viewport in force. */
  function InForce(visits: seq<Pending>): map<nat, Entity> {
    if visits == [] then map[]
    else
      var last := visits[|visits| - 1];
      Overlay(InForce(visits[..|visits| - 1]), Visible(last.snap.viewport, EntitiesOf(last.frame)))
  }

  function Newest(l: Link): map<nat, Entity> {
    InForce(l.visits)
  }

  /** What the client has made of the frames queued for it, the last record for an id winning. */
  function ViewOf(log: seq<Sent>): map<nat, Entity> {
    if log == [] then map[] else Overlay(ViewOf(log[..|log| - 1]), EntitiesOf(log[|log| - 1].data))
  }

  // ---------- steps of one client ----------

  function Read(l: Link): Link {
    if l.client.queue == [] then l
    else l.(client := l.client.(queue := l.client.queue[1..]), taken := l.taken + 1)
  }

  function BeginVisit(l: Link, frame: seq<byte>, number: nat): Link {
    l.(pending := Some(Pending(TakeSnapshot(l.client), frame, number)))
  }

  function Due(p: Pending): seq<Entity> {
    Matched(p.snap.viewport, p.snap.lastSent, EntitiesOf(p.frame))
  }

  /** The ids whose record here the view does not hold. */
  function Lacking(view: map<nat, Entity>, es: seq<Entity>): set<nat> {
    set id | id in Ids(es) && !(Find(es, id).Some? && id in view && view[id] == Find(es, id).value)
  }

  /** The program ends when this commit sends on a closed queue. */
  predicate EndsProgram(l: Link) {
    l.pending.Some? && Panics(l.client, l.pending.value.snap, l.pending.value.frame)
  }

  function EndVisit(l: Link): Link
    requires l.pending.Some?
  {
    var p := l.pending.value;
    var visited := l.(client := Commit(l.client, p.snap, p.frame), pending := None, visits := l.visits + [p]);
    match Outgoing(p.snap, p.frame)
    case None => visited
    case Some(out) =>
      if !l.client.closed && |l.client.queue| < l.client.capacity then
        visited.(log := l.log + [Sent(out, p.number, p.frame, p.snap)], stale := l.stale - Ids(Due(p)))
      else
        visited.(stale := l.stale - Ids(Due(p)) + Lacking(ViewOf(l.log), Due(p)))
  }

  // ---------- the delta invariant, id by id ----------

  /** A recorded sequence number is that of the newest record in view. */
  predicate RecordRight(lastSent: Option<map<nat, nat>>, newest: map<nat, Entity>, id: nat) {
    lastSent.Some? && id in lastSent.value ==> id in newest && SeqOf(newest[id]) == lastSent.value[id]
  }

  /** The view does not hold the newest record of this id. */
  predicate Wrong(view: map<nat, Entity>, newest: map<nat, Entity>, id: nat) {
    id in newest && !(id in view && view[id] == newest[id])
  }

  /** The stale ids are exactly the wrong ones. */
  predicate DeltaAt(l: Link, truth: (nat, nat) -> Entity, id: nat) {
    && (id in ViewOf(l.log) ==> id in Newest(l))
    && (id in Newest(l) ==> Newest(l)[id] == truth(id, SeqOf(Newest(l)[id])))
    && (id in l.stale <==> Wrong(ViewOf(l.log), Newest(l), id))
    && RecordRight(l.client.lastSent, Newest(l), id)
    && (l.pending.Some? ==> RecordRight(l.pending.value.snap.lastSent, Newest(l), id))
  }

  /** Viewport and delta map come and go together, and while a visit is under way the delta map is the one
      of its snapshot, gone, or that of a new subscription and still empty. */
  predicate Paired(l: Link) {
    && (l.client.viewport.Some? <==> l.client.lastSent.Some?)
    && (l.pending.Some? ==>
          && (l.pending.value.snap.viewport.Some? <==> l.pending.value.snap.lastSent.Some?)
          && (|| l.client.lastSent == l.pending.value.snap.lastSent || l.client.lastSent == None
              || l.client.lastSent == Some(map[])))
  }

  ghost predicate Delta(l: Link, truth: (nat, nat) -> Entity) {
    Paired(l) && forall id: nat :: DeltaAt(l, truth, id)
  }

  /** The frames of a run: no id twice in a frame, and a record is determined by id and sequence number. */
  predicate GoodFrame(truth: (nat, nat) -> Entity, frame: seq<byte>) {
    Unique(EntitiesOf(frame)) && Consistent(truth, EntitiesOf(frame))
  }

  lemma InForceAppend(visits: seq<Pending>, p: Pending)
    ensures InForce(visits + [p]) == Overlay(InForce(visits), Visible(p.snap.viewport, EntitiesOf(p.frame)))
  {
    assert (visits + [p])[..|visits|] == visits;
  }

  lemma ViewAppend(log: seq<Sent>, s: Sent)
    ensures ViewOf(log + [s]) == Overlay(ViewOf(log), EntitiesOf(s.data))
  {
    assert (log + [s])[..|log|] == log;
  }

  /** The client's part of a commit. */
  lemma CommitClient(l: Link)
    requires l.pending.Some?
    ensures var p := l.pending.value;
            var c := EndVisit(l).client;
            && EndVisit(l).pending.None?
            && c.viewport == l.client.viewport && c.capacity == l.client.capacity && c.closed == l.client.closed
            && (c.lastSent.Some? <==> l.client.lastSent.Some?)
            && (c.lastSent.Some? ==>
                  c.lastSent.value == (if p.snap.lastSent.Some? && Outgoing(p.snap, p.frame).Some?
                                       then Recorded(l.client.lastSent.value, Due(p)) else l.client.lastSent.value))
  {
    hide Outgoing, Recorded, Matched, Overlay, Visible, Ids;
  }

  /** A commit either delivers what is due or drops all of it. */
  lemma DeliveredOrDropped(l: Link)
    requires l.pending.Some?
    ensures var p := l.pending.value;
            var l' := EndVisit(l);
            && Newest(l') == Overlay(Newest(l), Visible(p.snap.viewport, EntitiesOf(p.frame)))
            && (|| (ViewOf(l'.log) == Overlay(ViewOf(l.log), Due(p)) && l'.stale == l.stale - Ids(Due(p)))
                || (l'.log == l.log && l'.stale == l.stale - Ids(Due(p)) + Lacking(ViewOf(l.log), Due(p))))
  {
    hide Outgoing, Commit, Matched, EntitiesOf, Visible, Overlay, Ids, ViewOf, Lacking, InForce;
    var p := l.pending.value;
    InForceAppend(l.visits, p);
    OutgoingEntities(p.snap, p.frame);
    if Outgoing(p.snap, p.frame).Some? {
      ViewAppend(l.log, Sent(Outgoing(p.snap, p.frame).value, p.number, p.frame, p.snap));
    } else {
      NothingDue(ViewOf(l.log));
    }
  }

  lemma NothingDue(view: map<nat, Entity>)
    ensures Overlay(view, []) == view && Ids([]) == {}
  {
  }

  lemma LackingAt(view: map<nat, Entity>, es: seq<Entity>, id: nat)
    ensures id in Lacking(view, es) <==> Find(es, id).Some? && !(id in view && view[id] == Find(es, id).value)
  {
    hide Find, Ids;
    FindIds(es, id);
  }

  /** What the commit does to one id of the view, the newest records and the stale set. */
  lemma CommitView(l: Link, id: nat)
    requires l.pending.Some? && Unique(EntitiesOf(l.pending.value.frame))
    ensures var p := l.pending.value;
            var l' := EndVisit(l);
            var seen := Find(Visible(p.snap.viewport, EntitiesOf(p.frame)), id);
            var due := Find(Due(p), id);
            var view, view' := ViewOf(l.log), ViewOf(l'.log);
            && due == (if seen.Some? && !Unchanged(p.snap.lastSent, seen.value) then seen else None)
            && (id in Newest(l') <==> id in Newest(l) || seen.Some?)
            && (id in Newest(l') ==> Newest(l')[id] == if seen.Some? then seen.value else Newest(l)[id])
            && (due.None? ==> (id in l'.stale <==> id in l.stale) && (id in view' <==> id in view)
                              && (id in view ==> view'[id] == view[id]))
            && (due.Some? ==>
                  || (id !in l'.stale && id in view' && view'[id] == due.value)
                  || (view' == view && (id in l'.stale <==> !(id in view && view[id] == due.value))))
  {
    var p := l.pending.value;
    var es := EntitiesOf(p.frame);
    DeliveredOrDropped(l);
    FindMatched(p.snap.viewport, p.snap.lastSent, es, id);
    hide EndVisit, Outgoing, Commit, Matched, EntitiesOf, Visible, Overlay, Find, Ids, Unchanged, ViewOf, Unique, Lacking, Newest;
    FindIds(Due(p), id);
    LackingAt(ViewOf(l.log), Due(p), id);
    FindOverlay(Newest(l), Visible(p.snap.viewport, es), id);
    FindOverlay(ViewOf(l.log), Due(p), id);
  }

  lemma CommitMap(l: Link, id: nat)
    requires l.pending.Some? && l.client.lastSent.Some?
    ensures var p := l.pending.value;
            var due := Find(Due(p), id);
            var m, m' := l.client.lastSent.value, EndVisit(l).client.lastSent.value;
            && EndVisit(l).client.lastSent.Some?
            && (due.None? || p.snap.lastSent.None? ==> (id in m' <==> id in m) && (id in m ==> m'[id] == m[id]))
            && (due.Some? && p.snap.lastSent.Some? ==> id in m' && m'[id] == SeqOf(due.value))
  {
    hide Outgoing, Matched, Recorded, Find, EndVisit, SeqOf;
    var p := l.pending.value;
    CommitClient(l);
    FindRecorded(l.client.lastSent.value, Due(p), id);
    OutgoingEntities(p.snap, p.frame);
    if Outgoing(p.snap, p.frame).None? {
      NothingFound(id);
    }
  }

  lemma NothingFound(id: nat)
    ensures Find([], id) == None
  {
  }

  /** A commit keeps the invariant at every id, whatever subscription changes came in between. */
  lemma CommitKeepsDelta(l: Link, truth: (nat, nat) -> Entity, id: nat)
    requires l.pending.Some? && GoodFrame(truth, l.pending.value.frame)
    requires Paired(l) && DeltaAt(l, truth, id)
    ensures DeltaAt(EndVisit(l), truth, id)
  {
    hide EndVisit, ViewOf, Newest, Find, Due, Matched, Visible, EntitiesOf, SeqOf, IdOf, Unique, Consistent, Outgoing, Recorded;
    CommitView(l, id);
    CommitClient(l);
    if l.client.lastSent.Some? {
      CommitMap(l, id);
    }
    SeenIsTrue(truth, l.pending.value, id);
  }

  /** A visible record is the one its id and sequence number determine. */
  lemma SeenIsTrue(truth: (nat, nat) -> Entity, p: Pending, id: nat)
    requires GoodFrame(truth, p.frame)
    ensures var seen := Find(Visible(p.snap.viewport, EntitiesOf(p.frame)), id);
            seen.Some? ==> IdOf(seen.value) == id && seen.value == truth(id, SeqOf(seen.value))
  {
    hide SeqOf, IdOf, Visible, EntitiesOf, Unique, Consistent, Find;
    var es := EntitiesOf(p.frame);
    FindVisible(p.snap.viewport, es, id);
    if Find(es, id).Some? {
      FindConsistent(truth, es, id);
    }
  }

  lemma CommitKeepsPaired(l: Link)
    requires l.pending.Some? && Paired(l)
    ensures Paired(EndVisit(l))
  {
    CommitClient(l);
    hide Outgoing, Matched, Recorded, EntitiesOf, Visible, Overlay, Ids;
  }

  // ---------- queues ----------

  /** The queue holds exactly the frames queued and not yet read, oldest first, within capacity; every
      one is what its snapshot gave rise to, and broadcast numbers increase along the log. */
  ghost predicate Fifo(l: Link) {
    && l.taken + |l.client.queue| == |l.log|
    && |l.client.queue| <= l.client.capacity
    && (forall i | 0 <= i < |l.client.queue| :: l.client.queue[i] == l.log[l.taken + i].data)
    && (forall i | 0 <= i < |l.log| :: Outgoing(l.log[i].snap, l.log[i].source) == Some(l.log[i].data))
    && (forall i, j | 0 <= i < j < |l.log| :: l.log[i].number < l.log[j].number)
  }

  /** Every queued frame of the log comes from a broadcast before this one. */
  ghost predicate Before(l: Link, number: nat) {
    forall i | 0 <= i < |l.log| :: l.log[i].number < number
  }

  lemma CommitQueue(l: Link)
    requires l.pending.Some?
    ensures var p := l.pending.value;
            var l' := EndVisit(l);
            && l'.taken == l.taken && l'.joined == l.joined && l'.visits == l.visits + [p] && l'.client.capacity == l.client.capacity && l'.pending == None
            && (|| (l'.client.queue == l.client.queue && l'.log == l.log)
                || (&& |l.client.queue| < l.client.capacity && !l.client.closed && Outgoing(p.snap, p.frame).Some?
                    && l'.client.queue == l.client.queue + [Outgoing(p.snap, p.frame).value]
                    && l'.log == l.log + [Sent(Outgoing(p.snap, p.frame).value, p.number, p.frame, p.snap)]))
  {
    hide Outgoing, Recorded, Matched, Overlay, Visible, Ids, EntitiesOf;
  }

  lemma LogGrows(l: Link, s: Sent)
    requires Fifo(l) && Before(l, s.number) && |l.client.queue| < l.client.capacity && Outgoing(s.snap, s.source) == Some(s.data)
    ensures var l' := l.(client := l.client.(queue := l.client.queue + [s.data]), log := l.log + [s]);
            Fifo(l') && Before(l', s.number + 1)
  {
    hide Outgoing;
  }

  /** The invariants of the queue speak of nothing else. */
  lemma SameFifo(l: Link, l': Link)
    requires Fifo(l)
    requires l'.client.queue == l.client.queue && l'.client.capacity == l.client.capacity && l'.log == l.log && l'.taken == l.taken
    ensures Fifo(l')
  {
    hide Outgoing;
  }

  lemma SameLog(l: Link, l': Link, number: nat)
    requires l'.log == l.log
    ensures Before(l', number) <==> Before(l, number)
  {
  }

  lemma CommitKeepsFifo(l: Link)
    requires l.pending.Some? && Fifo(l) && Before(l, l.pending.value.number)
    ensures Fifo(EndVisit(l)) && Before(EndVisit(l), l.pending.value.number + 1)
  {
    hide Fifo, Before, EndVisit, Outgoing;
    CommitQueue(l);
    var p, l' := l.pending.value, EndVisit(l);
    if l'.log == l.log {
      SameFifo(l, l');
      SameLog(l, l', p.number);
      BeforeMonotone(l', p.number, p.number + 1);
    } else {
      var s := Sent(Outgoing(p.snap, p.frame).value, p.number, p.frame, p.snap);
      var grown := l.(client := l.client.(queue := l.client.queue + [s.data]), log := l.log + [s]);
      LogGrows(l, s);
      SameFifo(grown, l');
      SameLog(grown, l', p.number + 1);
    }
  }

  lemma ReadKeepsFifo(l: Link)
    requires Fifo(l)
    ensures Fifo(Read(l))
  {
    hide Outgoing;
  }

  /** a can be obtained from b by leaving elements out. */
  predicate IsSubsequence(a: seq<Entity>, b: seq<Entity>)
    decreases |b|
  {
    a == [] ||
    (b != [] && (IsSubsequence(a, b[..|b| - 1])
                 || (a[|a| - 1] == b[|b| - 1] && IsSubsequence(a[..|a| - 1], b[..|b| - 1]))))
  }

  lemma SubsequenceExtend(a: seq<Entity>, b: seq<Entity>, e: Entity)
    requires IsSubsequence(a, b)
    ensures IsSubsequence(a, b + [e]) && IsSubsequence(a + [e], b + [e])
  {
    assert (b + [e])[..|b|] == b && (a + [e])[..|a|] == a;
  }

  lemma {:induction false} MatchedShape(vp: Option<Viewport>, lastSent: Option<map<nat, nat>>, es: seq<Entity>)
    ensures IsSubsequence(Matched(vp, lastSent, es), es)
    ensures forall e | e in Matched(vp, lastSent, es) :: InView(vp, e) && !Unchanged(lastSent, e)
  {
    hide InView, Unchanged;
    if es == [] {
      assert Matched(vp, lastSent, es) == [];
    } else {
      var front, e := es[..|es| - 1], es[|es| - 1];
      MatchedShape(vp, lastSent, front);
      MatchedNext(vp, lastSent, front, e);
      assert es == front + [e];
      hide Matched, IsSubsequence;
      SubsequenceExtend(Matched(vp, lastSent, front), front, e);
    }
  }

  /** A filtered frame: 16 + 64 k bytes for k > 0 records, k in its header, and the records are those
      of the broadcast frame that lie in the viewport and have changed, in the same order. */
  lemma FilteredShape(snap: Snapshot, frame: seq<byte>)
    requires snap != Snapshot(None, None) && Outgoing(snap, frame).Some?
    ensures var out := Outgoing(snap, frame).value;
            var es := EntitiesOf(out);
            && FrameValid(frame) && FrameValid(out)
            && |es| > 0 && |out| == HEADER_SIZE + ENTITY_SIZE * |es|
            && out[..6] == frame[..6] && out[8..HEADER_SIZE] == frame[8..HEADER_SIZE]
            && IsSubsequence(es, EntitiesOf(frame))
            && forall e | e in es :: InView(snap.viewport, e) && !Unchanged(snap.lastSent, e)
  {
    OutgoingEntities(snap, frame);
    var m := Matched(snap.viewport, snap.lastSent, EntitiesOf(frame));
    MatchedShape(snap.viewport, snap.lastSent, EntitiesOf(frame));
    EntityCount(frame);
    hide Matched, EntitiesOf, InView, Unchanged, IsSubsequence;
    var out := FilteredFrame(frame[..HEADER_SIZE], m);
    assert out == Outgoing(snap, frame).value;
    FilteredHeader(frame[..HEADER_SIZE], m);
    HeaderKept(frame, m);
  }

  lemma HeaderKept(frame: seq<byte>, m: seq<Entity>)
    requires |frame| >= HEADER_SIZE
    ensures var out := FilteredFrame(frame[..HEADER_SIZE], m);
            out[..6] == frame[..6] && out[8..HEADER_SIZE] == frame[8..HEADER_SIZE]
  {
  }

  // ---------- the whole server ----------

  /** The server during a run: its clients, the broadcast under way if there is one, the client it is
      serving, those registered when it began and those it has been to; the client being served may already
      have been removed, and is then detached. The run may have ended in a panic. */
  datatype System = System(
    links: map<nat, Link>, nextId: nat, clientCount: int, capacity: nat,
    number: nat, frame: Option<seq<byte>>, serving: Option<nat>, begun: set<nat>, visited: set<nat>,
    detached: Option<Link>, panicked: bool)

  datatype Event =
    | Connect
    | CloseQueue(id: nat)                      // the read pump fails
    | Disconnect(id: nat)                      // the client is removed
    | SubscribeTo(id: nat, viewport: Viewport)
    | UnsubscribeFrom(id: nat)
    | ReadFrame(id: nat)
    | Broadcast(frame: seq<byte>)
    | Visit(id: nat)
    | Leave
    | Done

  function Start(capacity: nat): System {
    System(map[], 0, 0, capacity, 0, None, None, {}, {}, None, false)
  }

  function With(s: System, id: nat, l: Link): System {
    s.(links := s.links[id := l])
  }

  function Closed(l: Link): Link {
    l.(client := Close(l.client))
  }

  /** The client that the broadcast is serving. */
  function Served(s: System): Option<Link> {
    if s.serving.None? then None
    else if s.serving.value in s.links then Some(s.links[s.serving.value])
    else s.detached
  }

  /** One event of a running server; an event whose time has not come changes nothing. A broadcast goes to
      each client at most once, and is done when it has been to all that were registered when it began and
      still are. */
  function Next(s: System, e: Event): System {
    match e
    case Connect =>
      With(s, s.nextId + 1, NewLink(s.capacity, s.number)).(nextId := s.nextId + 1, clientCount := s.clientCount + 1)
    case CloseQueue(id) =>
      if id in s.links then With(s, id, Closed(s.links[id]))
      else if s.serving == Some(id) && s.detached.Some? then s.(detached := Some(Closed(s.detached.value)))
      else s
    case Disconnect(id) =>
      if id !in s.links then s
      else s.(links := s.links - {id}, clientCount := s.clientCount - 1,
              detached := if s.serving == Some(id) then Some(s.links[id]) else s.detached)
    case SubscribeTo(id, vp) =>
      if id !in s.links then s else With(s, id, s.links[id].(client := Subscribe(s.links[id].client, vp)))
    case UnsubscribeFrom(id) =>
      if id !in s.links then s else With(s, id, s.links[id].(client := Unsubscribe(s.links[id].client)))
    case ReadFrame(id) =>
      if id !in s.links then s else With(s, id, Read(s.links[id]))
    case Broadcast(frame) =>
      if s.frame.Some? then s else s.(number := s.number + 1, frame := Some(frame), begun := s.links.Keys, visited := {})
    case Visit(id) =>
      if s.frame.None? || s.serving.Some? || id !in s.links || id in s.visited then s
      else With(s, id, BeginVisit(s.links[id], s.frame.value, s.number)).(serving := Some(id), visited := s.visited + {id})
    case Leave =>
      var served := Served(s);
      if served.None? || served.value.pending.None? then s
      else if EndsProgram(served.value) then s.(panicked := true)
      else if s.serving.value in s.links then With(s, s.serving.value, EndVisit(served.value)).(serving := None)
      else s.(serving := None, detached := None)
    case Done =>
      if s.serving.Some? || !(s.begun * s.links.Keys <= s.visited) then s else s.(frame := None)
  }

  /** After a panic nothing happens any more. */
  function Proceed(s: System, e: Event): System {
    if s.panicked then s else Next(s, e)
  }

  function Run(capacity: nat, events: seq<Event>): System {
    if events == [] then Start(capacity) else Proceed(Run(capacity, events[..|events| - 1]), events[|events| - 1])
  }

  /** The connections of a run. */
  function Connects(capacity: nat, events: seq<Event>): nat {
    if events == [] then 0
    else
      var front := events[..|events| - 1];
      Connects(capacity, front) + if events[|events| - 1].Connect? && !Run(capacity, front).panicked then 1 else 0
  }

  lemma NextIdStep(s: System, e: Event)
    ensures Proceed(s, e).nextId == s.nextId + if e.Connect? && !s.panicked then 1 else 0
  {
    hide EndVisit, BeginVisit, Served, EndsProgram, Subscribe, Unsubscribe;
  }

  /** Clients are numbered in the order they connect, from 1 on. */
  lemma {:induction false} ClientsNumbered(capacity: nat, events: seq<Event>)
    ensures Run(capacity, events).nextId == Connects(capacity, events)
    ensures !Run(capacity, events).panicked ==> Connects(capacity, events) + 1 in Run(capacity, events + [Connect]).links
  {
    hide Next;
    if events != [] {
      ClientsNumbered(capacity, events[..|events| - 1]);
      NextIdStep(Run(capacity, events[..|events| - 1]), events[|events| - 1]);
    }
    assert (events + [Connect])[..|events|] == events;
    ConnectedAs(Run(capacity, events));
  }

  lemma ConnectedAs(s: System)
    ensures s.nextId + 1 in Next(s, Connect).links
  {
  }

  // ---------- safety ----------

  /** One client fits the broadcast under way. */
  ghost predicate InStep(s: System, id: nat)
    requires id in s.links
  {
    var l := s.links[id];
    && l.client.capacity == s.capacity
    && Fifo(l)
    && Before(l, s.number + 1)
    && (s.frame.Some? && id !in s.visited ==> Before(l, s.number))
    && (l.pending.Some? <==> s.serving == Some(id))
    && (l.pending.Some? ==>
          s.frame.Some? && l.pending.value.number == s.number && l.pending.value.frame == s.frame.value && Before(l, s.number))
  }

  /** Safety of the fan-out: the client counter is right, ids are never reused, and every client's
      queue is a bounded queue in broadcast order. */
  ghost predicate Safe(s: System) {
    && s.clientCount == |s.links|
    && (forall id | id in s.links :: id <= s.nextId && InStep(s, id))
    && (s.serving.Some? ==> s.serving.value in s.visited && s.serving.value <= s.nextId && s.frame.Some?)
    && (s.detached.Some? <==> s.serving.Some? && s.serving.value !in s.links)
    && (s.detached.Some? ==> s.detached.value.pending.Some?)
  }

  lemma AddKey(m: map<nat, Link>, k: nat, l: Link)
    requires k !in m
    ensures |m[k := l]| == |m| + 1
  {
    assert m[k := l].Keys == m.Keys + {k};
  }

  lemma SameKeys(m: map<nat, Link>, k: nat, l: Link)
    requires k in m
    ensures |m[k := l]| == |m|
  {
    assert m[k := l].Keys == m.Keys;
  }

  lemma DropKey(m: map<nat, Link>, k: nat)
    requires k in m
    ensures |m - {k}| == |m| - 1
  {
    assert (m - {k}).Keys == m.Keys - {k};
  }

  /** The part of a link that the queue invariants speak of is untouched by a subscription change. */
  lemma SubscriptionKeepsFifo(l: Link, vp: Viewport)
    requires Fifo(l)
    ensures Fifo(l.(client := Subscribe(l.client, vp))) && Fifo(l.(client := Unsubscribe(l.client))) && Fifo(Closed(l))
  {
    hide Fifo;
    SameFifo(l, l.(client := Subscribe(l.client, vp)));
    SameFifo(l, l.(client := Unsubscribe(l.client)));
    SameFifo(l, Closed(l));
  }

  lemma NewLinkFifo(capacity: nat, joined: nat, number: nat)
    ensures Fifo(NewLink(capacity, joined)) && Before(NewLink(capacity, joined), number)
  {
  }

  lemma BeforeMonotone(l: Link, m: nat, n: nat)
    requires m <= n && Before(l, m)
    ensures Before(l, n)
  {
  }

  /** Replacing one link by one that is still in step keeps the server safe. */
  lemma ReplaceLink(s: System, id: nat, l: Link)
    requires Safe(s) && id in s.links && l.client.capacity == s.capacity && Fifo(l)
    requires l.log == s.links[id].log && l.pending == s.links[id].pending
    ensures Safe(With(s, id, l))
  {
    hide Fifo, Before;
    SameKeys(s.links, id, l);
    SameLog(s.links[id], l, s.number + 1);
    SameLog(s.links[id], l, s.number);
    forall k | k in With(s, id, l).links ensures k <= s.nextId && InStep(With(s, id, l), k) {
      assert InStep(s, k);
    }
  }

  lemma ConnectKeepsSafe(s: System)
    requires Safe(s)
    ensures Safe(Next(s, Connect))
  {
    hide Fifo, Before;
    var id := s.nextId + 1;
    AddKey(s.links, id, NewLink(s.capacity, s.number));
    NewLinkFifo(s.capacity, s.number, s.number);
    NewLinkFifo(s.capacity, s.number, s.number + 1);
    forall k | k in Next(s, Connect).links ensures k <= id && InStep(Next(s, Connect), k) {
      if k != id { assert InStep(s, k); }
    }
  }

  lemma DisconnectKeepsSafe(s: System, id: nat)
    requires Safe(s)
    ensures Safe(Next(s, Disconnect(id)))
  {
    hide Fifo, Before;
    if id in s.links {
      DropKey(s.links, id);
      forall k | k in Next(s, Disconnect(id)).links ensures k <= s.nextId && InStep(Next(s, Disconnect(id)), k) {
        assert InStep(s, k);
      }
    }
  }

  lemma BroadcastKeepsSafe(s: System, frame: seq<byte>)
    requires Safe(s)
    ensures Safe(Next(s, Broadcast(frame)))
  {
    hide Fifo, Before;
    var s' := Next(s, Broadcast(frame));
    if s.frame.None? {
      forall k | k in s'.links ensures k <= s.nextId && InStep(s', k) {
        assert InStep(s, k);
        BeforeMonotone(s.links[k], s.number + 1, s.number + 2);
      }
    }
  }

  lemma VisitKeepsSafe(s: System, id: nat)
    requires Safe(s)
    ensures Safe(Next(s, Visit(id)))
  {
    hide Fifo, Before;
    var s' := Next(s, Visit(id));
    if s' != s {
      var l := BeginVisit(s.links[id], s.frame.value, s.number);
      assert InStep(s, id);
      SameFifo(s.links[id], l);
      SameLog(s.links[id], l, s.number);
      BeforeMonotone(l, s.number, s.number + 1);
      SameKeys(s.links, id, l);
      forall k | k in s'.links ensures k <= s.nextId && InStep(s', k) {
        assert InStep(s, k);
      }
    }
  }

  lemma LeaveKeepsSafe(s: System)
    requires Safe(s)
    ensures Safe(Next(s, Leave))
  {
    hide Fifo, Before, EndVisit, EndsProgram;
    var s' := Next(s, Leave);
    if s'.serving != s.serving && s.serving.value in s.links {
      var id := s.serving.value;
      assert InStep(s, id);
      CommitQueue(s.links[id]);
      CommitKeepsFifo(s.links[id]);
      SameKeys(s.links, id, EndVisit(s.links[id]));
      forall k | k in s'.links ensures k <= s.nextId && InStep(s', k) {
        assert InStep(s, k);
      }
    } else {
      forall k | k in s'.links ensures k <= s.nextId && InStep(s', k) {
        assert InStep(s, k);
      }
    }
  }

  lemma CloseKeepsSafe(s: System, id: nat)
    requires Safe(s)
    ensures Safe(Next(s, CloseQueue(id)))
  {
    hide Fifo, Before;
    if id in s.links {
      assert InStep(s, id);
      SubscriptionKeepsFifo(s.links[id], Viewport(0, 0, 0, 0));
      assert s.links[id].client.capacity == s.capacity;
      hide Safe;
      ReplaceLink(s, id, Closed(s.links[id]));
    } else {
      forall k | k in s.links ensures InStep(Next(s, CloseQueue(id)), k) {
        assert InStep(s, k);
      }
    }
  }

  lemma NextKeepsSafe(s: System, e: Event)
    requires Safe(s)
    ensures Safe(Next(s, e))
  {
    hide Fifo, Before, EndVisit, Subscribe, Unsubscribe, Read;
    match e
    case Connect => ConnectKeepsSafe(s);
    case CloseQueue(id) => CloseKeepsSafe(s, id);
    case Disconnect(id) => DisconnectKeepsSafe(s, id);
    case SubscribeTo(id, vp) => ClientEventKeepsSafe(s, e, id, vp);
    case UnsubscribeFrom(id) => ClientEventKeepsSafe(s, e, id, Viewport(0, 0, 0, 0));
    case ReadFrame(id) => ClientEventKeepsSafe(s, e, id, Viewport(0, 0, 0, 0));
    case Broadcast(frame) => BroadcastKeepsSafe(s, frame);
    case Visit(id) => VisitKeepsSafe(s, id);
    case Leave => LeaveKeepsSafe(s);
    case Done => DoneKeepsSafe(s);
  }

  lemma DoneKeepsSafe(s: System)
    requires Safe(s)
    ensures Safe(Next(s, Done))
  {
    hide Fifo, Before;
    forall k | k in s.links ensures k <= s.nextId && InStep(Next(s, Done), k) {
      assert InStep(s, k);
    }
  }

  lemma ClientEventKeepsSafe(s: System, e: Event, id: nat, vp: Viewport)
    requires Safe(s) && (e == SubscribeTo(id, vp) || e == UnsubscribeFrom(id) || e == ReadFrame(id))
    ensures Safe(Next(s, e))
  {
    if id in s.links {
      var l := s.links[id];
      assert InStep(s, id);
      SubscriptionKeepsFifo(l, vp);
      ReadKeepsFifo(l);
      hide Fifo, Before, Safe;
      ReplaceLink(s, id, l.(client := Subscribe(l.client, vp)));
      ReplaceLink(s, id, l.(client := Unsubscribe(l.client)));
      ReplaceLink(s, id, Read(l));
    }
  }

  /** Fan-out safety over all runs. */
  lemma {:induction false} FanoutSafety(capacity: nat, events: seq<Event>)
    ensures Safe(Run(capacity, events))
  {
    if events != [] {
      FanoutSafety(capacity, events[..|events| - 1]);
      hide Next, Safe;
      if !Run(capacity, events[..|events| - 1]).panicked {
        NextKeepsSafe(Run(capacity, events[..|events| - 1]), events[|events| - 1]);
      }
    }
  }

  // ---------- coverage ----------

  /** The last broadcast that has been to a client, or that was before it. */
  function LastVisit(l: Link): nat {
    if l.visits == [] then l.joined else l.visits[|l.visits| - 1].number
  }

  /** The visits of a client are those of one broadcast after the other, from the one under way when it
      joined or the one after. */
  ghost predicate InSeries(l: Link) {
    && (forall i | 0 <= i < |l.visits| :: l.visits[i].number == l.visits[0].number + i)
    && (l.visits != [] ==> l.joined <= l.visits[0].number <= l.joined + 1)
  }

  /** The client has been visited by every broadcast so far, the one under way excepted until it has been to
      the client. A client that joins during a broadcast may still be visited by it. */
  predicate UpToDate(s: System, id: nat)
    requires id in s.links
  {
    var l := s.links[id];
    if s.frame.None? || (id in s.visited && s.serving != Some(id)) then LastVisit(l) == s.number
    else if id in s.begun then LastVisit(l) + 1 == s.number
    else l.visits == [] && l.joined == s.number
  }

  ghost predicate Covered(s: System) {
    && (forall id | id in s.begun :: id <= s.nextId)
    && (forall id | id in s.links :: InSeries(s.links[id]) && UpToDate(s, id))
  }

  lemma SeriesGrows(l: Link, p: Pending)
    requires InSeries(l) && (p.number == LastVisit(l) + 1 || (l.visits == [] && p.number == l.joined))
    ensures InSeries(l.(visits := l.visits + [p]))
  {
  }

  lemma SameSeries(l: Link, l': Link)
    requires InSeries(l) && l'.visits == l.visits && l'.joined == l.joined
    ensures InSeries(l') && LastVisit(l') == LastVisit(l)
  {
  }

  /** A commit adds its own visit to the series. */
  lemma CommitCovers(s: System, id: nat)
    requires Safe(s) && Covered(s) && id in s.links && s.serving == Some(id)
    ensures var l' := EndVisit(s.links[id]); InSeries(l') && LastVisit(l') == s.number
  {
    hide Fifo, Before, InSeries, EndVisit;
    var l := s.links[id];
    assert InStep(s, id) && UpToDate(s, id);
    CommitQueue(l);
    SeriesGrows(l, l.pending.value);
    SameSeries(l.(visits := l.visits + [l.pending.value]), EndVisit(l));
  }

  lemma NextKeepsCovered(s: System, e: Event)
    requires Safe(s) && Covered(s)
    ensures Covered(Next(s, e))
  {
    hide Fifo, Before, InSeries, UpToDate, EndVisit, EndsProgram, Subscribe, Unsubscribe, Read, BeginVisit, Closed;
    var s' := Next(s, e);
    ServingIs(s);
    forall id | id in s'.links
      ensures InSeries(s'.links[id]) && UpToDate(s', id)
    {
      LinkCovered(s, e, id);
    }
  }

  lemma LinkCovered(s: System, e: Event, id: nat)
    requires Safe(s) && Covered(s) && id in Next(s, e).links
    ensures InSeries(Next(s, e).links[id]) && UpToDate(Next(s, e), id)
  {
    ServingIs(s);
    VisitsNext(s, e, id);
    hide Safe, Next, InSeries, LastVisit, EndVisit, NewLink;
    if id !in s.links {
      NewInSeries(s.capacity, s.number);
      JoinsUpToDate(s, id);
    } else if e.Leave? && s.serving == Some(id) && Next(s, e).serving == None {
      CommitCovers(s, id);
      LeaveUpToDate(s, id);
    } else {
      SameSeries(s.links[id], Next(s, e).links[id]);
      StaysUpToDate(s, e, id);
    }
  }

  lemma ServingIs(s: System)
    requires Safe(s)
    ensures s.serving.Some? ==> s.serving.value in s.visited && s.frame.Some?
    ensures forall id | id in s.links :: id <= s.nextId && (s.links[id].pending.Some? <==> s.serving == Some(id))
  {
    hide Fifo, Before;
    forall id | id in s.links
      ensures s.links[id].pending.Some? <==> s.serving == Some(id)
    {
      assert InStep(s, id);
    }
  }

  /** Only the commit of a visit changes the visits of a client. */
  lemma VisitsNext(s: System, e: Event, id: nat)
    requires Safe(s) && id in Next(s, e).links
    ensures id !in s.links ==> e.Connect? && id == s.nextId + 1 && Next(s, e).links[id] == NewLink(s.capacity, s.number)
    ensures id in s.links ==>
              var l, l' := s.links[id], Next(s, e).links[id];
              if e.Leave? && s.serving == Some(id) && Next(s, e).serving == None then l' == EndVisit(l)
              else l'.visits == l.visits && l'.joined == l.joined
  {
    hide Safe, EndVisit, EndsProgram, Subscribe, Unsubscribe;
    ServingIs(s);
  }

  lemma JoinsUpToDate(s: System, id: nat)
    requires Covered(s) && id !in s.links && id == s.nextId + 1 && (s.serving.Some? ==> s.serving.value in s.visited)
    requires id in Next(s, Connect).links && Next(s, Connect).links[id] == NewLink(s.capacity, s.number)
    ensures UpToDate(Next(s, Connect), id)
  {
    assert id !in s.begun;
  }

  lemma LeaveUpToDate(s: System, id: nat)
    requires id in s.links && s.serving == Some(id) && id in s.visited && id in Next(s, Leave).links
    requires Next(s, Leave).serving == None && LastVisit(Next(s, Leave).links[id]) == s.number
    ensures UpToDate(Next(s, Leave), id)
  {
    hide LastVisit, EndVisit, EndsProgram;
  }

  lemma StaysUpToDate(s: System, e: Event, id: nat)
    requires id in s.links && id in Next(s, e).links && UpToDate(s, id)
    requires s.serving.Some? ==> s.serving.value in s.visited && s.frame.Some?
    requires !(e.Leave? && s.serving == Some(id) && Next(s, e).serving == None)
    requires Next(s, e).links[id].visits == s.links[id].visits && Next(s, e).links[id].joined == s.links[id].joined
    ensures UpToDate(Next(s, e), id)
  {
    hide EndVisit, EndsProgram, Subscribe, Unsubscribe, Read, Closed;
  }

  lemma NewInSeries(capacity: nat, joined: nat)
    ensures InSeries(NewLink(capacity, joined))
  {
  }

  /** Over any run every client has been visited by every broadcast since it joined: one after the other,
      and all of them once no broadcast is under way. */
  lemma {:induction false} EveryoneCovered(capacity: nat, events: seq<Event>)
    ensures Covered(Run(capacity, events))
  {
    if events != [] {
      var front := events[..|events| - 1];
      EveryoneCovered(capacity, front);
      FanoutSafety(capacity, front);
      hide Next, Safe, Covered;
      if !Run(capacity, front).panicked {
        NextKeepsCovered(Run(capacity, front), events[|events| - 1]);
      }
    }
  }

  // ---------- the delta theorem ----------

  ghost predicate DeltaAll(s: System, truth: (nat, nat) -> Entity) {
    && (s.frame.Some? ==> GoodFrame(truth, s.frame.value))
    && forall id | id in s.links ::
         && Delta(s.links[id], truth)
         && (s.links[id].pending.Some? ==> GoodFrame(truth, s.links[id].pending.value.frame))
  }

  /** Every frame broadcast in the run has unique ids and records determined by id and sequence. */
  ghost predicate GoodRun(truth: (nat, nat) -> Entity, events: seq<Event>) {
    forall i | 0 <= i < |events| && events[i].Broadcast? :: GoodFrame(truth, events[i].frame)
  }

  lemma LinkStepsKeepDelta(l: Link, truth: (nat, nat) -> Entity, vp: Viewport, frame: seq<byte>, number: nat)
    requires Delta(l, truth)
    ensures Delta(l.(client := Subscribe(l.client, vp)), truth)
    ensures Delta(l.(client := Unsubscribe(l.client)), truth)
    ensures Delta(Read(l), truth)
    ensures l.pending.None? ==> Delta(BeginVisit(l, frame, number), truth)
    ensures l.pending.Some? && GoodFrame(truth, l.pending.value.frame) ==> Delta(EndVisit(l), truth)
    ensures Delta(Closed(l), truth)
  {
    hide ViewOf, EndVisit, SeqOf, GoodFrame;
    forall id: nat
      ensures DeltaAt(l.(client := Subscribe(l.client, vp)), truth, id)
      ensures DeltaAt(l.(client := Unsubscribe(l.client)), truth, id)
      ensures DeltaAt(Read(l), truth, id)
      ensures l.pending.None? ==> DeltaAt(BeginVisit(l, frame, number), truth, id)
      ensures l.pending.Some? && GoodFrame(truth, l.pending.value.frame) ==> DeltaAt(EndVisit(l), truth, id)
      ensures DeltaAt(Closed(l), truth, id)
    {
      assert DeltaAt(l, truth, id);
      if l.pending.Some? && GoodFrame(truth, l.pending.value.frame) {
        CommitKeepsDelta(l, truth, id);
      }
    }
    if l.pending.Some? {
      CommitKeepsPaired(l);
    }
  }

  lemma NewLinkDelta(capacity: nat, joined: nat, truth: (nat, nat) -> Entity)
    ensures Delta(NewLink(capacity, joined), truth)
  {
  }

  lemma NextKeepsDelta(s: System, e: Event, truth: (nat, nat) -> Entity)
    requires Safe(s) && DeltaAll(s, truth)
    requires e.Broadcast? ==> GoodFrame(truth, e.frame)
    ensures DeltaAll(Next(s, e), truth)
  {
    hide Delta, GoodFrame, Fifo, Before, Subscribe, Unsubscribe, Read, NewLink, EndVisit;
    var s' := Next(s, e);
    NewLinkDelta(s.capacity, s.number, truth);
    forall id | id in s'.links
      ensures Delta(s'.links[id], truth)
      ensures s'.links[id].pending.Some? ==> GoodFrame(truth, s'.links[id].pending.value.frame)
    {
      LinkNext(s, e, id);
      if id in s.links {
        assert InStep(s, id);
        var vp := if e.SubscribeTo? then e.viewport else Viewport(0, 0, 0, 0);
        var frame := if s.frame.Some? then s.frame.value else [];
        LinkStepsKeepDelta(s.links[id], truth, vp, frame, s.number);
      }
    }
  }

  /** What an event can do to one link. */
  lemma LinkNext(s: System, e: Event, id: nat)
    requires Safe(s) && id in Next(s, e).links
    ensures var l' := Next(s, e).links[id];
            if id !in s.links then e.Connect? && l' == NewLink(s.capacity, s.number) && l'.pending.None?
            else
              var l := s.links[id];
              || l' == l
              || (e.SubscribeTo? && l' == l.(client := Subscribe(l.client, e.viewport)))
              || l' == l.(client := Unsubscribe(l.client))
              || l' == Closed(l)
              || (l' == Read(l) && l'.pending == l.pending)
              || (s.frame.Some? && l.pending.None? && l' == BeginVisit(l, s.frame.value, s.number))
              || (l.pending.Some? && l' == EndVisit(l) && l'.pending.None?)
  {
    hide Fifo, Before, Subscribe, Unsubscribe, EndsProgram, BeginVisit, Closed, EndVisit;
    if id in s.links {
      assert InStep(s, id);
      if s.links[id].pending.Some? {
        CommitQueue(s.links[id]);
      }
    }
  }

  /** Delta and viewport refinement over all runs. With unique ids in every frame, and records determined by
      id and sequence number, the view that a client builds from its queued frames holds for an id the newest
      record in the broadcasts that have been to it, of those inside the viewport then in force, if and only
      if the id is not stale: its last outgoing record was dropped by a full queue and differs from the one
      the client had. */
  lemma {:induction false} DeltaRefinement(truth: (nat, nat) -> Entity, capacity: nat, events: seq<Event>)
    requires GoodRun(truth, events)
    ensures DeltaAll(Run(capacity, events), truth)
  {
    if events != [] {
      var front, e := events[..|events| - 1], events[|events| - 1];
      assert GoodRun(truth, front);
      DeltaRefinement(truth, capacity, front);
      FanoutSafety(capacity, front);
      hide Next, Safe, DeltaAll;
      if !Run(capacity, front).panicked {
        NextKeepsDelta(Run(capacity, front), e, truth);
      }
    }
  }

  /** Over any run the stale ids are exactly those for which the view does not hold the newest record, and
      with none of them the view is exactly the newest records. */
  lemma NoDropsNoLoss(truth: (nat, nat) -> Entity, capacity: nat, events: seq<Event>, id: nat)
    requires GoodRun(truth, events) && id in Run(capacity, events).links
    ensures var l := Run(capacity, events).links[id];
            && (forall k: nat :: k in l.stale <==> Wrong(ViewOf(l.log), Newest(l), k))
            && (l.stale == {} <==> ViewOf(l.log) == Newest(l))
  {
    DeltaRefinement(truth, capacity, events);
    hide Run, ViewOf, SeqOf, Paired, RecordRight;
    var l := Run(capacity, events).links[id];
    forall k: nat
      ensures k in l.stale <==> Wrong(ViewOf(l.log), Newest(l), k)
      ensures k in ViewOf(l.log) ==> k in Newest(l)
    {
      assert DeltaAt(l, truth, k);
    }
    if l.stale == {} {
      forall k: nat | k in Newest(l)
        ensures k in ViewOf(l.log) && ViewOf(l.log)[k] == Newest(l)[k]
      {
        assert !Wrong(ViewOf(l.log), Newest(l), k);
      }
    }
  }
}
