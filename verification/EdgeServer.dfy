/** The edge server's fan-out: per-client viewport and delta filtering of broadcast frames, and the
    bounded queue in front of each client's connection. */
module EdgeServer {
  import opened BitStrings
  import opened Sequences
  import opened Options
  import opened LittleEndian
  import opened FrameCodec

  type Entity = s: seq<byte> | |s| == ENTITY_SIZE witness seq(64, _ => 0)

  // ---------- fields of a record ----------

  function IdOf(e: Entity): nat {
    Word(e[0..4])
  }

  function LatOf(e: Entity): nat {
    Word(e[16..24])
  }

  function LonOf(e: Entity): nat {
    Word(e[24..32])
  }

  function SeqOf(e: Entity): nat {
    Word(e[48..52])
  }

  predicate IsNaN(w: nat) {
    w % 0x8000_0000_0000_0000 > 0x7FF0_0000_0000_0000
  }

  /** Orders 64-bit floating-point words as the numbers they stand for; both zeros come out equal. */
  function Magnitude(w: nat): int {
    if w >= 0x8000_0000_0000_0000 then -(w - 0x8000_0000_0000_0000) else w
  }

  predicate Less(a: nat, b: nat) {
    !IsNaN(a) && !IsNaN(b) && Magnitude(a) < Magnitude(b)
  }

  datatype Viewport = Viewport(minLat: nat, minLon: nat, maxLat: nat, maxLon: nat)

  /** Not outside: a coordinate that is not a number passes. */
  predicate InView(vp: Option<Viewport>, e: Entity) {
    vp.None? ||
    !(Less(LatOf(e), vp.value.minLat) || Less(vp.value.maxLat, LatOf(e))
      || Less(LonOf(e), vp.value.minLon) || Less(vp.value.maxLon, LonOf(e)))
  }

  // ---------- frames ----------

  predicate FrameValid(frame: seq<byte>) {
    |frame| >= HEADER_SIZE && |frame| >= HEADER_SIZE + Word(frame[6..8]) * ENTITY_SIZE
  }

  function EntityAt(frame: seq<byte>, i: nat): Entity
    requires HEADER_SIZE + i * ENTITY_SIZE + ENTITY_SIZE <= |frame|
  {
    frame[HEADER_SIZE + i * ENTITY_SIZE..HEADER_SIZE + i * ENTITY_SIZE + ENTITY_SIZE]
  }

  /** The first n records of a frame. */
  function FirstEntities(frame: seq<byte>, n: nat): (es: seq<Entity>)
    requires HEADER_SIZE + n * ENTITY_SIZE <= |frame|
    ensures |es| == n
  {
    if n == 0 then [] else FirstEntities(frame, n - 1) + [EntityAt(frame, n - 1)]
  }

  /** The records a frame announces; none if it is cut short. */
  function EntitiesOf(frame: seq<byte>): (es: seq<Entity>) {
    if FrameValid(frame) then FirstEntities(frame, Word(frame[6..8])) else []
  }

  function Join(es: seq<Entity>): (s: seq<byte>)
    ensures |s| == ENTITY_SIZE * |es|
  {
    if es == [] then [] else Join(es[..|es| - 1]) + es[|es| - 1]
  }

  /** A frame with the header of another one, except for the entity count. */
  function FilteredFrame(header: seq<byte>, es: seq<Entity>): (s: seq<byte>)
    requires |header| == HEADER_SIZE
    ensures |s| == HEADER_SIZE + ENTITY_SIZE * |es|
  {
    header[..6] + Bytes(|es|, 2) + header[8..] + Join(es)
  }

  method BuildFilteredFrame(header: seq<byte>, es: seq<Entity>) returns (buf: array<byte>)
    requires |header| == HEADER_SIZE
    ensures fresh(buf) && buf[..] == FilteredFrame(header, es)
  {
    hide Bytes;
    buf := new byte[HEADER_SIZE + |es| * ENTITY_SIZE];
    PutFilteredHeader(buf, header, |es|);
    ghost var front := header[..6] + Bytes(|es|, 2) + header[8..];
    for i := 0 to |es|
      invariant buf[..HEADER_SIZE + i * ENTITY_SIZE] == front + Join(es[..i])
    {
      assert es[..i + 1][..i] == es[..i];
      Copy(buf, HEADER_SIZE + i * ENTITY_SIZE, es[i]);
      Regroup(front, Join(es[..i]), es[i]);
    }
    assert es[..|es|] == es;
  }

  method PutFilteredHeader(buf: array<byte>, header: seq<byte>, count: nat)
    requires |header| == HEADER_SIZE <= buf.Length
    modifies buf
    ensures buf[..HEADER_SIZE] == header[..6] + Bytes(count, 2) + header[8..]
  {
    hide Bytes;
    Copy(buf, 0, header);
    ghost var whole := buf[..];
    assert whole[..16] == header;
    Put(buf, 6, count, 2);
    SpliceHeader(buf[..], whole, header, Bytes(count, 2));
  }

  lemma SpliceHeader(now: seq<byte>, was: seq<byte>, header: seq<byte>, word: seq<byte>)
    requires 16 == |header| <= |was| == |now| && |word| == 2
    requires was[..16] == header && now[..8] == was[..6] + word && now[8..] == was[8..]
    ensures now[..16] == header[..6] + word + header[8..]
  {
    assert now[..16] == now[..8] + now[8..][..8];
    assert was[..6] == header[..6] && was[8..][..8] == header[8..];
  }

  // ---------- filtering ----------

  /** The client already has this id with this sequence number, as far as the server knows. */
  predicate Unchanged(lastSent: Option<map<nat, nat>>, e: Entity) {
    lastSent.Some? && IdOf(e) in lastSent.value && lastSent.value[IdOf(e)] == SeqOf(e)
  }

  function Visible(vp: Option<Viewport>, es: seq<Entity>): (v: seq<Entity>)
    ensures |v| <= |es|
  {
    if es == [] then []
    else Visible(vp, es[..|es| - 1]) + if InView(vp, es[|es| - 1]) then [es[|es| - 1]] else []
  }

  function Changed(lastSent: Option<map<nat, nat>>, es: seq<Entity>): (c: seq<Entity>)
    ensures |c| <= |es|
  {
    if es == [] then []
    else Changed(lastSent, es[..|es| - 1]) + if Unchanged(lastSent, es[|es| - 1]) then [] else [es[|es| - 1]]
  }

  function Matched(vp: Option<Viewport>, lastSent: Option<map<nat, nat>>, es: seq<Entity>): (m: seq<Entity>)
    ensures |m| <= |es|
  {
    Changed(lastSent, Visible(vp, es))
  }

  method FilterEntities(frame: seq<byte>, vp: Option<Viewport>, lastSent: Option<map<nat, nat>>) returns (matched: seq<Entity>)
    requires FrameValid(frame)
    ensures matched == Matched(vp, lastSent, EntitiesOf(frame))
  {
    hide InView, Unchanged, Word, EntityAt;
    matched := [];
    var entityCount := Word(frame[6..8]);
    for i := 0 to entityCount
      invariant matched == Matched(vp, lastSent, FirstEntities(frame, i))
    {
      var entity := EntityAt(frame, i);
      MatchedNext(vp, lastSent, FirstEntities(frame, i), entity);
      if !InView(vp, entity) || Unchanged(lastSent, entity) {
        continue;
      }
      matched := matched + [entity];
    }
  }

  lemma MatchedNext(vp: Option<Viewport>, lastSent: Option<map<nat, nat>>, es: seq<Entity>, e: Entity)
    ensures Matched(vp, lastSent, es + [e])
         == if InView(vp, e) && !Unchanged(lastSent, e) then Matched(vp, lastSent, es) + [e] else Matched(vp, lastSent, es)
  {
    hide InView, Unchanged;
    assert (es + [e])[..|es|] == es;
    var v := Visible(vp, es);
    if InView(vp, e) {
      assert (v + [e])[..|v|] == v;
    } else {
      assert Visible(vp, es + [e]) == v;
    }
  }

  /** The delta map after some records have been sent. */
  function Recorded(lastSent: map<nat, nat>, es: seq<Entity>): map<nat, nat> {
    if es == [] then lastSent
    else Recorded(lastSent, es[..|es| - 1])[IdOf(es[|es| - 1]) := SeqOf(es[|es| - 1])]
  }

  // ---------- one client ----------

  /** closed: the read pump has closed the queue, the client itself not having been removed yet. */
  datatype ClientState = ClientState(
    viewport: Option<Viewport>, lastSent: Option<map<nat, nat>>, queue: seq<seq<byte>>, capacity: nat, closed: bool)

  /** What a broadcast reads of a client under its lock. */
  datatype Snapshot = Snapshot(viewport: Option<Viewport>, lastSent: Option<map<nat, nat>>)

  function TakeSnapshot(c: ClientState): Snapshot {
    Snapshot(c.viewport, c.lastSent)
  }

  function Subscribe(c: ClientState, vp: Viewport): ClientState {
    c.(viewport := Some(vp), lastSent := if c.lastSent.None? then Some(map[]) else c.lastSent)
  }

  function Unsubscribe(c: ClientState): ClientState {
    c.(viewport := None, lastSent := None)
  }

  function Close(c: ClientState): ClientState {
    c.(closed := true)
  }

  /** A non-blocking send: a full queue drops the frame, and a closed one ends the program. */
  function Send(c: ClientState, frame: seq<byte>): ClientState {
    if !c.closed && |c.queue| < c.capacity then c.(queue := c.queue + [frame]) else c
  }

  /** The frame a snapshot gives rise to, if any, and the records in it. */
  function Outgoing(snap: Snapshot, frame: seq<byte>): Option<seq<byte>> {
    if snap == Snapshot(None, None) then Some(frame)
    else if !FrameValid(frame) then None
    else
      var m := Matched(snap.viewport, snap.lastSent, EntitiesOf(frame));
      if m == [] then None else Some(FilteredFrame(frame[..HEADER_SIZE], m))
  }

  /** The client after the second half of a broadcast: the delta map is brought up to date, then the
      frame is sent, dropped or not. */
  function Commit(c: ClientState, snap: Snapshot, frame: seq<byte>): ClientState {
    match Outgoing(snap, frame)
    case None => c
    case Some(out) =>
      var recorded :=
        if snap.lastSent.Some? && c.lastSent.Some? then
          c.(lastSent := Some(Recorded(c.lastSent.value, Matched(snap.viewport, snap.lastSent, EntitiesOf(frame)))))
        else c;
      Send(recorded, out)
  }

  /** A commit ends the program if it has a frame to send on a closed queue. */
  predicate Panics(c: ClientState, snap: Snapshot, frame: seq<byte>) {
    c.closed && Outgoing(snap, frame).Some?
  }

  class Client {
    const id: nat
    const capacity: nat
    var viewport: Option<Viewport>
    var lastSent: Option<map<nat, nat>>
    var frameCh: seq<seq<byte>>
    var closed: bool

    constructor (id: nat, capacity: nat)
      ensures this.id == id && State() == ClientState(None, None, [], capacity, false)
    {
      this.id, this.capacity := id, capacity;
      viewport, lastSent, frameCh, closed := None, None, [], false;
    }

    ghost function State(): ClientState
      reads this
    {
      ClientState(viewport, lastSent, frameCh, capacity, closed)
    }

    method OnSubscribe(vp: Viewport)
      modifies this
      ensures State() == Subscribe(old(State()), vp)
    {
      viewport := Some(vp);
      if lastSent.None? {
        lastSent := Some(map[]);
      }
    }

    method OnUnsubscribe()
      modifies this
      ensures State() == Unsubscribe(old(State()))
    {
      viewport, lastSent := None, None;
    }

    method CloseQueue()
      modifies this
      ensures State() == Close(old(State()))
    {
      closed := true;
    }

    /** Returns whether the send ends the program. */
    method TrySend(frame: seq<byte>) returns (panicked: bool)
      modifies this
      ensures panicked == old(closed) && State() == Send(old(State()), frame)
    {
      if closed {
        return true;
      }
      if |frameCh| < capacity {
        frameCh := frameCh + [frame];
      }
      return false;
    }

    method Record(matched: seq<Entity>)
      requires lastSent.Some?
      modifies this
      ensures State() == old(State()).(lastSent := Some(Recorded(old(lastSent).value, matched)))
    {
      for i := 0 to |matched|
        invariant State() == old(State()).(lastSent := Some(Recorded(old(lastSent).value, matched[..i])))
      {
        assert matched[..i + 1][..i] == matched[..i];
        lastSent := Some(lastSent.value[IdOf(matched[i]) := SeqOf(matched[i])]);
      }
      assert matched[..|matched|] == matched;
    }

    /** Everything a broadcast does for this client after its snapshot. */
    method Deliver(snap: Snapshot, frame: seq<byte>) returns (panicked: bool)
      modifies this
      ensures State() == Commit(old(State()), snap, frame)
      ensures panicked == Panics(old(State()), snap, frame)
    {
      hide Matched, EntitiesOf, FrameValid, FilteredFrame, Recorded;
      if snap.viewport == None && snap.lastSent == None {
        panicked := TrySend(frame);
        return;
      }
      if !FrameValid(frame) {
        return false;
      }
      var matched := FilterEntities(frame, snap.viewport, snap.lastSent);
      if |matched| == 0 {
        return false;
      }
      var out := BuildFilteredFrame(HeaderOf(frame), matched);
      if snap.lastSent.Some? && lastSent.Some? {
        Record(matched);
      }
      panicked := TrySend(out[..]);
    }
  }

  function HeaderOf(frame: seq<byte>): (h: seq<byte>)
    requires FrameValid(frame)
    ensures |h| == HEADER_SIZE && |frame| >= HEADER_SIZE && h == frame[..HEADER_SIZE]
  {
    frame[..HEADER_SIZE]
  }

  class Server {
    const maxBufferFrames: nat
    var clients: map<nat, Client>
    var nextID: nat
    var clientCount: int

    constructor (maxBufferFrames: nat)
      ensures Valid() && clients == map[]
    {
      this.maxBufferFrames := maxBufferFrames;
      clients, nextID, clientCount := map[], 0, 0;
    }

    /** Every client is filed under its own id, ids are never reused, and the counter is right. */
    ghost predicate Valid()
      reads this
    {
      && (forall k | k in clients :: clients[k].id == k && k <= nextID)
      && clientCount == |clients|
    }

    ghost function View(): map<nat, ClientState>
      reads this, clients.Values
    {
      map k | k in clients :: clients[k].State()
    }

    method AddClient() returns (client: Client)
      requires Valid()
      modifies this
      ensures Valid() && fresh(client) && client.id !in old(clients)
      ensures clients == old(clients)[client.id := client]
      ensures client.State() == ClientState(None, None, [], maxBufferFrames, false)
    {
      nextID := nextID + 1;
      client := new Client(nextID, maxBufferFrames);
      clients := clients[nextID := client];
      clientCount := clientCount + 1;
    }

    method RemoveClient(id: nat)
      requires Valid() && id in clients
      modifies this
      ensures Valid() && clients == old(clients) - {id}
    {
      assert (clients - {id}).Keys == clients.Keys - {id};
      clients := clients - {id};
      clientCount := clientCount - 1;
    }

    /** One client's turn in a broadcast that nothing interleaves with. */
    method Serve(key: nat, frame: seq<byte>) returns (panicked: bool)
      requires Valid() && key in clients
      modifies clients[key]
      ensures panicked == Panics(old(clients[key].State()), TakeSnapshot(old(clients[key].State())), frame)
      ensures clients[key].State()
           == Commit(old(clients[key].State()), TakeSnapshot(old(clients[key].State())), frame)
    {
      hide Commit, Panics;
      var client := clients[key];
      var snap := Snapshot(client.viewport, client.lastSent);
      panicked := client.Deliver(snap, frame);
    }

    /** A broadcast that nothing interleaves with: it ends the program if and only if some client's queue
        is closed and has a frame coming; otherwise every client is served. */
    method BroadcastFrameFiltered(frame: seq<byte>) returns (panicked: bool)
      requires Valid()
      modifies clients.Values
      ensures panicked <==> exists k :: k in old(View()) && Panics(old(View())[k], TakeSnapshot(old(View())[k]), frame)
      ensures !panicked ==>
        View() == map k | k in old(View()) :: Commit(old(View())[k], TakeSnapshot(old(View())[k]), frame)
    {
      hide Commit, Panics, TakeSnapshot, Client.State;
      ghost var before := View();
      var keys := clients.Keys;
      while keys != {}
        invariant keys <= clients.Keys
        invariant forall k | k in keys :: clients[k].State() == before[k]
        invariant forall k | k in before && k !in keys ::
          && clients[k].State() == Commit(before[k], TakeSnapshot(before[k]), frame)
          && !Panics(before[k], TakeSnapshot(before[k]), frame)
        decreases |keys|
      {
        var key :| key in keys;
        panicked := Serve(key, frame);
        if panicked {
          return;
        }
        keys := keys - {key};
      }
      return false;
    }
  }
}
