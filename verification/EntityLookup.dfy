/** Looking records up by id, in frames and in what a client has made of them. */
module EntityLookup {
  import opened BitStrings
  import opened Sequences
  import opened Options
  import opened LittleEndian
  import opened FrameCodec
  import opened EdgeServer

  /** The last record with this id. */
  function Find(es: seq<Entity>, id: nat): Option<Entity> {
    if es == [] then None
    else if IdOf(es[|es| - 1]) == id then Some(es[|es| - 1])
    else Find(es[..|es| - 1], id)
  }

  function Ids(es: seq<Entity>): set<nat> {
    if es == [] then {} else Ids(es[..|es| - 1]) + {IdOf(es[|es| - 1])}
  }

  /** No id occurs twice. */
  predicate Unique(es: seq<Entity>) {
    es == [] || (Unique(es[..|es| - 1]) && Find(es[..|es| - 1], IdOf(es[|es| - 1])).None?)
  }

  /** Records are determined by id and sequence number. */
  predicate Consistent(truth: (nat, nat) -> Entity, es: seq<Entity>) {
    es == [] ||
    (Consistent(truth, es[..|es| - 1]) && es[|es| - 1] == truth(IdOf(es[|es| - 1]), SeqOf(es[|es| - 1])))
  }

  /** Last write wins. */
  function Overlay(view: map<nat, Entity>, es: seq<Entity>): map<nat, Entity> {
    if es == [] then view else Overlay(view, es[..|es| - 1])[IdOf(es[|es| - 1]) := es[|es| - 1]]
  }

  lemma {:induction false} FindIds(es: seq<Entity>, id: nat)
    ensures id in Ids(es) <==> Find(es, id).Some?
  {
    if es != [] {
      FindIds(es[..|es| - 1], id);
    }
  }

  lemma {:induction false} FindOverlay(view: map<nat, Entity>, es: seq<Entity>, id: nat)
    ensures id in Overlay(view, es) <==> id in view || Find(es, id).Some?
    ensures Find(es, id).Some? ==> Overlay(view, es)[id] == Find(es, id).value
    ensures Find(es, id).None? && id in view ==> Overlay(view, es)[id] == view[id]
  {
    hide IdOf;
    if es != [] {
      FindOverlay(view, es[..|es| - 1], id);
    }
  }

  lemma {:induction false} FindRecorded(lastSent: map<nat, nat>, es: seq<Entity>, id: nat)
    ensures id in Recorded(lastSent, es) <==> id in lastSent || Find(es, id).Some?
    ensures Find(es, id).Some? ==> Recorded(lastSent, es)[id] == SeqOf(Find(es, id).value)
    ensures Find(es, id).None? && id in lastSent ==> Recorded(lastSent, es)[id] == lastSent[id]
  {
    hide IdOf, SeqOf;
    if es != [] {
      FindRecorded(lastSent, es[..|es| - 1], id);
    }
  }

  lemma FindAppend(es: seq<Entity>, e: Entity, id: nat)
    ensures Find(es + [e], id) == if IdOf(e) == id then Some(e) else Find(es, id)
    ensures Unique(es + [e]) <==> Unique(es) && Find(es, IdOf(e)).None?
  {
    hide IdOf;
    assert (es + [e])[..|es|] == es;
  }

  lemma {:induction false} FindVisible(vp: Option<Viewport>, es: seq<Entity>, id: nat)
    requires Unique(es)
    ensures Find(Visible(vp, es), id) ==
            if Find(es, id).Some? && InView(vp, Find(es, id).value) then Find(es, id) else None
  {
    hide IdOf, InView;
    if es != [] {
      var front, e := es[..|es| - 1], es[|es| - 1];
      FindVisible(vp, front, id);
      FindAppend(Visible(vp, front), e, id);
      assert Visible(vp, es) == Visible(vp, front) || Visible(vp, es) == Visible(vp, front) + [e];
    }
  }

  lemma {:induction false} UniqueVisible(vp: Option<Viewport>, es: seq<Entity>)
    requires Unique(es)
    ensures Unique(Visible(vp, es))
  {
    hide IdOf, InView;
    if es != [] {
      var front, e := es[..|es| - 1], es[|es| - 1];
      UniqueVisible(vp, front);
      if InView(vp, e) {
        FindVisible(vp, front, IdOf(e));
        FindAppend(Visible(vp, front), e, IdOf(e));
      } else {
        assert Visible(vp, es) == Visible(vp, front);
      }
    }
  }

  lemma {:induction false} FindChanged(lastSent: Option<map<nat, nat>>, es: seq<Entity>, id: nat)
    requires Unique(es)
    ensures Find(Changed(lastSent, es), id) ==
            if Find(es, id).Some? && !Unchanged(lastSent, Find(es, id).value) then Find(es, id) else None
  {
    hide IdOf, Unchanged;
    if es != [] {
      var front, e := es[..|es| - 1], es[|es| - 1];
      FindChanged(lastSent, front, id);
      FindAppend(Changed(lastSent, front), e, id);
      assert Changed(lastSent, es) == Changed(lastSent, front) || Changed(lastSent, es) == Changed(lastSent, front) + [e];
    }
  }

  lemma {:induction false} FindConsistent(truth: (nat, nat) -> Entity, es: seq<Entity>, id: nat)
    requires Consistent(truth, es) && Find(es, id).Some?
    ensures var e := Find(es, id).value;
            IdOf(e) == id && e == truth(id, SeqOf(e))
  {
    hide IdOf, SeqOf;
    if IdOf(es[|es| - 1]) != id {
      FindConsistent(truth, es[..|es| - 1], id);
    }
  }

  /** What goes out for an id: its record in the frame, if that is in view and has changed. */
  lemma FindMatched(vp: Option<Viewport>, lastSent: Option<map<nat, nat>>, es: seq<Entity>, id: nat)
    requires Unique(es)
    ensures Find(Matched(vp, lastSent, es), id) ==
            if Find(Visible(vp, es), id).Some? && !Unchanged(lastSent, Find(Visible(vp, es), id).value)
            then Find(Visible(vp, es), id) else None
  {
    UniqueVisible(vp, es);
    FindChanged(lastSent, Visible(vp, es), id);
  }

  // ---------- frames back from the wire ----------

  lemma CountBound(frame: seq<byte>)
    requires FrameValid(frame)
    ensures Word(frame[6..8]) < 0x1_0000
  {
    WordBound(frame[6..8]);
    Limits();
  }

  lemma {:induction false} JoinAt(es: seq<Entity>, i: nat)
    requires i < |es|
    ensures Join(es)[ENTITY_SIZE * i..ENTITY_SIZE * i + ENTITY_SIZE] == es[i]
  {
    var n := |es| - 1;
    if i < n {
      JoinAt(es[..n], i);
      SlicePrefix(Join(es[..n]), es[n], ENTITY_SIZE * i, ENTITY_SIZE * i + ENTITY_SIZE);
    }
  }

  lemma HeaderPieces(a: seq<byte>, count: seq<byte>, c: seq<byte>, records: seq<byte>)
    requires |a| == 6 && |count| == 2 && |c| == 8
    ensures var s := a + count + c + records;
            s[6..8] == count && s[16..] == records
  {
    var head := a + count + c;
    assert head[6..8] == count;
    SlicePrefix(head, records, 6, 8);
  }

  lemma FilteredHeader(header: seq<byte>, es: seq<Entity>)
    requires |header| == HEADER_SIZE && |es| < 0x1_0000
    ensures var f := FilteredFrame(header, es);
            Word(f[6..8]) == |es| && f[HEADER_SIZE..] == Join(es) && FrameValid(f)
  {
    assert Word(Bytes(|es|, 2)) == |es| by { Limits(); WordOfBytes(|es|, 2); }
    hide Word, Bytes, Join;
    HeaderPieces(header[..6], Bytes(|es|, 2), header[8..], Join(es));
  }

  lemma SliceDrop(s: seq<byte>, k: nat, lo: nat, hi: nat)
    requires lo <= hi && k + hi <= |s|
    ensures s[k..][lo..hi] == s[k + lo..k + hi]
  {
  }

  lemma {:induction false} FilteredEntities(f: seq<byte>, es: seq<Entity>, n: nat)
    requires |f| >= HEADER_SIZE && f[HEADER_SIZE..] == Join(es) && n <= |es|
    ensures FirstEntities(f, n) == es[..n]
  {
    hide Join;
    if n > 0 {
      FilteredEntities(f, es, n - 1);
      JoinAt(es, n - 1);
      SliceDrop(f, HEADER_SIZE, ENTITY_SIZE * (n - 1), ENTITY_SIZE * (n - 1) + ENTITY_SIZE);
      assert es[..n] == es[..n - 1] + [es[n - 1]];
    }
  }

  /** A filtered frame carries exactly the records it was built from. */
  lemma FilteredRoundTrip(header: seq<byte>, es: seq<Entity>)
    requires |header| == HEADER_SIZE && |es| < 0x1_0000
    ensures EntitiesOf(FilteredFrame(header, es)) == es
  {
    hide Word, FilteredFrame, Join;
    FilteredHeader(header, es);
    FilteredEntities(FilteredFrame(header, es), es, |es|);
    assert es[..|es|] == es;
  }

  lemma {:induction false} AllVisible(es: seq<Entity>)
    ensures Matched(None, None, es) == Visible(None, es) == es
  {
    if es != [] {
      var front := es[..|es| - 1];
      AllVisible(front);
      MatchedNext(None, None, front, es[|es| - 1]);
      assert es == front + [es[|es| - 1]];
    }
  }

  /** Filtered or not, what goes out carries the records that are in view and have changed. */
  lemma OutgoingEntities(snap: Snapshot, frame: seq<byte>)
    ensures var due := Matched(snap.viewport, snap.lastSent, EntitiesOf(frame));
            match Outgoing(snap, frame)
            case None => due == []
            case Some(out) => EntitiesOf(out) == due
  {
    if snap == Snapshot(None, None) {
      AllVisible(EntitiesOf(frame));
    } else if FrameValid(frame) {
      CountBound(frame);
      hide FilteredFrame, Matched, FrameValid, EntitiesOf;
      var m := Matched(snap.viewport, snap.lastSent, EntitiesOf(frame));
      EntityCount(frame);
      FilteredRoundTrip(frame[..HEADER_SIZE], m);
    }
  }

  lemma EntityCount(frame: seq<byte>)
    ensures |EntitiesOf(frame)| < 0x1_0000
  {
    if FrameValid(frame) {
      CountBound(frame);
    }
  }
}
