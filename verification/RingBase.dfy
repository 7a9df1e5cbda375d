/** What every run of the ring keeps, refused claims, retries and later laps included:
    claims tile the index space, a published or taken segment is never still being filled,
    and an item that is accepted but never published belongs to its producer's last segment. */
module RingBase {
  import opened SegmentRing

  /** Granted segments start at even indices, do not overlap, and cover [0, writeId). */
  ghost predicate Tiles(s: System) {
    s.ring.writeId % 2 == 0 &&
    (forall lo :: lo in s.slots ==> lo % 2 == 0 && lo + s.geo.trySize <= s.ring.writeId) &&
    (forall a, b :: a in s.slots && b in s.slots && a < b ==> a + s.geo.trySize <= b) &&
    (forall i :: 0 <= i < s.ring.writeId ==> Covered(s, i))
  }

  ghost predicate Covered(s: System, i: int) {
    exists lo :: lo in s.slots && lo <= i < lo + s.geo.trySize
  }

  /** A producer holds the last segment it was granted. */
  ghost predicate ProducerOk(s: System, p: nat)
    requires p < |s.producers|
  {
    var P := s.producers[p];
    (!P.Holds() ==> P == Producer(0, 0, 0, false) && forall lo :: lo in s.slots ==> s.slots[lo].owner != p) &&
    (P.Holds() ==>
      P.writeId in s.slots && s.slots[P.writeId].owner == p &&
      P.writableId == P.writeId + s.geo.trySize &&
      P.writeId <= P.curWriteId <= P.writableId &&
      (P.published ==> P.curWriteId == P.writableId) &&
      (s.slots[P.writeId].stage.Filling? <==> !P.published) &&
      (forall lo :: lo in s.slots && s.slots[lo].owner == p ==> lo <= P.writeId))
  }

  /** The producer that was granted this segment has filled it and has tried to publish it. */
  ghost predicate Sealed(s: System, lo: nat) {
    lo in s.slots && s.slots[lo].owner < |s.producers| &&
    var P := s.producers[s.slots[lo].owner];
    P.writeId != lo || P.published
  }

  ghost predicate SlotOk(s: System, lo: nat)
    requires lo in s.slots
  {
    s.slots[lo].owner < |s.producers| &&
    (s.slots[lo].stage.Filling? ==>
      s.producers[s.slots[lo].owner].writeId == lo && !s.producers[s.slots[lo].owner].published)
  }

  ghost predicate SegmentOk(s: System, seg: Segment) {
    0 <= seg.lo && seg.lo in s.slots && seg.hi == seg.lo + s.geo.trySize && Sealed(s, seg.lo)
  }

  ghost predicate ConsumerOk(s: System, c: nat)
    requires c < |s.consumers|
  {
    var C := s.consumers[c];
    C.readId <= C.readableId &&
    (C.readId < C.readableId ==>
      var lo := C.readableId - s.geo.trySize;
      0 <= lo <= C.readId && lo in s.slots && Sealed(s, lo))
  }

  ghost predicate Base(s: System) {
    s.geo.Valid() && |s.ring.cells| == s.geo.size && Tiles(s) &&
    (forall p :: 0 <= p < |s.producers| ==> ProducerOk(s, p)) &&
    (forall lo :: lo in s.slots ==> SlotOk(s, lo)) &&
    (forall seg :: seg in s.ring.readable ==> SegmentOk(s, seg)) &&
    (forall c :: 0 <= c < |s.consumers| ==> ConsumerOk(s, c))
  }

  lemma InitialBase(geo: Geometry, cells: seq<Item>, np: nat, nc: nat)
    requires geo.Valid() && |cells| == geo.size
    ensures Base(Initial(geo, cells, np, nc))
  {
  }

  lemma BaseIsTyped(s: System)
    requires Base(s)
    ensures Typed(s)
  {
    forall seg | seg in s.ring.readable
      ensures 0 <= seg.lo && 0 <= seg.hi && seg.lo in s.slots
    {
      assert SegmentOk(s, seg);
    }
    forall c | 0 <= c < |s.consumers| && s.consumers[c].readId < s.consumers[c].readableId
      ensures s.geo.trySize <= s.consumers[c].readableId && s.consumers[c].readableId - s.geo.trySize in s.slots
    {
      assert ConsumerOk(s, c);
    }
  }

  lemma ClaimKeepsTiles(s: System, p: nat, publish: bool, grant: bool)
    requires Base(s) && Enabled(s, ClaimStep(p, publish, grant))
    ensures Tiles(ApplyClaim(s, p, publish, grant))
  {
    var t := ApplyClaim(s, p, publish, grant);
    assert ProducerOk(s, p);
    forall i | 0 <= i < t.ring.writeId
      ensures Covered(t, i)
    {
      if i < s.ring.writeId {
        assert Covered(s, i);
        var lo :| lo in s.slots && lo <= i < lo + s.geo.trySize;
        assert lo in t.slots;
      } else {
        assert s.ring.writeId in t.slots;
      }
    }
  }

  /** Nothing that was granted or sealed is lost by a step. */
  ghost predicate Preserves(s: System, t: System) {
    forall lo :: lo in s.slots ==>
      lo in t.slots && t.slots[lo].owner == s.slots[lo].owner && (Sealed(s, lo) ==> Sealed(t, lo))
  }

  lemma ClaimPreserves(s: System, p: nat, publish: bool, grant: bool)
    requires Base(s) && Enabled(s, ClaimStep(p, publish, grant))
    ensures Preserves(s, ApplyClaim(s, p, publish, grant))
  {
    assert ProducerOk(s, p);
  }

  lemma ClaimKeepsOwnCounters(s: System, p: nat, publish: bool, grant: bool)
    requires s.geo.Valid() && Tiles(s) && Enabled(s, ClaimStep(p, publish, grant)) && ProducerOk(s, p)
    ensures ProducerOk(ApplyClaim(s, p, publish, grant), p)
  {
    var t := ApplyClaim(s, p, publish, grant);
    if grant {
      assert t.slots[s.ring.writeId] == Slot(p, Filling);
    } else {
      assert t.slots == if publish then s.slots[s.producers[p].writeId := Slot(p, Published)] else s.slots;
    }
  }

  lemma ClaimKeepsOtherCounters(s: System, p: nat, publish: bool, grant: bool, q: nat)
    requires s.geo.Valid() && Tiles(s) && Enabled(s, ClaimStep(p, publish, grant)) && q < |s.producers| && q != p
    requires ProducerOk(s, p) && ProducerOk(s, q)
    ensures ProducerOk(ApplyClaim(s, p, publish, grant), q)
  {
    var t := ApplyClaim(s, p, publish, grant);
    assert t.producers[q] == s.producers[q];
    assert forall lo :: lo in t.slots && t.slots[lo].owner == q ==> lo in s.slots && t.slots[lo] == s.slots[lo];
    if s.producers[q].Holds() {
      var lo := s.producers[q].writeId;
      assert lo != s.ring.writeId;
      assert t.slots[lo] == s.slots[lo];
    }
  }

  lemma ClaimKeepsSlots(s: System, p: nat, publish: bool, grant: bool, lo: nat)
    requires Base(s) && Enabled(s, ClaimStep(p, publish, grant))
    requires lo in ApplyClaim(s, p, publish, grant).slots
    ensures SlotOk(ApplyClaim(s, p, publish, grant), lo)
  {
    assert ProducerOk(s, p);
    if lo in s.slots {
      assert SlotOk(s, lo);
      assert lo < s.ring.writeId;
    }
  }

  lemma ClaimKeepsSegments(s: System, p: nat, publish: bool, grant: bool, seg: Segment)
    requires Base(s) && Enabled(s, ClaimStep(p, publish, grant))
    requires seg in ApplyClaim(s, p, publish, grant).ring.readable
    ensures SegmentOk(ApplyClaim(s, p, publish, grant), seg)
  {
    ClaimPreserves(s, p, publish, grant);
    assert ProducerOk(s, p);
    if seg in s.ring.readable {
      assert SegmentOk(s, seg);
    }
  }

  lemma ClaimKeepsConsumers(s: System, p: nat, publish: bool, grant: bool, c: nat)
    requires Base(s) && Enabled(s, ClaimStep(p, publish, grant)) && c < |s.consumers|
    ensures ConsumerOk(ApplyClaim(s, p, publish, grant), c)
  {
    ClaimPreserves(s, p, publish, grant);
    assert ConsumerOk(s, c);
  }

  lemma ClaimKeepsBase(s: System, p: nat, publish: bool, grant: bool)
    requires Base(s) && Enabled(s, ClaimStep(p, publish, grant))
    ensures Base(ApplyClaim(s, p, publish, grant))
  {
    var t := ApplyClaim(s, p, publish, grant);
    ClaimKeepsTiles(s, p, publish, grant);
    assert forall q :: 0 <= q < |t.producers| ==> ProducerOk(t, q) by {
      forall q | 0 <= q < |t.producers|
        ensures ProducerOk(t, q)
      {
        assert ProducerOk(s, p) && ProducerOk(s, q);
        if q == p {
          ClaimKeepsOwnCounters(s, p, publish, grant);
        } else {
          ClaimKeepsOtherCounters(s, p, publish, grant, q);
        }
      }
    }
    assert forall lo :: lo in t.slots ==> SlotOk(t, lo) by {
      forall lo | lo in t.slots
        ensures SlotOk(t, lo)
      {
        ClaimKeepsSlots(s, p, publish, grant, lo);
      }
    }
    assert forall seg :: seg in t.ring.readable ==> SegmentOk(t, seg) by {
      forall seg | seg in t.ring.readable
        ensures SegmentOk(t, seg)
      {
        ClaimKeepsSegments(s, p, publish, grant, seg);
      }
    }
    forall c | 0 <= c < |t.consumers|
      ensures ConsumerOk(t, c)
    {
      ClaimKeepsConsumers(s, p, publish, grant, c);
    }
  }

  lemma FillKeepsCounters(s: System, p: nat, v: Item, q: nat)
    requires Base(s) && Enabled(s, FillStep(p, v)) && q < |s.producers|
    ensures ProducerOk(ApplyFill(s, p, v), q)
  {
    assert ProducerOk(s, p) && ProducerOk(s, q);
  }

  lemma FillKeepsSealed(s: System, p: nat, v: Item, lo: nat)
    requires Enabled(s, FillStep(p, v)) && ProducerOk(s, p) && lo in s.slots && SlotOk(s, lo)
    ensures SlotOk(ApplyFill(s, p, v), lo)
    ensures Sealed(s, lo) ==> Sealed(ApplyFill(s, p, v), lo)
  {
  }

  lemma FillKeepsBase(s: System, p: nat, v: Item)
    requires Base(s) && Enabled(s, FillStep(p, v))
    ensures Base(ApplyFill(s, p, v))
  {
    var t := ApplyFill(s, p, v);
    assert Tiles(t) by {
      forall i | 0 <= i < t.ring.writeId
        ensures Covered(t, i)
      {
        assert Covered(s, i);
      }
    }
    assert forall q :: 0 <= q < |t.producers| ==> ProducerOk(t, q) by {
      forall q | 0 <= q < |t.producers|
        ensures ProducerOk(t, q)
      {
        FillKeepsCounters(s, p, v, q);
      }
    }
    assert forall lo :: lo in t.slots ==> SlotOk(t, lo) && (Sealed(s, lo) ==> Sealed(t, lo)) by {
      forall lo | lo in t.slots
        ensures SlotOk(t, lo) && (Sealed(s, lo) ==> Sealed(t, lo))
      {
        FillKeepsSealed(s, p, v, lo);
      }
    }
    assert forall seg :: seg in t.ring.readable ==> SegmentOk(t, seg) by {
      forall seg | seg in t.ring.readable
        ensures SegmentOk(t, seg)
      {
        assert SegmentOk(s, seg);
      }
    }
    forall c | 0 <= c < |t.consumers|
      ensures ConsumerOk(t, c)
    {
      assert ConsumerOk(s, c);
    }
  }

  /** A step that only moves one sealed segment on, and changes no producer. */
  lemma MovingOneSlotKeepsProducers(s: System, t: System, lo: nat, q: nat)
    requires Base(s) && Sealed(s, lo) && q < |s.producers|
    requires t.geo == s.geo && t.producers == s.producers && t.slots.Keys == s.slots.Keys
    requires t.slots[lo].owner == s.slots[lo].owner && !t.slots[lo].stage.Filling?
    requires forall x :: x in s.slots && x != lo ==> t.slots[x] == s.slots[x]
    ensures ProducerOk(t, q)
  {
    assert ProducerOk(s, q) && ProducerOk(s, s.slots[lo].owner);
    assert forall x :: x in t.slots ==> x in s.slots && t.slots[x].owner == s.slots[x].owner;
  }

  lemma MovingOneSlotKeepsBase(s: System, t: System, lo: nat)
    requires Base(s) && Sealed(s, lo)
    requires t.geo == s.geo && t.producers == s.producers && t.slots.Keys == s.slots.Keys
    requires t.slots[lo].owner == s.slots[lo].owner && !t.slots[lo].stage.Filling?
    requires forall x :: x in s.slots && x != lo ==> t.slots[x] == s.slots[x]
    requires t.ring.cells == s.ring.cells && t.ring.writeId == s.ring.writeId && t.ring.readable <= s.ring.readable
    requires forall c :: 0 <= c < |t.consumers| ==> ConsumerOk(t, c)
    ensures Base(t)
  {
    assert forall x :: x in t.slots <==> x in s.slots;
    assert Tiles(t) by {
      forall i | 0 <= i < t.ring.writeId
        ensures Covered(t, i)
      {
        assert Covered(s, i);
      }
    }
    forall q | 0 <= q < |t.producers|
      ensures ProducerOk(t, q)
    {
      MovingOneSlotKeepsProducers(s, t, lo, q);
    }
    forall x | x in t.slots
      ensures SlotOk(t, x)
    {
      assert SlotOk(s, x);
    }
    forall seg | seg in t.ring.readable
      ensures SegmentOk(t, seg)
    {
      assert SegmentOk(s, seg);
    }
  }

  lemma TakeKeepsBase(s: System, c: nat)
    requires Base(s) && Enabled(s, TakeStep(c))
    ensures Base(ApplyTake(s, c))
  {
    var t := ApplyTake(s, c);
    var lo := Smallest(s.ring.readable).lo;
    assert SegmentOk(s, Smallest(s.ring.readable));
    forall d | 0 <= d < |t.consumers|
      ensures ConsumerOk(t, d)
    {
      assert ConsumerOk(s, d);
    }
    MovingOneSlotKeepsBase(s, t, lo);
  }

  lemma DrainKeepsBase(s: System, c: nat)
    requires Base(s) && Enabled(s, DrainStep(c))
    ensures Base(ApplyDrain(s, c))
  {
    var t := ApplyDrain(s, c);
    assert ConsumerOk(s, c);
    var lo := s.consumers[c].readableId - s.geo.trySize;
    forall d | 0 <= d < |t.consumers|
      ensures ConsumerOk(t, d)
    {
      assert ConsumerOk(s, d);
    }
    assert !s.slots[lo].stage.Filling? by {
      assert SlotOk(s, lo);
    }
    MovingOneSlotKeepsBase(s, t, lo);
  }

  lemma StepKeepsBase(s: System, step: Step)
    requires Base(s) && Enabled(s, step)
    ensures Base(Apply(s, step))
  {
    match step
    case ClaimStep(p, publish, grant) => ClaimKeepsBase(s, p, publish, grant);
    case FillStep(p, v) => FillKeepsBase(s, p, v);
    case TakeStep(c) => TakeKeepsBase(s, c);
    case DrainStep(c) => DrainKeepsBase(s, c);
  }

  lemma {:induction false} RunKeepsBase(mode: Mode, s: System, steps: seq<Step>)
    requires Base(s) && Runs(mode, s, steps)
    ensures Base(After(mode, s, steps)) && Typed(After(mode, s, steps))
    decreases |steps|
  {
    if steps == [] {
      BaseIsTyped(s);
    } else {
      StepKeepsBase(s, steps[0]);
      RunKeepsBase(mode, Apply(s, steps[0]), steps[1..]);
    }
  }
}
