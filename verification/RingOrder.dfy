/** The order in which one consumer receives one producer's items, and the single-producer,
    single-consumer case, where the queue is a FIFO. */
module RingOrder {
  import opened SegmentRing
  import opened RingBase
  import opened RingDelivery

  /** Segments of one producer are taken in the order they were granted. */
  ghost predicate TakenInOrder(s: System) {
    forall a, b :: a in s.slots && b in s.slots && a < b && s.slots[a].owner == s.slots[b].owner && s.slots[b].Taken()
      ==> s.slots[a].Taken()
  }

  ghost predicate SameLine(s: System, e: Event, f: Event) {
    e.segment in s.slots && f.segment in s.slots && e.thread == f.thread &&
    s.slots[e.segment].owner == s.slots[f.segment].owner
  }

  ghost predicate DeliveredInOrder(s: System) {
    forall j, k :: 0 <= j < k < |s.delivered| && SameLine(s, s.delivered[j], s.delivered[k])
      ==> s.delivered[j].index < s.delivered[k].index
  }

  /** Consumer `c` received this item, and `p` was granted its segment. */
  ghost predicate From(s: System, e: Event, c: nat, p: nat) {
    e.thread == c && e.segment in s.slots && s.slots[e.segment].owner == p
  }

  /** What consumer `c` received from the owner of the segment it holds lies below its cursor. */
  ghost predicate Behind(s: System, c: nat)
    requires c < |s.consumers|
  {
    s.consumers[c].readId < s.consumers[c].readableId ==>
      var lo := s.consumers[c].readableId - s.geo.trySize;
      lo in s.slots &&
      forall j :: 0 <= j < |s.delivered| && From(s, s.delivered[j], c, s.slots[lo].owner)
        ==> s.delivered[j].index < s.consumers[c].readId
  }

  ghost predicate Ordered(s: System) {
    TakenInOrder(s) && DeliveredInOrder(s) && forall c :: 0 <= c < |s.consumers| ==> Behind(s, c)
  }

  /** Nothing is taken or delivered, and segments already granted keep their owners. */
  ghost predicate NothingTaken(s: System, t: System) {
    t.geo == s.geo && t.consumers == s.consumers && t.delivered == s.delivered &&
    (forall lo :: lo in s.slots ==>
      lo in t.slots && t.slots[lo].owner == s.slots[lo].owner && (t.slots[lo].Taken() <==> s.slots[lo].Taken())) &&
    (forall lo :: lo in t.slots && lo !in s.slots ==> !t.slots[lo].Taken() && forall a :: a in s.slots ==> a < lo)
  }

  lemma NothingTakenKeepsOrdered(s: System, t: System)
    requires Ordered(s) && DeliveredOnce(s) && NothingTaken(s, t)
    ensures Ordered(t)
  {
    forall j | 0 <= j < |s.delivered|
      ensures s.delivered[j].segment in s.slots
    {
      assert DeliveredOk(s, s.delivered[j]);
    }
    forall c | 0 <= c < |t.consumers|
      ensures Behind(t, c)
    {
      assert Behind(s, c);
    }
  }

  lemma ClaimTakesNothing(s: System, p: nat, publish: bool, grant: bool)
    requires Tiles(s) && s.geo.Valid() && p < |s.producers| && ProducerOk(s, p)
    requires Enabled(s, ClaimStep(p, publish, grant)) && GoodClaim(s, p, publish, grant)
    ensures NothingTaken(s, ApplyClaim(s, p, publish, grant))
  {
  }

  lemma ClaimKeepsOrdered(s: System, p: nat, publish: bool, grant: bool)
    requires Safe(s) && Ordered(s) && Enabled(s, ClaimStep(p, publish, grant)) && GoodClaim(s, p, publish, grant)
    ensures Ordered(ApplyClaim(s, p, publish, grant))
  {
    assert ProducerOk(s, p);
    ClaimTakesNothing(s, p, publish, grant);
    NothingTakenKeepsOrdered(s, ApplyClaim(s, p, publish, grant));
  }

  lemma FillKeepsOrdered(s: System, p: nat, v: Item)
    requires Ordered(s) && DeliveredOnce(s) && Enabled(s, FillStep(p, v))
    ensures Ordered(ApplyFill(s, p, v))
  {
    NothingTakenKeepsOrdered(s, ApplyFill(s, p, v));
  }

  /** The smallest published segment comes after everything already received from its owner. */
  lemma TakenSegmentIsAhead(s: System, seg: Segment, e: Event)
    requires Base(s) && Ownership(s) && TakenInOrder(s) && seg in s.ring.readable && DeliveredOk(s, e)
    requires s.slots[seg.lo].owner == s.slots[e.segment].owner
    ensures e.index < seg.lo
  {
    assert SegmentOk(s, seg);
    assert s.slots[seg.lo].stage.Published?;
  }

  lemma EarlierSegmentsAreTaken(s: System, a: nat)
    requires Base(s) && Ownership(s) && s.ring.readable != {} && a in s.slots
    requires var seg := Smallest(s.ring.readable); a < seg.lo && s.slots[a].owner == s.slots[seg.lo].owner
    ensures s.slots[a].Taken()
  {
    var seg := Smallest(s.ring.readable);
    assert SegmentOk(s, seg);
    var p := s.slots[a].owner;
    assert SlotOk(s, a) && SlotOk(s, seg.lo) && ProducerOk(s, p) && StageOk(s, a);
  }

  lemma TakeKeepsTakenInOrder(s: System, c: nat)
    requires Base(s) && Ownership(s) && TakenInOrder(s) && Enabled(s, TakeStep(c))
    ensures TakenInOrder(ApplyTake(s, c))
  {
    var t := ApplyTake(s, c);
    forall a, b | a in t.slots && b in t.slots && a < b && t.slots[a].owner == t.slots[b].owner && t.slots[b].Taken()
      ensures t.slots[a].Taken()
    {
      if b == Smallest(s.ring.readable).lo {
        EarlierSegmentsAreTaken(s, a);
      }
    }
  }

  lemma TakeKeepsOwners(s: System, c: nat)
    requires Enabled(s, TakeStep(c))
    ensures var t := ApplyTake(s, c);
      t.slots.Keys == s.slots.Keys && forall lo :: lo in s.slots ==> t.slots[lo].owner == s.slots[lo].owner
  {
  }

  /** What was received from the owner of the smallest published segment lies below it. */
  lemma ReceivedLiesBelow(s: System, c: nat, j: nat)
    requires Base(s) && Ownership(s) && DeliveredOnce(s) && TakenInOrder(s) && s.ring.readable != {} && j < |s.delivered|
    requires var lo := Smallest(s.ring.readable).lo; lo in s.slots && From(s, s.delivered[j], c, s.slots[lo].owner)
    ensures s.delivered[j].index < Smallest(s.ring.readable).lo
  {
    assert DeliveredOk(s, s.delivered[j]);
    TakenSegmentIsAhead(s, Smallest(s.ring.readable), s.delivered[j]);
  }

  lemma BehindAfterTake(s: System, c: nat)
    requires Enabled(s, TakeStep(c)) && SegmentOk(s, Smallest(s.ring.readable))
    requires var lo := Smallest(s.ring.readable).lo;
      forall j :: 0 <= j < |s.delivered| && From(s, s.delivered[j], c, s.slots[lo].owner) ==> s.delivered[j].index < lo
    ensures Behind(ApplyTake(s, c), c)
  {
    var t := ApplyTake(s, c);
    TakeKeepsOwners(s, c);
    var p := s.slots[Smallest(s.ring.readable).lo].owner;
    assert forall j :: 0 <= j < |s.delivered| ==> (From(t, s.delivered[j], c, p) <==> From(s, s.delivered[j], c, p));
  }

  lemma TakeStartsAhead(s: System, c: nat)
    requires Base(s) && Ownership(s) && DeliveredOnce(s) && TakenInOrder(s) && Enabled(s, TakeStep(c))
    ensures Behind(ApplyTake(s, c), c)
  {
    var lo := Smallest(s.ring.readable).lo;
    assert SegmentOk(s, Smallest(s.ring.readable));
    forall j | 0 <= j < |s.delivered| && From(s, s.delivered[j], c, s.slots[lo].owner)
      ensures s.delivered[j].index < lo
    {
      ReceivedLiesBelow(s, c, j);
    }
    BehindAfterTake(s, c);
  }

  lemma TakeKeepsOthersBehind(s: System, c: nat, d: nat)
    requires Enabled(s, TakeStep(c)) && d < |s.consumers| && d != c && Behind(s, d)
    ensures Behind(ApplyTake(s, c), d)
  {
    var t := ApplyTake(s, c);
    assert forall a :: a in t.slots ==> a in s.slots && t.slots[a].owner == s.slots[a].owner;
  }

  lemma TakeKeepsOrdered(s: System, c: nat)
    requires Safe(s) && Ordered(s) && Enabled(s, TakeStep(c))
    ensures Ordered(ApplyTake(s, c))
  {
    TakeKeepsTakenInOrder(s, c);
    var t := ApplyTake(s, c);
    forall d | 0 <= d < |t.consumers|
      ensures Behind(t, d)
    {
      assert Behind(s, d);
      if d == c {
        TakeStartsAhead(s, c);
      } else {
        TakeKeepsOthersBehind(s, c, d);
      }
    }
  }

  lemma DrainKeepsTakenInOrder(s: System, c: nat)
    requires TakenInOrder(s) && Enabled(s, DrainStep(c)) && Consumes(s, c)
    ensures TakenInOrder(ApplyDrain(s, c))
  {
    var t := ApplyDrain(s, c);
    assert forall a :: a in t.slots ==> a in s.slots && t.slots[a].owner == s.slots[a].owner;
    assert forall a :: a in t.slots ==> (t.slots[a].Taken() <==> s.slots[a].Taken());
  }

  lemma DrainKeepsBehind(s: System, c: nat, d: nat)
    requires Enabled(s, DrainStep(c)) && Consumes(s, c) && d < |s.consumers| && Behind(s, c) && Behind(s, d)
    ensures Behind(ApplyDrain(s, c), d)
  {
    var t := ApplyDrain(s, c);
    assert forall a :: a in t.slots ==> a in s.slots && t.slots[a].owner == s.slots[a].owner;
    assert t.delivered == s.delivered + [Drained(s, c)];
  }

  lemma DrainKeepsDeliveredInOrder(s: System, c: nat)
    requires Enabled(s, DrainStep(c)) && Consumes(s, c) && Behind(s, c) && DeliveredInOrder(s)
    ensures DeliveredInOrder(ApplyDrain(s, c))
  {
    var t := ApplyDrain(s, c);
    assert t.delivered == s.delivered + [Drained(s, c)];
    forall j, k | 0 <= j < k < |t.delivered| && SameLine(t, t.delivered[j], t.delivered[k])
      ensures t.delivered[j].index < t.delivered[k].index
    {
      assert SameLine(s, t.delivered[j], t.delivered[k]);
      if k == |s.delivered| {
        assert From(s, s.delivered[j], c, s.slots[Drained(s, c).segment].owner);
      }
    }
  }

  lemma DrainKeepsOrdered(s: System, c: nat)
    requires Ownership(s) && Ordered(s) && Enabled(s, DrainStep(c))
    ensures Ordered(ApplyDrain(s, c))
  {
    var t := ApplyDrain(s, c);
    assert Consumes(s, c) && Behind(s, c);
    DrainKeepsTakenInOrder(s, c);
    DrainKeepsDeliveredInOrder(s, c);
    forall d | 0 <= d < |t.consumers|
      ensures Behind(t, d)
    {
      assert Behind(s, d);
      DrainKeepsBehind(s, c, d);
    }
  }

  lemma StepKeepsOrdered(s: System, step: Step)
    requires Safe(s) && Ordered(s) && Enabled(s, step)
    requires step.ClaimStep? ==> GoodClaim(s, step.p, step.publish, step.grant)
    ensures Ordered(Apply(s, step))
  {
    match step
    case ClaimStep(p, publish, grant) => ClaimKeepsOrdered(s, p, publish, grant);
    case FillStep(p, v) => FillKeepsOrdered(s, p, v);
    case TakeStep(c) => TakeKeepsOrdered(s, c);
    case DrainStep(c) => DrainKeepsOrdered(s, c);
  }

  // ------------------------------------------------------------------ one producer, one consumer

  /** With one thread on each side the logs are indexed without gaps. */
  ghost predicate Sequential(s: System) {
    |s.producers| == 1 && |s.consumers| == 1 &&
    s.producers[0].writableId == s.ring.writeId &&
    s.producers[0].curWriteId == |s.accepted| &&
    s.consumers[0].readId == |s.delivered| &&
    (forall lo :: lo in s.slots ==> (s.slots[lo].Taken() <==> lo < s.consumers[0].readableId)) &&
    (s.consumers[0].readableId == 0 || Covers(s, s.consumers[0].readableId)) &&
    (forall j :: 0 <= j < |s.accepted| ==> s.accepted[j].index == j) &&
    (forall j :: 0 <= j < |s.delivered| ==> s.delivered[j].index == j)
  }

  ghost predicate Covers(s: System, end: int) {
    exists lo :: lo in s.slots && lo + s.geo.trySize == end
  }

  lemma SoleProducerOwnsAll(s: System, lo: nat)
    requires Base(s) && Sequential(s) && lo in s.slots
    ensures s.slots[lo].owner == 0
  {
    assert SlotOk(s, lo);
  }

  lemma ClaimKeepsSequential(s: System, p: nat, publish: bool, grant: bool)
    requires Tiles(s) && s.geo.Valid() && Sequential(s) && p == 0 && ProducerOk(s, p) && ConsumerOk(s, 0)
    requires Enabled(s, ClaimStep(p, publish, grant)) && GoodClaim(s, p, publish, grant)
    ensures Sequential(ApplyClaim(s, p, publish, grant))
  {
    var t := ApplyClaim(s, p, publish, grant);
    ClaimTakesNothing(s, p, publish, grant);
    if s.consumers[0].readableId != 0 {
      var lo :| lo in s.slots && lo + s.geo.trySize == s.consumers[0].readableId;
      assert lo in t.slots;
    }
  }

  lemma FillKeepsSequential(s: System, p: nat, v: Item)
    requires Sequential(s) && Enabled(s, FillStep(p, v))
    ensures Sequential(ApplyFill(s, p, v))
  {
    var t := ApplyFill(s, p, v);
    if s.consumers[0].readableId != 0 {
      var lo :| lo in s.slots && lo + s.geo.trySize == s.consumers[0].readableId;
      assert lo in t.slots;
    }
  }

  /** The next segment the sole consumer takes starts where its last one ended. */
  lemma NextTakeIsAdjacent(s: System)
    requires Base(s) && Ownership(s) && Sequential(s) && s.ring.readable != {}
    ensures Smallest(s.ring.readable).lo == s.consumers[0].readableId
  {
    var seg := Smallest(s.ring.readable);
    var end := s.consumers[0].readableId;
    assert SegmentOk(s, seg);
    assert end <= seg.lo;
    assert Covered(s, end);
    var lo :| lo in s.slots && lo <= end < lo + s.geo.trySize;
    assert lo == end by {
      if end != 0 {
        var prev :| prev in s.slots && prev + s.geo.trySize == end;
      }
    }
    SoleProducerOwnsAll(s, lo);
    SoleProducerOwnsAll(s, seg.lo);
    if lo < seg.lo {
      EarlierSegmentsAreTaken(s, lo);
    }
  }

  lemma TakenAfterTake(s: System, c: nat, lo: nat)
    requires Tiles(s) && s.geo.Valid() && Sequential(s) && Enabled(s, TakeStep(c)) && lo in s.slots
    requires SegmentOk(s, Smallest(s.ring.readable)) && Smallest(s.ring.readable).lo == s.consumers[0].readableId
    ensures var t := ApplyTake(s, c); lo in t.slots && (t.slots[lo].Taken() <==> lo < t.consumers[0].readableId)
  {
    var seg := Smallest(s.ring.readable);
    assert lo < seg.lo || lo == seg.lo || seg.lo + s.geo.trySize <= lo;
  }

  lemma TakeKeepsSequential(s: System, c: nat)
    requires Tiles(s) && s.geo.Valid() && Sequential(s) && Enabled(s, TakeStep(c)) && ConsumerOk(s, 0)
    requires SegmentOk(s, Smallest(s.ring.readable)) && Smallest(s.ring.readable).lo == s.consumers[0].readableId
    ensures Sequential(ApplyTake(s, c))
  {
    var t := ApplyTake(s, c);
    var seg := Smallest(s.ring.readable);
    assert seg.lo in t.slots && seg.lo + t.geo.trySize == t.consumers[0].readableId;
    forall lo | lo in t.slots
      ensures t.slots[lo].Taken() <==> lo < t.consumers[0].readableId
    {
      TakenAfterTake(s, c, lo);
    }
  }

  lemma DrainKeepsSequential(s: System, c: nat)
    requires Ownership(s) && Sequential(s) && Enabled(s, DrainStep(c))
    ensures Sequential(ApplyDrain(s, c))
  {
    var t := ApplyDrain(s, c);
    assert Consumes(s, c);
    var lo :| lo in s.slots && lo + s.geo.trySize == s.consumers[0].readableId;
    assert lo in t.slots;
    assert forall a :: a in t.slots ==> a in s.slots && (t.slots[a].Taken() <==> s.slots[a].Taken());
  }

  lemma StepKeepsSequential(s: System, step: Step)
    requires Safe(s) && Sequential(s) && Enabled(s, step)
    requires step.ClaimStep? ==> GoodClaim(s, step.p, step.publish, step.grant)
    ensures Sequential(Apply(s, step))
  {
    match step
    case ClaimStep(p, publish, grant) =>
      assert ProducerOk(s, 0) && ConsumerOk(s, 0);
      ClaimKeepsSequential(s, p, publish, grant);
    case FillStep(p, v) => FillKeepsSequential(s, p, v);
    case TakeStep(c) =>
      assert SegmentOk(s, Smallest(s.ring.readable)) && ConsumerOk(s, 0);
      NextTakeIsAdjacent(s);
      TakeKeepsSequential(s, c);
    case DrainStep(c) => DrainKeepsSequential(s, c);
  }
}
