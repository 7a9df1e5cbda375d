/** Delivery over any number of laps. If a segment is published once and a new one is granted
    only inside the window, then a segment is in one place at a time, live indices never share
    a cell, and every accepted item is delivered at most once and with its own value. */
module RingDelivery {
  import opened SegmentRing
  import opened RingBase
  import opened RingHistory
  import opened Sums

  lemma SameCellIsALapAway(size: nat, i: nat, j: nat)
    requires 0 < size && i < j && i % size == j % size
    ensures i + size <= j
  {
    MultiplesAreSpaced(i / size, j / size, size);
    MultiplesAreSpaced(j / size, i / size, size);
  }

  lemma NextLapSharesCell(size: nat, i: nat)
    requires 0 < size
    ensures (i + size) % size == i % size
  {
    MultiplesAreSpaced((i + size) / size, i / size + 1, size);
    MultiplesAreSpaced(i / size + 1, (i + size) / size, size);
  }

  // ------------------------------------------------------------------ where a segment is

  /** The stage recorded for a segment is where the segment really is. */
  ghost predicate StageOk(s: System, lo: nat)
    requires lo in s.slots
  {
    match s.slots[lo].stage
    case Filling => true
    case Published => Segment(lo, lo + s.geo.trySize) in s.ring.readable
    case Reading(c) =>
      c < |s.consumers| && lo <= s.consumers[c].readId < s.consumers[c].readableId == lo + s.geo.trySize
    case Done => true
  }

  ghost predicate Consumes(s: System, c: nat)
    requires c < |s.consumers|
  {
    s.consumers[c].readId < s.consumers[c].readableId ==>
      var lo := s.consumers[c].readableId - s.geo.trySize;
      lo in s.slots && s.slots[lo].stage == Reading(c)
  }

  ghost predicate Ownership(s: System) {
    (forall lo :: lo in s.slots ==> StageOk(s, lo)) &&
    (forall seg :: seg in s.ring.readable ==> seg.lo in s.slots && s.slots[seg.lo].stage.Published?) &&
    (forall c :: 0 <= c < |s.consumers| ==> Consumes(s, c))
  }

  /** What is left of a segment lies within one lap of the write index. */
  ghost predicate InWindow(s: System, lo: nat)
    requires lo in s.slots
  {
    match s.slots[lo].stage
    case Filling => s.ring.writeId <= lo + s.geo.size
    case Published => s.ring.writeId <= lo + s.geo.size
    case Reading(c) => c < |s.consumers| ==> s.ring.writeId <= s.consumers[c].readId + s.geo.size
    case Done => true
  }

  ghost predicate InsideWindow(s: System) {
    forall lo :: lo in s.slots ==> InWindow(s, lo)
  }

  // ------------------------------------------------------------------ what the cells hold

  /** Index `i` of segment `lo` is written and not yet delivered. */
  ghost predicate Awaiting(s: System, lo: nat, i: nat) {
    lo in s.slots && s.slots[lo].owner < |s.producers| && Filled(s, lo, i) &&
    match s.slots[lo].stage
    case Filling => true
    case Published => true
    case Reading(c) => c < |s.consumers| && s.consumers[c].readId <= i
    case Done => false
  }

  ghost predicate Contents(s: System) {
    0 < s.geo.size == |s.ring.cells| &&
    forall lo: nat, i: nat :: Awaiting(s, lo, i) ==> i in s.written && s.ring.cells[i % s.geo.size] == s.written[i]
  }

  ghost predicate WasDelivered(s: System, i: nat) {
    exists j :: 0 <= j < |s.delivered| && s.delivered[j].index == i
  }

  ghost predicate DeliveredOk(s: System, e: Event) {
    e.segment in s.slots && e.segment <= e.index < e.segment + s.geo.trySize && s.slots[e.segment].Taken() &&
    (s.slots[e.segment].stage.Reading? ==>
      e.thread == s.slots[e.segment].stage.consumer < |s.consumers| && e.index < s.consumers[e.thread].readId) &&
    e.index in s.written && s.written[e.index] == e.value
  }

  ghost predicate DeliveredOnce(s: System) {
    (forall j :: 0 <= j < |s.delivered| ==> DeliveredOk(s, s.delivered[j])) &&
    (forall j, k :: 0 <= j < k < |s.delivered| ==> s.delivered[j].index != s.delivered[k].index)
  }

  ghost predicate NothingLost(s: System) {
    forall lo: nat, i: nat :: lo in s.slots && lo <= i < lo + s.geo.trySize && i in s.written && !Awaiting(s, lo, i)
      ==> WasDelivered(s, i)
  }

  ghost predicate Delivery(s: System) {
    DeliveredOnce(s) && NothingLost(s)
  }

  ghost predicate Safe(s: System) {
    Base(s) && Writings(s) && Ownership(s) && InsideWindow(s) && Contents(s) && Delivery(s)
  }

  lemma InitialSafe(geo: Geometry, cells: seq<Item>, np: nat, nc: nat)
    requires geo.Valid() && |cells| == geo.size
    ensures Safe(Initial(geo, cells, np, nc)) && History(Initial(geo, cells, np, nc))
  {
    InitialBase(geo, cells, np, nc);
    InitialHistory(geo, cells, np, nc);
  }

  // ------------------------------------------------------------------ claims

  /** The claims of a windowed run. */
  ghost predicate GoodClaim(s: System, p: nat, publish: bool, grant: bool) {
    p < |s.producers| && publish == (s.producers[p].Holds() && !s.producers[p].published) && (grant ==> Window(s))
  }

  lemma ClaimKeepsStage(s: System, p: nat, publish: bool, grant: bool, lo: nat)
    requires Enabled(s, ClaimStep(p, publish, grant)) && lo in s.slots && lo < s.ring.writeId
    requires StageOk(s, lo) && ProducerOk(s, p)
    ensures var t := ApplyClaim(s, p, publish, grant); lo in t.slots && StageOk(t, lo)
  {
  }

  lemma ClaimKeepsReadable(s: System, p: nat, publish: bool, grant: bool, seg: Segment)
    requires Tiles(s) && s.geo.Valid() && Enabled(s, ClaimStep(p, publish, grant)) && ProducerOk(s, p)
    requires seg in ApplyClaim(s, p, publish, grant).ring.readable
    requires seg in s.ring.readable ==> s.slots[seg.lo].stage.Published?
    ensures var t := ApplyClaim(s, p, publish, grant); seg.lo in t.slots && t.slots[seg.lo].stage.Published?
  {
  }

  lemma ClaimKeepsConsumes(s: System, p: nat, publish: bool, grant: bool, c: nat)
    requires Tiles(s) && s.geo.Valid() && Enabled(s, ClaimStep(p, publish, grant)) && ProducerOk(s, p)
    requires GoodClaim(s, p, publish, grant) && c < |s.consumers| && Consumes(s, c)
    ensures Consumes(ApplyClaim(s, p, publish, grant), c)
  {
  }

  lemma ClaimKeepsOwnership(s: System, p: nat, publish: bool, grant: bool)
    requires Base(s) && Ownership(s) && Enabled(s, ClaimStep(p, publish, grant)) && GoodClaim(s, p, publish, grant)
    ensures Ownership(ApplyClaim(s, p, publish, grant))
  {
    var t := ApplyClaim(s, p, publish, grant);
    assert ProducerOk(s, p);
    forall lo | lo in t.slots
      ensures StageOk(t, lo)
    {
      if lo in s.slots {
        ClaimKeepsStage(s, p, publish, grant, lo);
      }
    }
    forall seg | seg in t.ring.readable
      ensures seg.lo in t.slots && t.slots[seg.lo].stage.Published?
    {
      ClaimKeepsReadable(s, p, publish, grant, seg);
    }
    forall c | 0 <= c < |t.consumers|
      ensures Consumes(t, c)
    {
      ClaimKeepsConsumes(s, p, publish, grant, c);
    }
  }

  lemma LiveSegmentsStartInWindow(s: System, lo: nat)
    requires Base(s) && Ownership(s) && Window(s) && lo in s.slots
    ensures match s.slots[lo].stage
      case Filling => s.ring.writeId + s.geo.trySize <= lo + s.geo.size
      case Published => s.ring.writeId + s.geo.trySize <= lo + s.geo.size
      case Reading(c) => c < |s.consumers| && s.ring.writeId + s.geo.trySize <= s.consumers[c].readId + s.geo.size
      case Done => true
  {
    assert StageOk(s, lo) && SlotOk(s, lo) && ProducerOk(s, s.slots[lo].owner);
    match s.slots[lo].stage
    case Filling => assert HeldIndex(s, s.slots[lo].owner, lo); assert Live(s, lo);
    case Published => assert WaitingIndex(s, Segment(lo, lo + s.geo.trySize), lo); assert Live(s, lo);
    case Reading(c) => assert RemainingIndex(s, c, s.consumers[c].readId); assert Live(s, s.consumers[c].readId);
    case Done =>
  }

  lemma ClaimKeepsWindow(s: System, p: nat, publish: bool, grant: bool)
    requires Base(s) && Ownership(s) && InsideWindow(s)
    requires Enabled(s, ClaimStep(p, publish, grant)) && GoodClaim(s, p, publish, grant)
    ensures InsideWindow(ApplyClaim(s, p, publish, grant))
  {
    var t := ApplyClaim(s, p, publish, grant);
    assert ProducerOk(s, p);
    forall lo | lo in t.slots
      ensures InWindow(t, lo)
    {
      if lo in s.slots {
        assert InWindow(s, lo);
        if grant {
          LiveSegmentsStartInWindow(s, lo);
        }
      }
    }
  }

  /** A step that moves segments on without writing or delivering anything. */
  ghost predicate Unmoved(s: System, t: System) {
    t.geo == s.geo && t.ring.cells == s.ring.cells && t.written == s.written && t.delivered == s.delivered &&
    (forall lo: nat, i: nat :: Awaiting(t, lo, i) <==> Awaiting(s, lo, i)) &&
    (forall j :: 0 <= j < |s.delivered| && DeliveredOk(s, s.delivered[j]) ==> DeliveredOk(t, s.delivered[j])) &&
    (forall lo: nat, i: nat :: lo in t.slots && lo <= i < lo + t.geo.trySize && i in t.written ==> lo in s.slots)
  }

  lemma UnmovedKeepsDelivery(s: System, t: System)
    requires Contents(s) && Delivery(s) && Unmoved(s, t)
    ensures Contents(t) && Delivery(t)
  {
    forall lo: nat, i: nat | lo in t.slots && lo <= i < lo + t.geo.trySize && i in t.written && !Awaiting(t, lo, i)
      ensures WasDelivered(t, i)
    {
      assert WasDelivered(s, i);
    }
  }

  lemma ClaimKeepsAwaiting(s: System, p: nat, publish: bool, grant: bool, lo: nat, i: nat)
    requires Base(s) && Enabled(s, ClaimStep(p, publish, grant)) && GoodClaim(s, p, publish, grant)
    ensures Awaiting(ApplyClaim(s, p, publish, grant), lo, i) <==> Awaiting(s, lo, i)
  {
    assert ProducerOk(s, p);
    if lo in s.slots {
      assert SlotOk(s, lo);
      ClaimKeepsFilled(s, p, publish, grant, lo);
    }
  }

  lemma ClaimIsUnmoved(s: System, p: nat, publish: bool, grant: bool)
    requires Base(s) && Writings(s) && Enabled(s, ClaimStep(p, publish, grant)) && GoodClaim(s, p, publish, grant)
    ensures Unmoved(s, ApplyClaim(s, p, publish, grant))
  {
    var t := ApplyClaim(s, p, publish, grant);
    assert ProducerOk(s, p);
    forall lo: nat, i: nat
      ensures Awaiting(t, lo, i) <==> Awaiting(s, lo, i)
    {
      ClaimKeepsAwaiting(s, p, publish, grant, lo, i);
    }
  }

  // ------------------------------------------------------------------ fills

  lemma FillKeepsOwnership(s: System, p: nat, v: Item)
    requires Ownership(s) && InsideWindow(s) && Enabled(s, FillStep(p, v))
    ensures Ownership(ApplyFill(s, p, v)) && InsideWindow(ApplyFill(s, p, v))
  {
    var t := ApplyFill(s, p, v);
    forall lo | lo in t.slots
      ensures StageOk(t, lo) && InWindow(t, lo)
    {
      assert StageOk(s, lo) && InWindow(s, lo);
    }
    forall c | 0 <= c < |t.consumers|
      ensures Consumes(t, c)
    {
      assert Consumes(s, c);
    }
  }

  lemma FillExtendsAwaiting(s: System, p: nat, v: Item, lo: nat, i: nat)
    requires Base(s) && Enabled(s, FillStep(p, v))
    ensures Awaiting(ApplyFill(s, p, v), lo, i) <==>
      Awaiting(s, lo, i) || (lo == s.producers[p].writeId && i == s.producers[p].curWriteId)
  {
    assert ProducerOk(s, p);
    if lo in s.slots {
      assert SlotOk(s, lo);
    }
  }

  lemma AwaitingIsInWindow(s: System, lo: nat, i: nat)
    requires Base(s) && InsideWindow(s) && Awaiting(s, lo, i)
    ensures i < s.ring.writeId <= i + s.geo.size
  {
    assert InWindow(s, lo);
  }

  lemma CellsAreDistinct(size: nat, i: nat, j: nat, end: nat)
    requires 0 < size && i < end <= i + size && j < end <= j + size && i != j
    ensures i % size != j % size
  {
    if i % size == j % size {
      if i < j { SameCellIsALapAway(size, i, j); } else { SameCellIsALapAway(size, j, i); }
    }
  }

  lemma FillKeepsContents(s: System, p: nat, v: Item)
    requires Safe(s) && Enabled(s, FillStep(p, v))
    ensures Contents(ApplyFill(s, p, v))
  {
    var t := ApplyFill(s, p, v);
    var cur := s.producers[p].curWriteId;
    assert ProducerOk(s, p) && InWindow(s, s.producers[p].writeId);
    forall lo: nat, i: nat | Awaiting(t, lo, i)
      ensures i in t.written && t.ring.cells[i % t.geo.size] == t.written[i]
    {
      FillExtendsAwaiting(s, p, v, lo, i);
      if i != cur {
        AwaitingIsInWindow(s, lo, i);
        CellsAreDistinct(s.geo.size, i, cur, s.ring.writeId);
      }
    }
  }

  lemma FillKeepsDelivery(s: System, p: nat, v: Item)
    requires Safe(s) && Enabled(s, FillStep(p, v))
    ensures Delivery(ApplyFill(s, p, v))
  {
    var t := ApplyFill(s, p, v);
    assert ProducerOk(s, p);
    CursorIsUnwritten(s, p);
    forall j | 0 <= j < |t.delivered|
      ensures DeliveredOk(t, t.delivered[j])
    {
      assert DeliveredOk(s, s.delivered[j]);
    }
    forall lo: nat, i: nat | lo in t.slots && lo <= i < lo + t.geo.trySize && i in t.written && !Awaiting(t, lo, i)
      ensures WasDelivered(t, i)
    {
      FillExtendsAwaiting(s, p, v, lo, i);
      assert WasDelivered(s, i);
    }
  }

  // ------------------------------------------------------------------ takes

  lemma TakeKeepsStage(s: System, c: nat, lo: nat)
    requires Enabled(s, TakeStep(c)) && lo in s.slots && SegmentOk(s, Smallest(s.ring.readable))
    requires StageOk(s, lo) && InWindow(s, lo) && s.slots[Smallest(s.ring.readable).lo].stage.Published?
    ensures var t := ApplyTake(s, c); lo in t.slots && StageOk(t, lo) && InWindow(t, lo)
  {
  }

  lemma TakeKeepsConsumes(s: System, c: nat, d: nat)
    requires Enabled(s, TakeStep(c)) && d < |s.consumers| && SegmentOk(s, Smallest(s.ring.readable)) && Consumes(s, d)
    requires s.slots[Smallest(s.ring.readable).lo].stage.Published?
    ensures Consumes(ApplyTake(s, c), d)
  {
  }

  lemma TakeKeepsReadable(s: System, c: nat, seg: Segment)
    requires Enabled(s, TakeStep(c)) && SegmentOk(s, Smallest(s.ring.readable)) && SegmentOk(s, seg)
    requires seg in ApplyTake(s, c).ring.readable && s.slots[seg.lo].stage.Published?
    ensures var t := ApplyTake(s, c); seg.lo in t.slots && t.slots[seg.lo].stage.Published?
  {
  }

  lemma TakeKeepsOwnership(s: System, c: nat)
    requires Base(s) && Ownership(s) && InsideWindow(s) && Enabled(s, TakeStep(c))
    ensures Ownership(ApplyTake(s, c)) && InsideWindow(ApplyTake(s, c))
  {
    var t := ApplyTake(s, c);
    var seg := Smallest(s.ring.readable);
    assert SegmentOk(s, seg) && s.slots[seg.lo].stage.Published?;
    forall lo | lo in t.slots
      ensures StageOk(t, lo) && InWindow(t, lo)
    {
      assert StageOk(s, lo) && InWindow(s, lo);
      TakeKeepsStage(s, c, lo);
    }
    forall other | other in t.ring.readable
      ensures other.lo in t.slots && t.slots[other.lo].stage.Published?
    {
      assert SegmentOk(s, other);
      TakeKeepsReadable(s, c, other);
    }
    forall d | 0 <= d < |t.consumers|
      ensures Consumes(t, d)
    {
      TakeKeepsConsumes(s, c, d);
    }
  }

  lemma TakeIsUnmoved(s: System, c: nat)
    requires Base(s) && Ownership(s) && Enabled(s, TakeStep(c))
    ensures Unmoved(s, ApplyTake(s, c))
  {
    var t := ApplyTake(s, c);
    var seg := Smallest(s.ring.readable);
    assert SegmentOk(s, seg);
    forall lo: nat, i: nat
      ensures Awaiting(t, lo, i) <==> Awaiting(s, lo, i)
    {
      if lo in s.slots {
        assert StageOk(s, lo) && SlotOk(s, lo);
      }
    }
    forall j | 0 <= j < |s.delivered| && DeliveredOk(s, s.delivered[j])
      ensures DeliveredOk(t, s.delivered[j])
    {
      assert StageOk(s, s.delivered[j].segment);
    }
  }

  // ------------------------------------------------------------------ drains

  lemma DrainKeepsStage(s: System, c: nat, lo: nat)
    requires Enabled(s, DrainStep(c)) && lo in s.slots && StageOk(s, lo) && InWindow(s, lo) && Consumes(s, c)
    ensures var t := ApplyDrain(s, c); lo in t.slots && StageOk(t, lo) && InWindow(t, lo)
  {
  }

  lemma DrainKeepsConsumes(s: System, c: nat, d: nat)
    requires Enabled(s, DrainStep(c)) && d < |s.consumers| && Consumes(s, c) && Consumes(s, d)
    ensures Consumes(ApplyDrain(s, c), d)
  {
  }

  lemma DrainKeepsReadable(s: System, c: nat, seg: Segment)
    requires Enabled(s, DrainStep(c)) && Consumes(s, c)
    requires seg.lo in s.slots && s.slots[seg.lo].stage.Published?
    ensures var t := ApplyDrain(s, c); seg.lo in t.slots && t.slots[seg.lo].stage.Published?
  {
  }

  lemma DrainKeepsOwnership(s: System, c: nat)
    requires Base(s) && Ownership(s) && InsideWindow(s) && Enabled(s, DrainStep(c))
    ensures Ownership(ApplyDrain(s, c)) && InsideWindow(ApplyDrain(s, c))
  {
    var t := ApplyDrain(s, c);
    forall lo | lo in t.slots
      ensures StageOk(t, lo) && InWindow(t, lo)
    {
      DrainKeepsStage(s, c, lo);
    }
    forall seg | seg in t.ring.readable
      ensures seg.lo in t.slots && t.slots[seg.lo].stage.Published?
    {
      DrainKeepsReadable(s, c, seg);
    }
    forall d | 0 <= d < |t.consumers|
      ensures Consumes(t, d)
    {
      DrainKeepsConsumes(s, c, d);
    }
  }

  lemma DrainShrinksAwaiting(s: System, c: nat, lo: nat, i: nat)
    requires Enabled(s, DrainStep(c)) && Consumes(s, c) && (lo in s.slots ==> StageOk(s, lo))
    ensures Awaiting(ApplyDrain(s, c), lo, i) <==>
      Awaiting(s, lo, i) && !(lo == s.consumers[c].readableId - s.geo.trySize && i == s.consumers[c].readId)
  {
  }

  lemma HeldIsAwaiting(s: System, c: nat)
    requires s.geo.Valid() && Enabled(s, DrainStep(c)) && Consumes(s, c) && ConsumerOk(s, c)
    requires var lo := s.consumers[c].readableId - s.geo.trySize;
      SlotOk(s, lo) && StageOk(s, lo) && ProducerOk(s, s.slots[lo].owner)
    ensures Awaiting(s, s.consumers[c].readableId - s.geo.trySize, s.consumers[c].readId)
  {
  }

  /** The index a consumer is about to read is written, in a segment whose producer is done. */
  lemma DrainedIsAwaiting(s: System, c: nat)
    requires Base(s) && Ownership(s) && Enabled(s, DrainStep(c))
    ensures Consumes(s, c) && ConsumerOk(s, c)
    ensures Awaiting(s, s.consumers[c].readableId - s.geo.trySize, s.consumers[c].readId)
  {
    assert Consumes(s, c) && ConsumerOk(s, c);
    var lo := s.consumers[c].readableId - s.geo.trySize;
    assert SlotOk(s, lo) && ProducerOk(s, s.slots[lo].owner) && StageOk(s, lo);
    HeldIsAwaiting(s, c);
  }

  lemma DrainKeepsDelivered(s: System, c: nat, e: Event)
    requires Base(s) && Ownership(s) && Enabled(s, DrainStep(c)) && DeliveredOk(s, e)
    ensures DeliveredOk(ApplyDrain(s, c), e)
  {
    assert Consumes(s, c) && StageOk(s, e.segment);
  }

  lemma DrainKeepsContents(s: System, c: nat)
    requires Safe(s) && Enabled(s, DrainStep(c))
    ensures Contents(ApplyDrain(s, c))
  {
    var t := ApplyDrain(s, c);
    assert Consumes(s, c);
    forall lo: nat, i: nat | Awaiting(t, lo, i)
      ensures i in t.written && t.ring.cells[i % t.geo.size] == t.written[i]
    {
      DrainShrinksAwaiting(s, c, lo, i);
    }
  }

  lemma NotYetDelivered(s: System, c: nat, e: Event)
    requires Base(s) && Ownership(s) && Enabled(s, DrainStep(c)) && DeliveredOk(s, e)
    ensures e.index != s.consumers[c].readId
  {
    assert Consumes(s, c) && ConsumerOk(s, c) && StageOk(s, e.segment);
    HeldIsUndelivered(s, c, e);
  }

  lemma HeldIsUndelivered(s: System, c: nat, e: Event)
    requires Tiles(s) && s.geo.Valid() && Enabled(s, DrainStep(c)) && DeliveredOk(s, e)
    requires Consumes(s, c) && ConsumerOk(s, c) && StageOk(s, e.segment)
    ensures e.index != s.consumers[c].readId
  {
    var lo := s.consumers[c].readableId - s.geo.trySize;
    assert e.segment < lo || e.segment == lo || e.segment > lo;
  }

  function Drained(s: System, c: nat): Event
    requires Enabled(s, DrainStep(c))
  {
    var C := s.consumers[c];
    Event(c, C.readableId - s.geo.trySize, C.readId, Load(s.geo, s.ring, C.readId))
  }

  lemma DrainDeliversItsValue(s: System, c: nat)
    requires Contents(s) && Enabled(s, DrainStep(c)) && Consumes(s, c) && ConsumerOk(s, c)
    requires Awaiting(s, Drained(s, c).segment, Drained(s, c).index)
    ensures DeliveredOk(ApplyDrain(s, c), Drained(s, c))
  {
  }

  lemma DrainedEventIsOk(s: System, c: nat)
    requires Base(s) && Ownership(s) && Contents(s) && Enabled(s, DrainStep(c))
    ensures DeliveredOk(ApplyDrain(s, c), Drained(s, c))
  {
    DrainedIsAwaiting(s, c);
    DrainDeliversItsValue(s, c);
  }

  lemma DrainKeepsDeliveredOnce(s: System, c: nat)
    requires DeliveredOnce(s) && Base(s) && Ownership(s) && Enabled(s, DrainStep(c))
    requires DeliveredOk(ApplyDrain(s, c), Drained(s, c))
    ensures DeliveredOnce(ApplyDrain(s, c))
  {
    var t := ApplyDrain(s, c);
    assert t.delivered == s.delivered + [Drained(s, c)];
    forall j | 0 <= j < |s.delivered|
      ensures DeliveredOk(t, s.delivered[j]) && s.delivered[j].index != s.consumers[c].readId
    {
      DrainKeepsDelivered(s, c, s.delivered[j]);
      NotYetDelivered(s, c, s.delivered[j]);
    }
  }

  lemma DrainLosesNothing(s: System, c: nat, lo: nat, i: nat)
    requires NothingLost(s) && Enabled(s, DrainStep(c)) && Consumes(s, c) && lo in s.slots && StageOk(s, lo)
    requires lo <= i < lo + s.geo.trySize && i in s.written && !Awaiting(ApplyDrain(s, c), lo, i)
    ensures WasDelivered(ApplyDrain(s, c), i)
  {
    var t := ApplyDrain(s, c);
    DrainShrinksAwaiting(s, c, lo, i);
    if Awaiting(s, lo, i) {
      assert t.delivered[|s.delivered|].index == i;
    } else {
      assert WasDelivered(s, i);
      var j :| 0 <= j < |s.delivered| && s.delivered[j].index == i;
      assert t.delivered[j].index == i;
    }
  }

  lemma DrainKeepsNothingLost(s: System, c: nat)
    requires NothingLost(s) && Ownership(s) && Enabled(s, DrainStep(c))
    ensures NothingLost(ApplyDrain(s, c))
  {
    var t := ApplyDrain(s, c);
    assert Consumes(s, c);
    forall lo: nat, i: nat | lo in t.slots && lo <= i < lo + t.geo.trySize && i in t.written && !Awaiting(t, lo, i)
      ensures WasDelivered(t, i)
    {
      assert StageOk(s, lo);
      DrainLosesNothing(s, c, lo, i);
    }
  }

  // ------------------------------------------------------------------ runs

  lemma StepKeepsSafe(s: System, step: Step)
    requires Safe(s) && Enabled(s, step)
    requires step.ClaimStep? ==> GoodClaim(s, step.p, step.publish, step.grant)
    ensures Safe(Apply(s, step))
  {
    StepKeepsBase(s, step);
    match step
    case ClaimStep(p, publish, grant) =>
      ClaimIsQuiet(s, p, publish, grant);
      QuietKeepsWritings(s, Apply(s, step));
      ClaimKeepsOwnership(s, p, publish, grant);
      ClaimKeepsWindow(s, p, publish, grant);
      ClaimIsUnmoved(s, p, publish, grant);
      UnmovedKeepsDelivery(s, Apply(s, step));
    case FillStep(p, v) =>
      assert ProducerOk(s, p);
      FillKeepsWritings(s, p, v);
      FillKeepsOwnership(s, p, v);
      FillKeepsContents(s, p, v);
      FillKeepsDelivery(s, p, v);
    case TakeStep(c) =>
      ReadIsQuiet(s, step);
      QuietKeepsWritings(s, Apply(s, step));
      TakeKeepsOwnership(s, c);
      TakeIsUnmoved(s, c);
      UnmovedKeepsDelivery(s, Apply(s, step));
    case DrainStep(c) =>
      ReadIsQuiet(s, step);
      QuietKeepsWritings(s, Apply(s, step));
      DrainKeepsOwnership(s, c);
      DrainKeepsContents(s, c);
      DrainedEventIsOk(s, c);
      DrainKeepsDeliveredOnce(s, c);
      DrainKeepsNothingLost(s, c);
  }
}
