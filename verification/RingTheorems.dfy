/** The delivery theorems of the queue. They hold of `Windowed` runs over any number of laps,
    and of `FirstLap` runs, where the claims are those of the code as written. */
module RingTheorems {
  import opened SegmentRing
  import opened RingBase
  import opened RingHistory
  import opened RingDelivery
  import opened RingOrder

  ghost predicate NoneRefused(s: System) {
    forall p :: 0 <= p < |s.producers| ==> !s.producers[p].published
  }

  ghost predicate Good(mode: Mode, s: System) {
    Safe(s) && Acceptances(s) && Ordered(s) && (mode == FirstLap ==> NoneRefused(s))
  }

  /** A literal claim whose segment still ends inside the first lap is granted, and is a good claim. */
  lemma FirstLapClaimIsGood(s: System, step: Step)
    requires Base(s) && NoneRefused(s) && step.ClaimStep? && Enabled(s, step) && Allowed(FirstLap, s, step)
    ensures step.grant && GoodClaim(s, step.p, step.publish, step.grant)
    ensures NoneRefused(Apply(s, step))
  {
    var t := Apply(s, step);
    forall i | Live(s, i)
      ensures i >= 0
    {
      if p :| HeldIndex(s, p, i) {
      } else if seg :| WaitingIndex(s, seg, i) {
        assert SegmentOk(s, seg);
      } else {
        var c :| RemainingIndex(s, c, i);
      }
    }
    assert forall q :: 0 <= q < |t.producers| && q != step.p ==> t.producers[q] == s.producers[q];
  }

  lemma StepKeepsGood(mode: Mode, s: System, step: Step)
    requires mode != Literal && Good(mode, s) && Enabled(s, step) && Allowed(mode, s, step)
    ensures Good(mode, Apply(s, step))
  {
    if mode == FirstLap && step.ClaimStep? {
      FirstLapClaimIsGood(s, step);
    }
    StepKeepsSafe(s, step);
    StepKeepsHistory(s, step);
    StepKeepsOrdered(s, step);
  }

  lemma {:induction false} RunKeepsGood(mode: Mode, s: System, steps: seq<Step>)
    requires mode != Literal && Good(mode, s) && Runs(mode, s, steps)
    ensures Good(mode, After(mode, s, steps))
    decreases |steps|
  {
    if steps != [] {
      StepKeepsGood(mode, s, steps[0]);
      RunKeepsGood(mode, Apply(s, steps[0]), steps[1..]);
    }
  }

  lemma InitialIsGood(mode: Mode, geo: Geometry, cells: seq<Item>, np: nat, nc: nat)
    requires geo.Valid() && |cells| == geo.size
    ensures Good(mode, Initial(geo, cells, np, nc))
  {
    InitialSafe(geo, cells, np, nc);
  }

  // ------------------------------------------------------------------ at most once, own value

  /** Every delivered item was accepted, carries the value accepted at its index, and no
      index is delivered twice. */
  lemma DeliveredAtMostOnceWithOwnValue(mode: Mode, s0: System, steps: seq<Step>, k: nat)
    requires mode != Literal && Good(mode, s0) && Runs(mode, s0, steps) && k < |After(mode, s0, steps).delivered|
    ensures var s := After(mode, s0, steps);
      (exists a :: 0 <= a < |s.accepted| && s.accepted[a].index == s.delivered[k].index
        && s.accepted[a].value == s.delivered[k].value) &&
      (forall j :: 0 <= j < |s.delivered| && s.delivered[j].index == s.delivered[k].index ==> j == k)
  {
    RunKeepsGood(mode, s0, steps);
    var s := After(mode, s0, steps);
    assert DeliveredOk(s, s.delivered[k]) && WasAccepted(s, s.delivered[k].index);
    var a :| 0 <= a < |s.accepted| && s.accepted[a].index == s.delivered[k].index;
    assert AcceptedOk(s, s.accepted[a]);
  }

  // ------------------------------------------------------------------ live indices and cells

  lemma LiveBelongsToASegment(s: System, i: int) returns (lo: nat)
    requires Base(s) && Ownership(s) && Live(s, i)
    ensures lo in s.slots && lo <= i < lo + s.geo.trySize
    ensures match s.slots[lo].stage
      case Filling => true
      case Published => true
      case Reading(c) => c < |s.consumers| && s.consumers[c].readId <= i
      case Done => false
  {
    if p :| HeldIndex(s, p, i) {
      assert ProducerOk(s, p);
      lo := s.producers[p].writeId;
    } else if seg :| WaitingIndex(s, seg, i) {
      assert SegmentOk(s, seg);
      lo := seg.lo;
    } else {
      var c :| RemainingIndex(s, c, i);
      assert Consumes(s, c) && ConsumerOk(s, c);
      lo := s.consumers[c].readableId - s.geo.trySize;
    }
  }

  lemma LiveIsWithinALap(s: System, i: int)
    requires Base(s) && Ownership(s) && InsideWindow(s) && Live(s, i)
    ensures 0 <= i < s.ring.writeId <= i + s.geo.size
  {
    var lo := LiveBelongsToASegment(s, i);
    assert InWindow(s, lo);
  }

  /** Two live logical indices never share a cell. */
  lemma LiveIndicesHaveDistinctCells(mode: Mode, s0: System, steps: seq<Step>, i: nat, j: nat)
    requires mode != Literal && Good(mode, s0) && Runs(mode, s0, steps)
    requires Live(After(mode, s0, steps), i) && Live(After(mode, s0, steps), j) && i != j
    ensures i % s0.geo.size != j % s0.geo.size
  {
    RunKeepsGood(mode, s0, steps);
    GeometryIsFixed(mode, s0, steps);
    var s := After(mode, s0, steps);
    LiveIsWithinALap(s, i);
    LiveIsWithinALap(s, j);
    CellsAreDistinct(s.geo.size, i, j, s.ring.writeId);
  }

  lemma {:induction false} GeometryIsFixed(mode: Mode, s: System, steps: seq<Step>)
    requires Runs(mode, s, steps)
    ensures After(mode, s, steps).geo == s.geo
    decreases |steps|
  {
    if steps != [] {
      GeometryIsFixed(mode, Apply(s, steps[0]), steps[1..]);
    }
  }

  /** Index `j` of the segment granted next would reuse the cell of live index `i`. */
  ghost predicate Collides(s: System, i: nat, j: nat)
    requires 0 < s.geo.size
  {
    Live(s, i) && s.ring.writeId <= j < s.ring.writeId + s.geo.trySize && i % s.geo.size == j % s.geo.size
  }

  /** The window condition is exactly what a grant needs: inside it the new segment shares
      no cell with a live index, outside it some new index reuses the cell of a live one. */
  lemma WindowIsExact(s: System)
    requires Safe(s)
    ensures Window(s) <==> !exists i: nat, j: nat :: Collides(s, i, j)
  {
    if Window(s) {
      forall i: nat, j: nat | Live(s, i) && s.ring.writeId <= j < s.ring.writeId + s.geo.trySize
        ensures !Collides(s, i, j)
      {
        LiveIsWithinALap(s, i);
        CellsAreDistinct(s.geo.size, i, j, s.ring.writeId + s.geo.trySize);
      }
    } else {
      var i :| Live(s, i) && i < s.ring.writeId + s.geo.trySize - s.geo.size;
      LiveIsWithinALap(s, i);
      NextLapSharesCell(s.geo.size, i);
      assert Collides(s, i, i + s.geo.size);
    }
  }

  // ------------------------------------------------------------------ conservation

  function Pairs(events: seq<Event>): seq<(nat, Item)> {
    seq(|events|, k requires 0 <= k < |events| => (events[k].index, events[k].value))
  }

  /** What is still on its way: each written live index with what its cell holds now. */
  ghost function InFlight(s: System): set<(nat, Item)>
    requires 0 < s.geo.size == |s.ring.cells|
  {
    set i | i in s.written && Live(s, i) :: (i, s.ring.cells[i % s.geo.size])
  }

  lemma AwaitingIsLive(s: System, lo: nat, i: nat)
    requires Base(s) && Ownership(s) && Awaiting(s, lo, i)
    ensures Live(s, i)
  {
    var p := s.slots[lo].owner;
    assert StageOk(s, lo) && SlotOk(s, lo) && ProducerOk(s, p);
    match s.slots[lo].stage
    case Filling => assert HeldIndex(s, p, i);
    case Published => assert WaitingIndex(s, Segment(lo, lo + s.geo.trySize), i);
    case Reading(c) => assert RemainingIndex(s, c, i);
    case Done =>
  }

  lemma LiveMeansAwaiting(s: System, lo: nat, i: nat)
    requires Base(s) && Ownership(s) && lo in s.slots && Live(s, i) && i in s.written
    requires lo <= i < lo + s.geo.trySize && s.slots[lo].owner < |s.producers| && WrittenOk(s, lo, i)
    ensures Awaiting(s, lo, i)
  {
    var home := LiveBelongsToASegment(s, i);
    assert home == lo;
  }

  lemma AwaitingIsUndelivered(s: System, lo: nat, i: nat)
    requires Base(s) && DeliveredOnce(s) && Awaiting(s, lo, i)
    ensures !WasDelivered(s, i)
  {
    forall j | 0 <= j < |s.delivered|
      ensures s.delivered[j].index != i
    {
      DeliveredIsNotAwaiting(s, s.delivered[j], lo, i);
    }
  }

  lemma DeliveredIsNotAwaiting(s: System, e: Event, lo: nat, i: nat)
    requires Tiles(s) && DeliveredOk(s, e) && Awaiting(s, lo, i)
    ensures e.index != i
  {
  }

  /** A written index is in flight exactly until it is delivered, and while it is in flight
      its cell holds what was written. */
  lemma InFlightUntilDelivered(s: System, i: nat)
    requires Safe(s) && i in s.written
    ensures Live(s, i) <==> !WasDelivered(s, i)
    ensures Live(s, i) ==> s.ring.cells[i % s.geo.size] == s.written[i]
  {
    assert Covered(s, i);
    var lo: nat :| lo in s.slots && lo <= i < lo + s.geo.trySize;
    assert WrittenOk(s, lo, i);
    if Live(s, i) {
      LiveMeansAwaiting(s, lo, i);
      AwaitingIsUndelivered(s, lo, i);
    } else if Awaiting(s, lo, i) {
      AwaitingIsLive(s, lo, i);
    }
  }

  lemma {:induction false} CountWithoutRepeats<T>(xs: seq<T>, x: T)
    requires forall j, k :: 0 <= j < k < |xs| ==> xs[j] != xs[k]
    ensures multiset(xs)[x] == if x in xs then 1 else 0
  {
    if xs != [] {
      var last := |xs| - 1;
      CountWithoutRepeats(xs[..last], x);
      assert xs == xs[..last] + [xs[last]];
      assert x in xs <==> x in xs[..last] || x == xs[last];
    }
  }

  lemma AcceptedPair(s: System, x: (nat, Item))
    requires Tiles(s) && History(s)
    ensures x in Pairs(s.accepted) <==> x.0 in s.written && s.written[x.0] == x.1
    ensures forall j, k :: 0 <= j < k < |s.accepted| ==> Pairs(s.accepted)[j] != Pairs(s.accepted)[k]
  {
    if x.0 in s.written && s.written[x.0] == x.1 {
      assert WasAccepted(s, x.0);
      var a :| 0 <= a < |s.accepted| && s.accepted[a].index == x.0;
      assert AcceptedOk(s, s.accepted[a]) && Pairs(s.accepted)[a] == x;
    }
    if x in Pairs(s.accepted) {
      var a :| 0 <= a < |s.accepted| && Pairs(s.accepted)[a] == x;
      assert AcceptedOk(s, s.accepted[a]);
    }
    forall j, k | 0 <= j < k < |s.accepted|
      ensures Pairs(s.accepted)[j] != Pairs(s.accepted)[k]
    {
      AcceptedIndicesDiffer(s, j, k);
    }
  }

  lemma DeliveredPair(s: System, x: (nat, Item))
    requires DeliveredOnce(s)
    ensures x in Pairs(s.delivered) <==> x.0 in s.written && s.written[x.0] == x.1 && WasDelivered(s, x.0)
    ensures forall j, k :: 0 <= j < k < |s.delivered| ==> Pairs(s.delivered)[j] != Pairs(s.delivered)[k]
  {
    if x.0 in s.written && s.written[x.0] == x.1 && WasDelivered(s, x.0) {
      var d :| 0 <= d < |s.delivered| && s.delivered[d].index == x.0;
      assert DeliveredOk(s, s.delivered[d]) && Pairs(s.delivered)[d] == x;
    }
    if x in Pairs(s.delivered) {
      var d :| 0 <= d < |s.delivered| && Pairs(s.delivered)[d] == x;
      assert DeliveredOk(s, s.delivered[d]);
    }
  }

  lemma InFlightPair(s: System, x: (nat, Item))
    requires Safe(s)
    ensures x in InFlight(s) <==> x.0 in s.written && s.written[x.0] == x.1 && !WasDelivered(s, x.0)
  {
    if x.0 in s.written {
      InFlightUntilDelivered(s, x.0);
    }
    if x.0 in s.written && Live(s, x.0) {
      assert (x.0, s.ring.cells[x.0 % s.geo.size]) in InFlight(s);
    }
  }

  /** Exactly-once conservation: under any interleaving, what was accepted is what was
      delivered plus what the cells of unpublished, published and half-drained segments
      hold, counted with multiplicity. */
  lemma Conservation(mode: Mode, s0: System, steps: seq<Step>)
    requires mode != Literal && Good(mode, s0) && Runs(mode, s0, steps)
    ensures var s := After(mode, s0, steps);
      0 < s.geo.size == |s.ring.cells| &&
      multiset(Pairs(s.accepted)) == multiset(Pairs(s.delivered)) + multiset(InFlight(s))
  {
    RunKeepsGood(mode, s0, steps);
    var s := After(mode, s0, steps);
    forall x: (nat, Item)
      ensures multiset(Pairs(s.accepted))[x] == (multiset(Pairs(s.delivered)) + multiset(InFlight(s)))[x]
    {
      ConservationOf(s, x);
    }
  }

  lemma ConservationOf(s: System, x: (nat, Item))
    requires Safe(s) && History(s)
    ensures multiset(Pairs(s.accepted))[x] == multiset(Pairs(s.delivered))[x] + multiset(InFlight(s))[x]
  {
    AcceptedPair(s, x);
    DeliveredPair(s, x);
    InFlightPair(s, x);
    CountWithoutRepeats(Pairs(s.accepted), x);
    CountWithoutRepeats(Pairs(s.delivered), x);
  }

  // ------------------------------------------------------------------ order

  /** The items of one producer that one consumer receives arrive in the order they were accepted. */
  lemma PerProducerOrder(mode: Mode, s0: System, steps: seq<Step>, j: nat, k: nat, a: nat, b: nat)
    requires mode != Literal && Good(mode, s0) && Runs(mode, s0, steps)
    requires var s := After(mode, s0, steps);
      j < k < |s.delivered| && s.delivered[j].thread == s.delivered[k].thread &&
      a < |s.accepted| && b < |s.accepted| && s.accepted[a].thread == s.accepted[b].thread &&
      s.accepted[a].index == s.delivered[j].index && s.accepted[b].index == s.delivered[k].index
    ensures a < b
  {
    RunKeepsGood(mode, s0, steps);
    var s := After(mode, s0, steps);
    OnOneLine(s, j, k, a, b);
    EarlierAccepted(s, a, b);
  }

  /** Deliveries of items that one producer had accepted, to one consumer. */
  lemma OnOneLine(s: System, j: nat, k: nat, a: nat, b: nat)
    requires Tiles(s) && Acceptances(s) && DeliveredOnce(s) && DeliveredInOrder(s)
    requires j < k < |s.delivered| && s.delivered[j].thread == s.delivered[k].thread
    requires a < |s.accepted| && b < |s.accepted| && s.accepted[a].thread == s.accepted[b].thread
    requires s.accepted[a].index == s.delivered[j].index && s.accepted[b].index == s.delivered[k].index
    ensures s.accepted[a].index < s.accepted[b].index
  {
    assert AcceptedOk(s, s.accepted[a]) && AcceptedOk(s, s.accepted[b]);
    assert DeliveredOk(s, s.delivered[j]) && DeliveredOk(s, s.delivered[k]);
    SameIndexSameSegment(s, s.accepted[a], s.delivered[j]);
    SameIndexSameSegment(s, s.accepted[b], s.delivered[k]);
    assert SameLine(s, s.delivered[j], s.delivered[k]);
  }

  lemma EarlierAccepted(s: System, a: nat, b: nat)
    requires Acceptances(s) && a < |s.accepted| && b < |s.accepted| && s.accepted[a].thread == s.accepted[b].thread
    requires s.accepted[a].index < s.accepted[b].index
    ensures a < b
  {
  }

  lemma SameIndexSameSegment(s: System, e: Event, f: Event)
    requires Tiles(s) && AcceptedOk(s, e) && DeliveredOk(s, f) && e.index == f.index
    ensures e.segment == f.segment
  {
  }

  lemma {:induction false} RunKeepsSequential(mode: Mode, s: System, steps: seq<Step>)
    requires mode != Literal && Good(mode, s) && Sequential(s) && Runs(mode, s, steps)
    ensures Good(mode, After(mode, s, steps)) && Sequential(After(mode, s, steps))
    decreases |steps|
  {
    if steps != [] {
      if mode == FirstLap && steps[0].ClaimStep? {
        FirstLapClaimIsGood(s, steps[0]);
      }
      StepKeepsSequential(s, steps[0]);
      StepKeepsGood(mode, s, steps[0]);
      RunKeepsSequential(mode, Apply(s, steps[0]), steps[1..]);
    }
  }

  /** With one producer and one consumer the queue is a FIFO: what has been delivered is a
      prefix of what has been accepted. */
  lemma SingleProducerSingleConsumerIsFifo(mode: Mode, geo: Geometry, cells: seq<Item>, steps: seq<Step>)
    requires mode != Literal && geo.Valid() && |cells| == geo.size && Runs(mode, Initial(geo, cells, 1, 1), steps)
    ensures var s := After(mode, Initial(geo, cells, 1, 1), steps); Pairs(s.delivered) <= Pairs(s.accepted)
  {
    InitialIsGood(mode, geo, cells, 1, 1);
    RunKeepsSequential(mode, Initial(geo, cells, 1, 1), steps);
    var s := After(mode, Initial(geo, cells, 1, 1), steps);
    SequentialIsFifo(s);
  }

  lemma SequentialIsFifo(s: System)
    requires History(s) && DeliveredOnce(s) && Sequential(s)
    ensures Pairs(s.delivered) <= Pairs(s.accepted)
  {
    forall k | 0 <= k < |s.delivered|
      ensures k < |s.accepted| && Pairs(s.accepted)[k] == Pairs(s.delivered)[k]
    {
      SequentialDelivery(s, k);
    }
    assert |s.delivered| <= |s.accepted| by {
      if s.delivered != [] {
        SequentialDelivery(s, |s.delivered| - 1);
      }
    }
    assert Pairs(s.delivered) == Pairs(s.accepted)[..|s.delivered|];
  }

  lemma SequentialDelivery(s: System, k: nat)
    requires History(s) && DeliveredOnce(s) && Sequential(s) && k < |s.delivered|
    ensures k < |s.accepted| && Pairs(s.accepted)[k] == Pairs(s.delivered)[k]
  {
    assert DeliveredOk(s, s.delivered[k]) && WasAccepted(s, k);
    var a :| 0 <= a < |s.accepted| && s.accepted[a].index == k;
    assert AcceptedOk(s, s.accepted[a]);
  }
}
