/** How far the literal code gets. A producer that holds a segment is granted another only
    inside the first lap, so over a whole run the write index, and with it the number of
    accepted items, is bounded by the ring and the number of producers. */
module RingBounds {
  import opened SegmentRing
  import opened RingBase
  import opened RingClaims
  import opened RingHistory
  import opened Sums

  function Share(P: Producer, trySize: nat): nat {
    if P.Holds() then 0 else trySize
  }

  function Shares(producers: seq<Producer>, trySize: nat): seq<nat> {
    seq(|producers|, p requires 0 <= p < |producers| => Share(producers[p], trySize))
  }

  /** What producers that hold nothing can still be granted. */
  function Room(producers: seq<Producer>, trySize: nat): nat {
    Sum(Shares(producers, trySize))
  }

  lemma RoomUpdate(producers: seq<Producer>, p: nat, P: Producer, trySize: nat)
    requires p < |producers|
    ensures Share(producers[p], trySize) <= Room(producers, trySize)
    ensures Room(producers[p := P], trySize) == Room(producers, trySize) - Share(producers[p], trySize) + Share(P, trySize)
  {
    SumUpdate(Shares(producers, trySize), p, Share(P, trySize));
    assert Shares(producers[p := P], trySize) == Shares(producers, trySize)[p := Share(P, trySize)];
  }

  /** A literal claim by a holder ends inside the first lap, any other uses up room. */
  lemma StepKeepsBound(s: System, step: Step, room: nat, bound: nat)
    requires Base(s) && Enabled(s, step) && Allowed(Literal, s, step)
    requires s.geo.size + room <= bound && Room(s.producers, s.geo.trySize) <= room
    requires s.ring.writeId + Room(s.producers, s.geo.trySize) <= bound
    ensures var t := Apply(s, step);
      t.geo == s.geo && Room(t.producers, t.geo.trySize) <= room &&
      t.ring.writeId + Room(t.producers, t.geo.trySize) <= bound
  {
    if step.ClaimStep? || step.FillStep? {
      var t := Apply(s, step);
      RoomUpdate(s.producers, step.p, t.producers[step.p], s.geo.trySize);
      assert t.producers == s.producers[step.p := t.producers[step.p]];
      assert ProducerOk(s, step.p);
      if step.ClaimStep? && s.producers[step.p].Holds() {
        GuardIn(s, s.ring.readable + {Held(s.producers[step.p])});
      }
    }
  }

  lemma {:induction false} RunKeepsBound(s: System, steps: seq<Step>, room: nat, bound: nat)
    requires Base(s) && Runs(Literal, s, steps)
    requires s.geo.size + room <= bound && Room(s.producers, s.geo.trySize) <= room
    requires s.ring.writeId + Room(s.producers, s.geo.trySize) <= bound
    ensures After(Literal, s, steps).ring.writeId <= bound
    decreases |steps|
  {
    if steps != [] {
      StepKeepsBound(s, steps[0], room, bound);
      StepKeepsBase(s, steps[0]);
      RunKeepsBound(Apply(s, steps[0]), steps[1..], room, bound);
    }
  }

  // ------------------------------------------------------------------ what it means for items

  /** Distinct indices below `n` are at most `n`. */
  lemma {:induction false} DistinctIndicesFit(js: set<nat>, events: seq<Event>, n: nat)
    requires forall j :: j in js ==> j < |events| && 0 <= events[j].index < n
    requires forall j, k :: j in js && k in js && j != k ==> events[j].index != events[k].index
    ensures |js| <= n
    decreases n
  {
    if js != {} {
      if j :| j in js && events[j].index == n - 1 {
        DistinctIndicesFit(js - {j}, events, n - 1);
      } else {
        DistinctIndicesFit(js, events, n - 1);
      }
    }
  }

  function Below(n: nat): (js: set<nat>)
    ensures |js| == n && forall j :: j in js <==> 0 <= j < n
  {
    if n == 0 then {} else Below(n - 1) + {n - 1}
  }

  lemma AcceptedFitBelowWriteId(s: System)
    requires Base(s) && History(s)
    ensures |s.accepted| <= s.ring.writeId
  {
    var js := Below(|s.accepted|);
    forall j | j in js
      ensures s.accepted[j].index < s.ring.writeId
    {
      assert AcceptedOk(s, s.accepted[j]);
    }
    forall j, k | j in js && k in js && j != k
      ensures s.accepted[j].index != s.accepted[k].index
    {
      AcceptedIndicesDiffer(s, if j < k then j else k, if j < k then k else j);
    }
    DistinctIndicesFit(js, s.accepted, s.ring.writeId);
  }

  /** However the threads interleave, the code as written never hands out more than one lap
      and one segment for each producer, and accepts no more items than that. */
  lemma LiteralRunsAreBounded(geo: Geometry, cells: seq<Item>, np: nat, nc: nat, steps: seq<Step>)
    requires geo.Valid() && |cells| == geo.size && Runs(Literal, Initial(geo, cells, np, nc), steps)
    ensures var s := After(Literal, Initial(geo, cells, np, nc), steps);
      |s.accepted| <= s.ring.writeId <= geo.size + np * geo.trySize
  {
    var s0 := Initial(geo, cells, np, nc);
    InitialBase(geo, cells, np, nc);
    InitialHistory(geo, cells, np, nc);
    SumOfEqual(Shares(s0.producers, geo.trySize), geo.trySize);
    RunKeepsBound(s0, steps, np * geo.trySize, geo.size + np * geo.trySize);
    RunKeepsHistory(Literal, s0, steps);
    AcceptedFitBelowWriteId(After(Literal, s0, steps));
  }

  lemma {:induction false} WriteIdGrows(mode: Mode, s: System, steps: seq<Step>)
    requires Runs(mode, s, steps)
    ensures After(mode, s, steps).ring.writeId >= s.ring.writeId && After(mode, s, steps).geo == s.geo
    decreases |steps|
  {
    if steps != [] {
      WriteIdGrows(mode, Apply(s, steps[0]), steps[1..]);
    }
  }

  /** Once the next segment would end at or beyond the ring's size, every claim by a producer
      that holds one is refused, in every continuation. */
  lemma HoldersAreRefusedForGood(s: System, steps: seq<Step>, claim: Step)
    requires Base(s) && s.geo.size <= s.ring.writeId + s.geo.trySize && Runs(Literal, s, steps)
    requires var t := After(Literal, s, steps);
      claim.ClaimStep? && Enabled(t, claim) && Allowed(Literal, t, claim) && t.producers[claim.p].Holds()
    ensures !claim.grant
  {
    WriteIdGrows(Literal, s, steps);
    HolderIsAdmittedOnlyInFirstLap(s, steps, claim);
  }
}
