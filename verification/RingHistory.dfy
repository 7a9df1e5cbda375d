/** What is accepted, in every run: each logical index is written once, by the producer that
    was granted it, and each producer writes its indices in increasing order. */
module RingHistory {
  import opened SegmentRing
  import opened RingBase

  /** The index has been written: its segment is not its owner's current one, or lies below the cursor. */
  ghost predicate Filled(s: System, lo: nat, i: int)
    requires lo in s.slots && s.slots[lo].owner < |s.producers|
  {
    var P := s.producers[s.slots[lo].owner];
    lo <= i < lo + s.geo.trySize && (P.writeId == lo ==> i < P.curWriteId)
  }

  ghost predicate AcceptedOk(s: System, e: Event) {
    e.segment in s.slots && s.slots[e.segment].owner == e.thread && e.thread < |s.producers| &&
    Filled(s, e.segment, e.index) &&
    e.index in s.written && s.written[e.index] == e.value
  }

  ghost predicate WrittenOk(s: System, lo: nat, i: nat)
    requires lo in s.slots && s.slots[lo].owner < |s.producers|
  {
    lo <= i < lo + s.geo.trySize ==> (i in s.written <==> Filled(s, lo, i))
  }

  ghost predicate WasAccepted(s: System, i: nat) {
    exists j :: 0 <= j < |s.accepted| && s.accepted[j].index == i
  }

  /** The map of written values covers exactly the filled indices. */
  ghost predicate Writings(s: System) {
    (forall lo :: lo in s.slots ==> s.slots[lo].owner < |s.producers|) &&
    (forall i :: i in s.written ==> i < s.ring.writeId && WasAccepted(s, i)) &&
    (forall lo, i: nat :: lo in s.slots ==> WrittenOk(s, lo, i))
  }

  /** The log of accepted items agrees with it, in increasing order for each producer. */
  ghost predicate Acceptances(s: System) {
    (forall j :: 0 <= j < |s.accepted| ==> AcceptedOk(s, s.accepted[j])) &&
    (forall j, k :: 0 <= j < k < |s.accepted| && s.accepted[j].thread == s.accepted[k].thread
      ==> s.accepted[j].index < s.accepted[k].index)
  }

  ghost predicate History(s: System) {
    Writings(s) && Acceptances(s)
  }

  lemma InitialHistory(geo: Geometry, cells: seq<Item>, np: nat, nc: nat)
    requires geo.Valid() && |cells| == geo.size
    ensures History(Initial(geo, cells, np, nc))
  {
  }

  /** A step that writes nothing: old segments are as filled as before, new ones are empty. */
  ghost predicate Quiet(s: System, t: System) {
    t.geo == s.geo && t.written == s.written && t.accepted == s.accepted && |t.producers| == |s.producers| &&
    t.ring.writeId >= s.ring.writeId &&
    (forall lo :: lo in s.slots ==> lo in t.slots && t.slots[lo].owner == s.slots[lo].owner < |s.producers|) &&
    (forall lo, i: nat :: lo in s.slots ==> (Filled(t, lo, i) <==> Filled(s, lo, i))) &&
    (forall lo :: lo in t.slots && lo !in s.slots ==> lo >= s.ring.writeId && t.slots[lo].owner < |t.producers|) &&
    (forall lo, i: nat :: lo in t.slots && lo !in s.slots ==> !Filled(t, lo, i))
  }

  lemma QuietKeepsWritings(s: System, t: System)
    requires Writings(s) && Quiet(s, t)
    ensures Writings(t)
  {
    forall i | i in t.written
      ensures i < t.ring.writeId && WasAccepted(t, i)
    {
      assert WasAccepted(s, i);
    }
    forall lo, i: nat | lo in t.slots
      ensures WrittenOk(t, lo, i)
    {
      if lo in s.slots {
        assert WrittenOk(s, lo, i);
      }
    }
  }

  lemma QuietKeepsAcceptances(s: System, t: System)
    requires Acceptances(s) && Quiet(s, t)
    ensures Acceptances(t)
  {
    forall j | 0 <= j < |t.accepted|
      ensures AcceptedOk(t, t.accepted[j])
    {
      assert AcceptedOk(s, s.accepted[j]);
    }
  }

  lemma ClaimKeepsFilled(s: System, p: nat, publish: bool, grant: bool, lo: nat)
    requires Enabled(s, ClaimStep(p, publish, grant)) && lo in s.slots && lo < s.ring.writeId
    requires SlotOk(s, lo) && ProducerOk(s, p)
    ensures var t := ApplyClaim(s, p, publish, grant);
      lo in t.slots && t.slots[lo].owner == s.slots[lo].owner &&
      forall i: nat :: Filled(t, lo, i) <==> Filled(s, lo, i)
  {
  }

  lemma ClaimIsQuiet(s: System, p: nat, publish: bool, grant: bool)
    requires Base(s) && Enabled(s, ClaimStep(p, publish, grant))
    ensures Quiet(s, ApplyClaim(s, p, publish, grant))
  {
    var t := ApplyClaim(s, p, publish, grant);
    assert ProducerOk(s, p);
    forall lo | lo in s.slots
      ensures lo in t.slots && t.slots[lo].owner == s.slots[lo].owner < |s.producers|
      ensures forall i: nat :: Filled(t, lo, i) <==> Filled(s, lo, i)
    {
      assert SlotOk(s, lo);
      ClaimKeepsFilled(s, p, publish, grant, lo);
    }
  }

  lemma ReadIsQuiet(s: System, step: Step)
    requires Base(s) && Enabled(s, step) && (step.TakeStep? || step.DrainStep?)
    ensures Quiet(s, Apply(s, step))
  {
    forall lo | lo in s.slots
      ensures s.slots[lo].owner < |s.producers|
    {
      assert SlotOk(s, lo);
    }
  }

  lemma FillKeepsWritings(s: System, p: nat, v: Item)
    requires Writings(s) && Tiles(s) && s.geo.Valid() && Enabled(s, FillStep(p, v)) && ProducerOk(s, p)
    ensures Writings(ApplyFill(s, p, v))
  {
    var t := ApplyFill(s, p, v);
    var P := s.producers[p];
    assert t.accepted[|s.accepted|].index == P.curWriteId;
    forall i | i in t.written
      ensures i < t.ring.writeId && WasAccepted(t, i)
    {
      if i != P.curWriteId {
        assert WasAccepted(s, i);
        var j :| 0 <= j < |s.accepted| && s.accepted[j].index == i;
        assert t.accepted[j].index == i;
      }
    }
    forall lo, i: nat | lo in t.slots
      ensures WrittenOk(t, lo, i)
    {
      assert WrittenOk(s, lo, i);
    }
  }

  lemma AcceptedLiesBelowCursor(s: System, p: nat, e: Event)
    requires Tiles(s) && p < |s.producers| && ProducerOk(s, p) && AcceptedOk(s, e) && e.thread == p
    ensures s.producers[p].Holds() && e.index < s.producers[p].curWriteId
  {
    assert e.segment <= s.producers[p].writeId;
  }

  lemma FillKeepsAccepted(s: System, p: nat, v: Item, e: Event)
    requires Enabled(s, FillStep(p, v)) && AcceptedOk(s, e) && s.producers[p].curWriteId !in s.written
    ensures AcceptedOk(ApplyFill(s, p, v), e)
  {
  }

  lemma FillIsAccepted(s: System, p: nat, v: Item)
    requires Enabled(s, FillStep(p, v)) && ProducerOk(s, p)
    ensures var t := ApplyFill(s, p, v); t.accepted != [] && AcceptedOk(t, t.accepted[|t.accepted| - 1])
  {
  }

  lemma CursorIsUnwritten(s: System, p: nat)
    requires Writings(s) && p < |s.producers| && ProducerOk(s, p) && s.producers[p].curWriteId < s.producers[p].writableId
    ensures s.producers[p].curWriteId !in s.written
  {
    assert WrittenOk(s, s.producers[p].writeId, s.producers[p].curWriteId);
  }

  ghost predicate BelowCursor(s: System, p: nat, e: Event)
    requires p < |s.producers|
  {
    e.thread == p ==> e.index < s.producers[p].curWriteId
  }

  lemma FillAppends(s: System, p: nat, v: Item)
    requires Acceptances(s) && Enabled(s, FillStep(p, v))
    requires forall j :: 0 <= j < |s.accepted| ==> BelowCursor(s, p, s.accepted[j])
    requires forall j :: 0 <= j < |s.accepted| ==> AcceptedOk(ApplyFill(s, p, v), s.accepted[j])
    requires var t := ApplyFill(s, p, v); t.accepted != [] && AcceptedOk(t, t.accepted[|t.accepted| - 1])
    ensures Acceptances(ApplyFill(s, p, v))
  {
    var t := ApplyFill(s, p, v);
    var last := t.accepted[|s.accepted|];
    assert t.accepted == s.accepted + [last];
    forall j, k | 0 <= j < k < |t.accepted| && t.accepted[j].thread == t.accepted[k].thread
      ensures t.accepted[j].index < t.accepted[k].index
    {
      assert BelowCursor(s, p, s.accepted[j]);
    }
  }

  lemma FillKeepsAcceptances(s: System, p: nat, v: Item)
    requires Writings(s) && Acceptances(s) && Tiles(s) && Enabled(s, FillStep(p, v)) && ProducerOk(s, p)
    ensures Acceptances(ApplyFill(s, p, v))
  {
    CursorIsUnwritten(s, p);
    FillIsAccepted(s, p, v);
    forall j | 0 <= j < |s.accepted|
      ensures AcceptedOk(ApplyFill(s, p, v), s.accepted[j]) && BelowCursor(s, p, s.accepted[j])
    {
      assert AcceptedOk(s, s.accepted[j]);
      FillKeepsAccepted(s, p, v, s.accepted[j]);
      if s.accepted[j].thread == p {
        AcceptedLiesBelowCursor(s, p, s.accepted[j]);
      }
    }
    FillAppends(s, p, v);
  }

  lemma StepKeepsHistory(s: System, step: Step)
    requires Base(s) && History(s) && Enabled(s, step)
    ensures History(Apply(s, step))
  {
    if step.FillStep? {
      assert ProducerOk(s, step.p);
      FillKeepsWritings(s, step.p, step.v);
      FillKeepsAcceptances(s, step.p, step.v);
    } else {
      if step.ClaimStep? {
        ClaimIsQuiet(s, step.p, step.publish, step.grant);
      } else {
        ReadIsQuiet(s, step);
      }
      QuietKeepsWritings(s, Apply(s, step));
      QuietKeepsAcceptances(s, Apply(s, step));
    }
  }

  lemma {:induction false} RunKeepsHistory(mode: Mode, s: System, steps: seq<Step>)
    requires Base(s) && History(s) && Runs(mode, s, steps)
    ensures Base(After(mode, s, steps)) && History(After(mode, s, steps))
    decreases |steps|
  {
    if steps != [] {
      StepKeepsBase(s, steps[0]);
      StepKeepsHistory(s, steps[0]);
      RunKeepsHistory(mode, Apply(s, steps[0]), steps[1..]);
    }
  }

  /** Accepted items no consumer can ever see belong to the segment their producer is still
      filling, so each producer has at most `trySize` of them. */
  lemma NeverPublishedItemsAreTheCurrentOnes(mode: Mode, s0: System, steps: seq<Step>, j: nat)
    requires Base(s0) && History(s0) && Runs(mode, s0, steps)
    requires j < |After(mode, s0, steps).accepted|
    requires var s := After(mode, s0, steps); var e := s.accepted[j]; e.segment in s.slots && s.slots[e.segment].stage.Filling?
    ensures var s := After(mode, s0, steps);
      var e := s.accepted[j];
      e.thread < |s.producers| &&
      var P := s.producers[e.thread];
      P.writeId <= e.index < P.curWriteId <= P.writeId + s.geo.trySize
  {
    RunKeepsHistory(mode, s0, steps);
    var s := After(mode, s0, steps);
    var e := s.accepted[j];
    assert AcceptedOk(s, e) && SlotOk(s, e.segment) && ProducerOk(s, e.thread);
  }

  /** The places in the log of what producer `p` has accepted and not yet tried to publish. */
  ghost function NeverPublished(s: System, p: nat): set<nat> {
    set j: nat | j < |s.accepted| && s.accepted[j].thread == p &&
      s.accepted[j].segment in s.slots && s.slots[s.accepted[j].segment].stage.Filling?
  }

  lemma {:induction false} IncreasingFits(js: set<nat>, events: seq<Event>, lo: int, hi: int)
    requires lo <= hi
    requires forall j :: j in js ==> j < |events| && lo <= events[j].index < hi
    requires forall j, k :: j in js && k in js && j < k ==> events[j].index < events[k].index
    ensures |js| <= hi - lo
    decreases hi - lo
  {
    if js != {} {
      if j :| j in js && events[j].index == hi - 1 {
        IncreasingFits(js - {j}, events, lo, hi - 1);
      } else {
        IncreasingFits(js, events, lo, hi - 1);
      }
    }
  }

  /** In any run a producer has at most `trySize` of them. */
  lemma AtMostOneSegmentUnpublished(mode: Mode, s0: System, steps: seq<Step>, p: nat)
    requires Base(s0) && History(s0) && Runs(mode, s0, steps)
    ensures var s := After(mode, s0, steps); |NeverPublished(s, p)| <= s.geo.trySize
  {
    RunKeepsHistory(mode, s0, steps);
    var s := After(mode, s0, steps);
    var js := NeverPublished(s, p);
    if js != {} {
      forall j | j in js
        ensures p < |s.producers| && s.producers[p].writeId <= s.accepted[j].index < s.producers[p].writeId + s.geo.trySize
      {
        NeverPublishedItemsAreTheCurrentOnes(mode, s0, steps, j);
      }
      IncreasingFits(js, s.accepted, s.producers[p].writeId, s.producers[p].writeId + s.geo.trySize);
    }
  }

  lemma AcceptedIndicesDiffer(s: System, j: nat, k: nat)
    requires Tiles(s) && Acceptances(s) && j < k < |s.accepted|
    ensures s.accepted[j].index != s.accepted[k].index
  {
    assert AcceptedOk(s, s.accepted[j]) && AcceptedOk(s, s.accepted[k]);
  }

  /** Two accepted items never share a logical index, and one producer's items carry
      increasing indices. */
  lemma AcceptedOnceInOrder(mode: Mode, s0: System, steps: seq<Step>, j: nat, k: nat)
    requires Base(s0) && History(s0) && Runs(mode, s0, steps)
    requires j < k < |After(mode, s0, steps).accepted|
    ensures var accepted := After(mode, s0, steps).accepted;
      accepted[j].index != accepted[k].index &&
      (accepted[j].thread == accepted[k].thread ==> accepted[j].index < accepted[k].index)
  {
    RunKeepsHistory(mode, s0, steps);
    AcceptedIndicesDiffer(After(mode, s0, steps), j, k);
  }
}
