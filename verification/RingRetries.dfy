/** What the code does when a claim is refused. A refused producer keeps its segment, and the
    next call inserts it again, so an item can be delivered twice. The guard of the refusing
    branch says exactly when. */
module RingRetries {
  import opened SegmentRing
  import opened RingBase
  import opened RingClaims
  import opened RingDelivery
  import opened RingTheorems

  ghost predicate DeliversTwice(s: System) {
    exists j, k :: 0 <= j < k < |s.delivered| && s.delivered[j].index == s.delivered[k].index
  }

  /** Consumers reading, and producer `p` calling `write` again and again. */
  ghost predicate RetryOrRead(p: nat, steps: seq<Step>) {
    forall k :: 0 <= k < |steps| ==> (steps[k].ClaimStep? ==> steps[k].p == p) && !steps[k].FillStep?
  }

  ghost predicate ReadsOnly(steps: seq<Step>) {
    forall k :: 0 <= k < |steps| ==> steps[k].TakeStep? || steps[k].DrainStep?
  }

  lemma Prepend(mode: Mode, s: System, step: Step, rest: seq<Step>)
    requires Enabled(s, step) && Allowed(mode, s, step) && Runs(mode, Apply(s, step), rest)
    ensures Runs(mode, s, [step] + rest)
    ensures After(mode, s, [step] + rest) == After(mode, Apply(s, step), rest)
  {
    assert ([step] + rest)[1..] == rest;
  }

  lemma {:induction false} Concatenate(mode: Mode, s: System, first: seq<Step>, second: seq<Step>)
    requires Runs(mode, s, first) && Runs(mode, After(mode, s, first), second)
    ensures Runs(mode, s, first + second)
    ensures After(mode, s, first + second) == After(mode, After(mode, s, first), second)
    decreases |first|
  {
    if first == [] {
      assert first + second == second;
    } else {
      var step, rest := first[0], first[1..];
      var t := Apply(s, step);
      assert first + second == [step] + (rest + second);
      Concatenate(mode, t, rest, second);
      assert After(mode, s, first) == After(mode, t, rest);
      Prepend(mode, s, step, rest + second);
    }
  }

  /** Delivered items are only ever appended. */
  lemma {:induction false} DeliveriesGrow(mode: Mode, s: System, steps: seq<Step>)
    requires Runs(mode, s, steps)
    ensures s.delivered <= After(mode, s, steps).delivered
    decreases |steps|
  {
    if steps != [] {
      DeliveriesGrow(mode, Apply(s, steps[0]), steps[1..]);
    }
  }

  lemma {:induction false} ReadsLeaveProducers(s: System, steps: seq<Step>)
    requires Runs(Literal, s, steps) && ReadsOnly(steps)
    ensures var t := After(Literal, s, steps);
      t.producers == s.producers && t.ring.writeId == s.ring.writeId && t.geo == s.geo && |t.consumers| == |s.consumers|
    decreases |steps|
  {
    if steps != [] {
      ReadsLeaveProducers(Apply(s, steps[0]), steps[1..]);
    }
  }

  /** Index `i` is among the items delivered from position `from` on. */
  ghost predicate DeliveredSince(s: System, from: nat, i: int) {
    exists k :: from <= k < |s.delivered| && s.delivered[k].index == i
  }

  lemma TakeAndDrain(s: System, c: nat) returns (steps: seq<Step>)
    requires Base(s) && Enabled(s, TakeStep(c))
    ensures ReadsOnly(steps) && Runs(Literal, s, steps)
    ensures DeliveredSince(After(Literal, s, steps), |s.delivered|, Smallest(s.ring.readable).lo)
  {
    var t := ApplyTake(s, c);
    StepKeepsBase(s, TakeStep(c));
    BaseIsTyped(t);
    assert SegmentOk(s, Smallest(s.ring.readable));
    var u := ApplyDrain(t, c);
    assert u.delivered[|s.delivered|].index == Smallest(s.ring.readable).lo;
    steps := [TakeStep(c)] + ([DrainStep(c)] + []);
    Prepend(Literal, t, DrainStep(c), []);
    Prepend(Literal, s, TakeStep(c), [DrainStep(c)] + []);
  }

  /** How much reading consumer `c` can still do. */
  function Remainder(s: System, c: nat): nat
    requires c < |s.consumers|
  {
    var C := s.consumers[c];
    if C.readId < C.readableId then C.readableId - C.readId else 0
  }

  /** Reading on without reaching the segment leaves it published and less to read before it. */
  lemma ReadOn(s: System, c: nat, seg: Segment) returns (step: Step)
    requires Base(s) && Typed(s) && c < |s.consumers| && seg in s.ring.readable
    requires Remainder(s, c) > 0 || Smallest(s.ring.readable) != seg
    ensures (step.TakeStep? || step.DrainStep?) && Enabled(s, step)
    ensures var t := Apply(s, step);
      Base(t) && Typed(t) && c < |t.consumers| && seg in t.ring.readable && s.delivered <= t.delivered &&
      (|t.ring.readable| < |s.ring.readable| || (t.ring.readable == s.ring.readable && Remainder(t, c) < Remainder(s, c)))
  {
    step := if Remainder(s, c) > 0 then DrainStep(c) else TakeStep(c);
    StepKeepsBase(s, step);
    BaseIsTyped(Apply(s, step));
  }

  /** A consumer that keeps reading delivers, anew, the first item of any published segment. */
  lemma {:induction false} KeepReading(s: System, c: nat, seg: Segment) returns (steps: seq<Step>)
    requires Base(s) && Typed(s) && c < |s.consumers| && seg in s.ring.readable
    ensures ReadsOnly(steps) && Runs(Literal, s, steps)
    ensures DeliveredSince(After(Literal, s, steps), |s.delivered|, seg.lo)
    decreases |s.ring.readable|, Remainder(s, c)
  {
    if Remainder(s, c) == 0 && Smallest(s.ring.readable) == seg {
      steps := TakeAndDrain(s, c);
    } else {
      var step := ReadOn(s, c, seg);
      var t := Apply(s, step);
      var rest := KeepReading(t, c, seg);
      steps := [step] + rest;
      ReadFirst(s, step, rest, seg.lo);
    }
  }

  lemma ReadFirst(s: System, step: Step, rest: seq<Step>, i: int)
    requires (step.TakeStep? || step.DrainStep?) && Enabled(s, step) && |s.delivered| <= |Apply(s, step).delivered|
    requires ReadsOnly(rest) && Runs(Literal, Apply(s, step), rest)
    requires DeliveredSince(After(Literal, Apply(s, step), rest), |Apply(s, step).delivered|, i)
    ensures ReadsOnly([step] + rest) && Runs(Literal, s, [step] + rest)
    ensures DeliveredSince(After(Literal, s, [step] + rest), |s.delivered|, i)
  {
    Prepend(Literal, s, step, rest);
  }

  /** A producer at the end of its segment, with at least one consumer to read. */
  ghost predicate AtSegmentEnd(s: System, p: nat) {
    p < |s.producers| && 0 < |s.consumers| && s.producers[p].Holds() && s.producers[p].curWriteId >= s.producers[p].writableId
  }

  /** Once the guard refuses, it goes on refusing, and each refusal publishes the segment again. */
  lemma RefusedClaim(s: System, p: nat) returns (step: Step)
    requires Base(s) && Typed(s) && AtSegmentEnd(s, p) && s.geo.size <= s.ring.writeId + s.geo.trySize
    ensures step == ClaimStep(p, true, false) && Enabled(s, step) && Allowed(Literal, s, step)
    ensures var t := Apply(s, step);
      Base(t) && Typed(t) && AtSegmentEnd(t, p) && t.geo.size <= t.ring.writeId + t.geo.trySize &&
      t.delivered == s.delivered && Held(t.producers[p]) == Held(s.producers[p]) && Held(t.producers[p]) in t.ring.readable
  {
    step := ClaimStep(p, true, false);
    GuardIn(s, s.ring.readable + {Held(s.producers[p])});
    StepKeepsBase(s, step);
    BaseIsTyped(Apply(s, step));
  }

  /** One refused call and one consumer pass over what it published. */
  lemma RefuseAndRead(s: System, p: nat) returns (steps: seq<Step>)
    requires Base(s) && Typed(s) && AtSegmentEnd(s, p) && s.geo.size <= s.ring.writeId + s.geo.trySize
    ensures RetryOrRead(p, steps) && Runs(Literal, s, steps)
    ensures var t := After(Literal, s, steps);
      Base(t) && Typed(t) && AtSegmentEnd(t, p) && t.geo.size <= t.ring.writeId + t.geo.trySize &&
      Held(t.producers[p]) == Held(s.producers[p]) && s.delivered <= t.delivered &&
      DeliveredSince(t, |s.delivered|, s.producers[p].writeId)
  {
    var step := RefusedClaim(s, p);
    var s1 := Apply(s, step);
    var drains := KeepReading(s1, 0, Held(s1.producers[p]));
    steps := [step] + drains;
    Prepend(Literal, s, step, drains);
    RunKeepsBase(Literal, s1, drains);
    ReadsLeaveProducers(s1, drains);
    DeliveriesGrow(Literal, s1, drains);
  }

  lemma RefusalDeliversTwice(s: System, p: nat) returns (steps: seq<Step>)
    requires Base(s) && Typed(s) && AtSegmentEnd(s, p) && s.geo.size <= s.ring.writeId + s.geo.trySize
    ensures RetryOrRead(p, steps) && Runs(Literal, s, steps) && DeliversTwice(After(Literal, s, steps))
  {
    var first := RefuseAndRead(s, p);
    var t := After(Literal, s, first);
    var second := RefuseAndRead(t, p);
    var u := After(Literal, t, second);
    steps := first + second;
    Concatenate(Literal, s, first, second);
    var j :| |s.delivered| <= j < |t.delivered| && t.delivered[j].index == s.producers[p].writeId;
    var k :| |t.delivered| <= k < |u.delivered| && u.delivered[k].index == s.producers[p].writeId;
    assert u.delivered[j] == t.delivered[j];
  }

  /** While the guard admits, a retry finds the producer with a fresh segment and no claim to make. */
  lemma {:induction false} AdmittedDeliversOnce(s: System, p: nat, steps: seq<Step>)
    requires Good(FirstLap, s) && p < |s.producers| && Runs(Literal, s, steps) && RetryOrRead(p, steps)
    requires s.producers[p].curWriteId < s.producers[p].writableId || s.ring.writeId + s.geo.trySize < s.geo.size
    ensures !DeliversTwice(After(Literal, s, steps))
    decreases |steps|
  {
    if steps != [] {
      var step := steps[0];
      assert steps[0] == step;
      assert Allowed(FirstLap, s, step);
      if step.ClaimStep? {
        FirstLapClaimIsGood(s, step);
      }
      StepKeepsGood(FirstLap, s, step);
      assert RetryOrRead(p, steps[1..]);
      AdmittedDeliversOnce(Apply(s, step), p, steps[1..]);
    }
  }

  /** After a first-lap run, a producer that has to claim can, by retrying its write while
      consumers read, get an item delivered twice if and only if the next segment would end
      at or beyond the size of the ring. */
  lemma RetriesDeliverTwiceIff(s0: System, steps: seq<Step>, p: nat)
    requires Good(FirstLap, s0) && Runs(FirstLap, s0, steps) && AtSegmentEnd(After(FirstLap, s0, steps), p)
    ensures var s := After(FirstLap, s0, steps);
      (exists more :: RetryOrRead(p, more) && Runs(Literal, s, more) && DeliversTwice(After(Literal, s, more)))
      <==> s.geo.size <= s.ring.writeId + s.geo.trySize
  {
    RunKeepsGood(FirstLap, s0, steps);
    RunKeepsBase(FirstLap, s0, steps);
    var s := After(FirstLap, s0, steps);
    if s.geo.size <= s.ring.writeId + s.geo.trySize {
      var more := RefusalDeliversTwice(s, p);
    } else {
      forall more | RetryOrRead(p, more) && Runs(Literal, s, more)
        ensures !DeliversTwice(After(Literal, s, more))
      {
        AdmittedDeliversOnce(s, p, more);
      }
    }
  }

  /** A producer that holds nothing is admitted whenever nothing is published, whatever is
      still being filled or drained: the guard as written does not protect live cells. */
  lemma FreshClaimIgnoresLiveCells(s: System, p: nat)
    requires Safe(s) && p < |s.producers| && !s.producers[p].Holds() && s.ring.readable == {} && Typed(s)
    ensures Enabled(s, ClaimStep(p, false, true)) && Allowed(Literal, s, ClaimStep(p, false, true))
    ensures !Window(s) ==>
      exists i: nat, j: nat :: Collides(s, i, j) && HeldIndex(Apply(s, ClaimStep(p, false, true)), p, j)
  {
    assert ProducerOk(s, p);
    if !Window(s) {
      WindowIsExact(s);
      var i: nat, j: nat :| Collides(s, i, j);
      assert HeldIndex(Apply(s, ClaimStep(p, false, true)), p, j);
    }
  }
}
