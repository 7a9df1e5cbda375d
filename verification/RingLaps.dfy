/** Runs of the code as written from an empty queue, for every geometry: to the end of the
    first lap, to an item delivered twice, and to a delivered value that was never written at
    its index. */
module RingLaps {
  import opened SegmentRing
  import opened RingBase
  import opened RingDelivery
  import opened RingTheorems
  import opened RingRetries
  import opened RingForeign

  lemma {:induction false} FirstLapIsLiteral(s: System, steps: seq<Step>)
    requires Runs(FirstLap, s, steps)
    ensures Runs(Literal, s, steps) && After(Literal, s, steps) == After(FirstLap, s, steps)
    decreases |steps|
  {
    if steps != [] {
      FirstLapIsLiteral(Apply(s, steps[0]), steps[1..]);
    }
  }

  ghost predicate ByProducer(p: nat, steps: seq<Step>) {
    forall k :: 0 <= k < |steps| ==> (steps[k].ClaimStep? || steps[k].FillStep?) && steps[k].p == p
  }

  lemma {:induction false} OthersKept(mode: Mode, s: System, p: nat, steps: seq<Step>)
    requires Runs(mode, s, steps) && ByProducer(p, steps)
    ensures var t := After(mode, s, steps);
      |t.producers| == |s.producers| && t.consumers == s.consumers && t.geo == s.geo &&
      forall q :: 0 <= q < |s.producers| && q != p ==> t.producers[q] == s.producers[q]
    decreases |steps|
  {
    if steps != [] {
      OthersKept(mode, Apply(s, steps[0]), p, steps[1..]);
    }
  }

  // ------------------------------------------------------------------ one segment, one lap

  /** Producer `p` holds a segment it has filled. */
  ghost predicate Full(s: System, p: nat) {
    p < |s.producers| && s.producers[p].Holds() && s.producers[p].curWriteId == s.producers[p].writableId
  }

  /** One granted claim and the segment filled. */
  lemma Round(mode: Mode, s: System, p: nat, v: Item) returns (steps: seq<Step>)
    requires Base(s) && p < |s.producers|
    requires var claim := ClaimStep(p, s.producers[p].Holds(), true); Enabled(s, claim) && Allowed(mode, s, claim)
    ensures ByProducer(p, steps) && Runs(mode, s, steps)
    ensures var t := After(mode, s, steps);
      Base(t) && t.geo == s.geo && Full(t, p) && t.ring.writeId == s.ring.writeId + s.geo.trySize
  {
    var claim := ClaimStep(p, s.producers[p].Holds(), true);
    StepKeepsBase(s, claim);
    var t := Apply(s, claim);
    var fills := FillTo(mode, t, p, v, t.producers[p].writableId);
    Prepend(mode, s, claim, fills);
    steps := [claim] + fills;
  }

  lemma FirstLapClaim(s: System, p: nat)
    requires Base(s) && p < |s.producers| && s.producers[p].curWriteId >= s.producers[p].writableId
    requires s.ring.writeId + s.geo.trySize < s.geo.size
    ensures var claim := ClaimStep(p, s.producers[p].Holds(), true); Enabled(s, claim) && Allowed(FirstLap, s, claim)
  {
    BaseIsTyped(s);
  }

  /** One producer alone goes to the end of the first lap. */
  lemma {:induction false} RunToLapEnd(s: System, p: nat, v: Item) returns (steps: seq<Step>)
    requires Base(s) && p < |s.producers| && s.producers[p].curWriteId >= s.producers[p].writableId
    requires s.ring.writeId + s.geo.trySize < s.geo.size
    ensures ByProducer(p, steps) && Runs(FirstLap, s, steps)
    ensures var t := After(FirstLap, s, steps);
      Base(t) && t.geo == s.geo && Full(t, p) && t.geo.size <= t.ring.writeId + t.geo.trySize
    decreases s.geo.size - s.ring.writeId
  {
    FirstLapClaim(s, p);
    steps := Round(FirstLap, s, p, v);
    var t := After(FirstLap, s, steps);
    if t.ring.writeId + t.geo.trySize < t.geo.size {
      var rest := RunToLapEnd(t, p, v);
      Concatenate(FirstLap, s, steps, rest);
      steps := steps + rest;
    }
  }

  /** In every ring larger than a segment a first-lap run reaches the point where the next
      claim is refused. */
  lemma LapEndIsReached(geo: Geometry, cells: seq<Item>, np: nat, nc: nat, v: Item) returns (steps: seq<Step>)
    requires geo.Valid() && |cells| == geo.size && geo.trySize < geo.size && 0 < np && 0 < nc
    ensures Runs(FirstLap, Initial(geo, cells, np, nc), steps)
    ensures var s := After(FirstLap, Initial(geo, cells, np, nc), steps);
      AtSegmentEnd(s, 0) && s.geo.size <= s.ring.writeId + s.geo.trySize
  {
    var s0 := Initial(geo, cells, np, nc);
    InitialBase(geo, cells, np, nc);
    steps := RunToLapEnd(s0, 0, v);
    OthersKept(FirstLap, s0, 0, steps);
  }

  /** A literal run from the empty queue to the same point, in every ring. */
  lemma LiteralLapEnd(geo: Geometry, cells: seq<Item>, np: nat, nc: nat, v: Item) returns (steps: seq<Step>)
    requires geo.Valid() && |cells| == geo.size && 0 < np && 0 < nc
    ensures Runs(Literal, Initial(geo, cells, np, nc), steps)
    ensures var s := After(Literal, Initial(geo, cells, np, nc), steps);
      Base(s) && AtSegmentEnd(s, 0) && s.geo.size <= s.ring.writeId + s.geo.trySize
  {
    var s0 := Initial(geo, cells, np, nc);
    InitialBase(geo, cells, np, nc);
    if geo.trySize < geo.size {
      steps := LapEndIsReached(geo, cells, np, nc, v);
      RunKeepsBase(FirstLap, s0, steps);
      FirstLapIsLiteral(s0, steps);
    } else {
      BaseIsTyped(s0);
      steps := Round(Literal, s0, 0, v);
      OthersKept(Literal, s0, 0, steps);
    }
  }

  /** Whatever the geometry, the code as written has a run that delivers an item twice. */
  lemma LiteralCodeDeliversTwice(geo: Geometry, cells: seq<Item>, np: nat, nc: nat, v: Item) returns (steps: seq<Step>)
    requires geo.Valid() && |cells| == geo.size && 0 < np && 0 < nc
    ensures Runs(Literal, Initial(geo, cells, np, nc), steps)
    ensures DeliversTwice(After(Literal, Initial(geo, cells, np, nc), steps))
  {
    var s0 := Initial(geo, cells, np, nc);
    var lap := LiteralLapEnd(geo, cells, np, nc, v);
    var s := After(Literal, s0, lap);
    BaseIsTyped(s);
    var more := RefusalDeliversTwice(s, 0);
    Concatenate(Literal, s0, lap, more);
    steps := lap + more;
  }

  // ------------------------------------------------------------------ a foreign value

  lemma PrependRead(s: System, step: Step, rest: seq<Step>)
    requires (step.TakeStep? || step.DrainStep?) && Enabled(s, step) && ReadsOnly(rest) && Runs(Literal, Apply(s, step), rest)
    ensures ReadsOnly([step] + rest) && Runs(Literal, s, [step] + rest)
    ensures After(Literal, s, [step] + rest) == After(Literal, Apply(s, step), rest)
  {
    Prepend(Literal, s, step, rest);
  }

  lemma ReadNext(s: System, c: nat) returns (step: Step)
    requires Base(s) && c < |s.consumers| && s.ring.readable != {}
    ensures (step.TakeStep? || step.DrainStep?) && Enabled(s, step)
    ensures var t := Apply(s, step);
      Base(t) && c < |t.consumers| &&
      (|t.ring.readable| < |s.ring.readable| || (t.ring.readable == s.ring.readable && Remainder(t, c) < Remainder(s, c)))
  {
    BaseIsTyped(s);
    step := if Remainder(s, c) > 0 then DrainStep(c) else TakeStep(c);
    StepKeepsBase(s, step);
  }

  /** Consumer `c` reads until nothing is published. */
  lemma {:induction false} DrainAll(s: System, c: nat) returns (steps: seq<Step>)
    requires Base(s) && c < |s.consumers|
    ensures ReadsOnly(steps) && Runs(Literal, s, steps)
    ensures After(Literal, s, steps).ring.readable == {}
    decreases |s.ring.readable|, Remainder(s, c)
  {
    if s.ring.readable == {} {
      steps := [];
    } else {
      var step := ReadNext(s, c);
      var rest := DrainAll(Apply(s, step), c);
      steps := [step] + rest;
      PrependRead(s, step, rest);
    }
  }

  /** A safe state in which producer 0 still holds its first segment, nothing is published,
      and producers 2 and 3 have yet to claim. */
  ghost predicate Stalled(s: System) {
    Safe(s) && 4 <= |s.producers| && 0 < |s.consumers| && s.ring.readable == {} &&
    HeldIndex(s, 0, 0) && !s.producers[2].Holds() && !s.producers[3].Holds()
  }

  lemma FirstClaimStalls(geo: Geometry, cells: seq<Item>, np: nat, nc: nat) returns (steps: seq<Step>)
    requires geo.Valid() && |cells| == geo.size && 4 <= np && 0 < nc
    ensures Runs(Literal, Initial(geo, cells, np, nc), steps)
    ensures var s := After(Literal, Initial(geo, cells, np, nc), steps);
      Stalled(s) && Good(FirstLap, s) && !s.producers[1].Holds() && s.producers[1].curWriteId >= s.producers[1].writableId
  {
    var s0 := Initial(geo, cells, np, nc);
    InitialIsGood(Windowed, geo, cells, np, nc);
    BaseIsTyped(s0);
    var claim := ClaimStep(0, false, true);
    FreshClaimIgnoresLiveCells(s0, 0);
    assert Window(s0);
    StepKeepsGood(Windowed, s0, claim);
    Prepend(Literal, s0, claim, []);
    steps := [claim] + [];
    var s := Apply(s0, claim);
    assert After(Literal, s, []) == s;
    assert HeldIndex(s, 0, 0);
  }

  /** Producer 1 goes to the end of the first lap, a consumer clears what it published. */
  lemma StalledAtLapEnd(s: System, v: Item) returns (steps: seq<Step>)
    requires Stalled(s) && Good(FirstLap, s) && !s.producers[1].Holds()
    requires s.producers[1].curWriteId >= s.producers[1].writableId
    ensures Runs(Literal, s, steps)
    ensures var t := After(Literal, s, steps); Stalled(t) && t.geo.size <= t.ring.writeId + t.geo.trySize
  {
    steps := [];
    var t := s;
    if s.ring.writeId + s.geo.trySize < s.geo.size {
      steps := RunToLapEnd(s, 1, v);
      RunKeepsGood(FirstLap, s, steps);
      OthersKept(FirstLap, s, 1, steps);
      FirstLapIsLiteral(s, steps);
      t := After(Literal, s, steps);
    }
    var clear := DrainAll(t, 0);
    ReadsLeaveProducers(t, clear);
    NoClaimsSettle(t, clear);
    SettlingKeepsSafe(t, clear);
    Concatenate(Literal, s, steps, clear);
    steps := steps + clear;
  }

  lemma OutsideWindow(s: System)
    requires HeldIndex(s, 0, 0) && s.geo.size < s.ring.writeId + s.geo.trySize
    ensures !Window(s)
  {
    assert Live(s, 0);
  }

  lemma ClaimAndDeliverForeign(s: System, p: nat, v: Item, w: Item) returns (steps: seq<Step>)
    requires Safe(s) && 0 < |s.consumers| && s.ring.readable == {} && HeldIndex(s, 0, 0) && v != w
    requires s.geo.size < s.ring.writeId + s.geo.trySize && p < |s.producers| && !s.producers[p].Holds()
    ensures Runs(Literal, s, steps) && DeliversForeign(After(Literal, s, steps))
  {
    OutsideWindow(s);
    BaseIsTyped(s);
    FreshClaimIgnoresLiveCells(s, p);
    var more := ClaimOutsideWindow(s, p, v, w);
    Prepend(Literal, s, ClaimStep(p, false, true), more);
    steps := [ClaimStep(p, false, true)] + more;
  }

  /** A fresh claim whose segment ends exactly at the end of the lap. */
  lemma LastClaimOfTheLap(s: System)
    requires Stalled(s) && s.geo.size == s.ring.writeId + s.geo.trySize
    ensures var claim := ClaimStep(2, false, true);
      Enabled(s, claim) && Allowed(Literal, s, claim) &&
      var t := Apply(s, claim);
      Safe(t) && HeldIndex(t, 0, 0) && t.ring.readable == {} && t.geo.size < t.ring.writeId + t.geo.trySize &&
      t.consumers == s.consumers && |t.producers| == |s.producers| && t.producers[3] == s.producers[3]
  {
    BaseIsTyped(s);
    FreshClaimIgnoresLiveCells(s, 2);
    forall i | Live(s, i)
      ensures i >= 0
    {
      LiveIsWithinALap(s, i);
    }
    StepKeepsSafe(s, ClaimStep(2, false, true));
  }

  lemma StalledDeliversForeign(s: System, v: Item, w: Item) returns (steps: seq<Step>)
    requires Stalled(s) && s.geo.size <= s.ring.writeId + s.geo.trySize && v != w
    ensures Runs(Literal, s, steps) && DeliversForeign(After(Literal, s, steps))
  {
    if s.geo.size < s.ring.writeId + s.geo.trySize {
      steps := ClaimAndDeliverForeign(s, 2, v, w);
    } else {
      var claim := ClaimStep(2, false, true);
      LastClaimOfTheLap(s);
      var more := ClaimAndDeliverForeign(Apply(s, claim), 3, v, w);
      Prepend(Literal, s, claim, more);
      steps := [claim] + more;
    }
  }

  /** Whatever the geometry, with four producers the code as written has a run from the empty
      queue that delivers, at some index, a value other than the one written there. */
  lemma LiteralCodeDeliversForeign(geo: Geometry, cells: seq<Item>, np: nat, nc: nat, v: Item, w: Item) returns (steps: seq<Step>)
    requires geo.Valid() && |cells| == geo.size && 4 <= np && 0 < nc && v != w
    ensures Runs(Literal, Initial(geo, cells, np, nc), steps)
    ensures DeliversForeign(After(Literal, Initial(geo, cells, np, nc), steps))
  {
    var s0 := Initial(geo, cells, np, nc);
    var first := FirstClaimStalls(geo, cells, np, nc);
    var s1 := After(Literal, s0, first);
    var lap := StalledAtLapEnd(s1, v);
    var s2 := After(Literal, s1, lap);
    var tail := StalledDeliversForeign(s2, v, w);
    Concatenate(Literal, s1, lap, tail);
    Concatenate(Literal, s0, first, lap + tail);
    steps := first + (lap + tail);
  }
}
