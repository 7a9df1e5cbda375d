/** The claim the literal guard grants to a producer that holds nothing. Inside the window it
    is harmless. Outside it, the cell of a live index is overwritten, and a consumer goes on to
    receive, at that index, a value that was never written there. */
module RingForeign {
  import opened SegmentRing
  import opened RingBase
  import opened RingHistory
  import opened RingDelivery
  import opened RingTheorems
  import opened RingRetries

  /** Some delivered value is not the one written at its index. */
  ghost predicate DeliversForeign(s: System) {
    exists k :: 0 <= k < |s.delivered| && IsForeign(s, s.delivered[k])
  }

  ghost predicate IsForeign(s: System, e: Event) {
    e.index in s.written && s.written[e.index] != e.value
  }

  /** A literal continuation without further grants, in which a refused claim is a
      producer's first attempt to publish its segment. */
  ghost predicate Settles(s: System, steps: seq<Step>)
    decreases |steps|
  {
    steps == [] ||
    (Enabled(s, steps[0]) && Allowed(Literal, s, steps[0]) && SettlingStep(s, steps[0]) && Settles(Apply(s, steps[0]), steps[1..]))
  }

  ghost predicate SettlingStep(s: System, step: Step) {
    step.ClaimStep? ==> step.p < |s.producers| && step.publish && !step.grant && !s.producers[step.p].published
  }

  ghost predicate NoClaims(steps: seq<Step>) {
    forall k :: 0 <= k < |steps| ==> !steps[k].ClaimStep?
  }

  lemma {:induction false} SettlingRuns(s: System, steps: seq<Step>)
    requires Settles(s, steps)
    ensures Runs(Literal, s, steps)
    decreases |steps|
  {
    if steps != [] {
      SettlingRuns(Apply(s, steps[0]), steps[1..]);
    }
  }

  lemma {:induction false} NoClaimsSettle(s: System, steps: seq<Step>)
    requires Runs(Literal, s, steps) && NoClaims(steps)
    ensures Settles(s, steps)
    decreases |steps|
  {
    if steps != [] {
      NoClaimsSettle(Apply(s, steps[0]), steps[1..]);
    }
  }

  lemma {:induction false} SettleOn(s: System, first: seq<Step>, second: seq<Step>)
    requires Runs(Literal, s, first) && NoClaims(first) && Settles(After(Literal, s, first), second)
    ensures Settles(s, first + second) && Runs(Literal, s, first + second)
    ensures Runs(Literal, After(Literal, s, first), second)
    ensures After(Literal, s, first + second) == After(Literal, After(Literal, s, first), second)
    decreases |first|
  {
    if first == [] {
      assert first + second == second;
      SettlingRuns(s, second);
    } else {
      assert (first + second)[1..] == first[1..] + second;
      SettleOn(Apply(s, first[0]), first[1..], second);
      assert After(Literal, s, first) == After(Literal, Apply(s, first[0]), first[1..]);
    }
  }

  lemma {:induction false} SettlingKeepsSafe(s: System, steps: seq<Step>)
    requires Safe(s) && Settles(s, steps)
    ensures Runs(Literal, s, steps) && Safe(After(Literal, s, steps))
    decreases |steps|
  {
    if steps != [] {
      StepKeepsSafe(s, steps[0]);
      SettlingKeepsSafe(Apply(s, steps[0]), steps[1..]);
    }
  }

  lemma SafeDeliversOwn(s: System)
    requires DeliveredOnce(s)
    ensures !DeliversForeign(s)
  {
    forall k | 0 <= k < |s.delivered|
      ensures !IsForeign(s, s.delivered[k])
    {
      assert DeliveredOk(s, s.delivered[k]);
    }
  }

  // ------------------------------------------------------------------ filling and draining

  /** What filling `[from, end)` of its segment by `p` with `v` changes. */
  ghost predicate FilledTo(s: System, t: System, p: nat, v: Item, end: nat) {
    p < |s.producers| && |s.ring.cells| == s.geo.size == |t.ring.cells| && 0 < s.geo.size &&
    s.producers[p].curWriteId <= end <= s.producers[p].writableId &&
    t.geo == s.geo && t.consumers == s.consumers && t.slots == s.slots && t.delivered == s.delivered &&
    t.ring.readable == s.ring.readable && t.ring.writeId == s.ring.writeId &&
    t.producers == s.producers[p := s.producers[p].(curWriteId := end)] &&
    (forall i: nat :: i in t.written <==> i in s.written || s.producers[p].curWriteId <= i < end) &&
    (forall i: nat :: i in s.written && !(s.producers[p].curWriteId <= i < end) ==> t.written[i] == s.written[i]) &&
    (s.producers[p].curWriteId < end ==> t.ring.cells[(end - 1) % s.geo.size] == v)
  }

  lemma FillOnce(s: System, p: nat, v: Item)
    requires Base(s) && Enabled(s, FillStep(p, v))
    ensures FilledTo(s, ApplyFill(s, p, v), p, v, s.producers[p].curWriteId + 1)
  {
  }

  lemma FillFurther(s: System, t: System, p: nat, v: Item, end: nat)
    requires Base(s) && Enabled(s, FillStep(p, v)) && s.producers[p].curWriteId + 1 < end
    requires FilledTo(ApplyFill(s, p, v), t, p, v, end)
    ensures FilledTo(s, t, p, v, end)
  {
  }

  ghost predicate OnlyFills(p: nat, steps: seq<Step>) {
    forall k :: 0 <= k < |steps| ==> steps[k].FillStep? && steps[k].p == p
  }

  lemma {:induction false} FillTo(mode: Mode, s: System, p: nat, v: Item, end: nat) returns (steps: seq<Step>)
    requires Base(s) && p < |s.producers| && s.producers[p].curWriteId <= end <= s.producers[p].writableId
    ensures OnlyFills(p, steps) && Runs(mode, s, steps)
    ensures Base(After(mode, s, steps)) && After(mode, s, steps).geo == s.geo
    ensures end == s.producers[p].curWriteId ==> After(mode, s, steps) == s
    ensures end > s.producers[p].curWriteId ==> FilledTo(s, After(mode, s, steps), p, v, end)
    decreases end - s.producers[p].curWriteId
  {
    if end == s.producers[p].curWriteId {
      steps := [];
    } else {
      var step := FillStep(p, v);
      BaseIsTyped(s);
      StepKeepsBase(s, step);
      var t := ApplyFill(s, p, v);
      var rest := FillTo(mode, t, p, v, end);
      steps := [step] + rest;
      Prepend(mode, s, step, rest);
      if end == t.producers[p].curWriteId {
        FillOnce(s, p, v);
      } else {
        FillFurther(s, After(mode, t, rest), p, v, end);
      }
    }
  }

  /** Consumer `c` reads on through index `i`; what it delivers there is what the cell holds. */
  lemma {:induction false} DrainThrough(s: System, c: nat, i: nat) returns (steps: seq<Step>)
    requires Base(s) && RemainingIndex(s, c, i)
    ensures ReadsOnly(steps) && Runs(Literal, s, steps)
    ensures s.geo.size == |s.ring.cells| && LastDelivered(s, After(Literal, s, steps), i)
    decreases i - s.consumers[c].readId
  {
    var step := DrainStep(c);
    BaseIsTyped(s);
    StepKeepsBase(s, step);
    var t := ApplyDrain(s, c);
    var rest := [];
    if s.consumers[c].readId < i {
      DrainOne(s, c, i);
      rest := DrainThrough(t, c, i);
    }
    steps := [step] + rest;
    Prepend(Literal, s, step, rest);
  }

  /** The last item delivered has index `i` and the value the cell held in `s`. */
  ghost predicate LastDelivered(s: System, t: System, i: nat)
    requires 0 < s.geo.size == |s.ring.cells|
  {
    t.written == s.written && t.delivered != [] &&
    t.delivered[|t.delivered| - 1].index == i && t.delivered[|t.delivered| - 1].value == s.ring.cells[i % s.geo.size]
  }

  lemma DrainOne(s: System, c: nat, i: nat)
    requires Enabled(s, DrainStep(c)) && RemainingIndex(s, c, i) && s.consumers[c].readId < i
    ensures var t := ApplyDrain(s, c); RemainingIndex(t, c, i) && t.ring == s.ring && t.written == s.written && t.geo == s.geo
  {
  }

  /** Consumer `c` finishes the segment it holds. */
  lemma {:induction false} FinishSegment(s: System, c: nat) returns (steps: seq<Step>)
    requires Base(s) && c < |s.consumers|
    ensures ReadsOnly(steps) && Runs(Literal, s, steps)
    ensures var t := After(Literal, s, steps);
      Base(t) && t.ring == s.ring && t.written == s.written && t.geo == s.geo && t.producers == s.producers &&
      |t.consumers| == |s.consumers| && t.consumers[c].readId >= t.consumers[c].readableId
    decreases Remainder(s, c)
  {
    if s.consumers[c].readId >= s.consumers[c].readableId {
      steps := [];
    } else {
      BaseIsTyped(s);
      StepKeepsBase(s, DrainStep(c));
      var rest := FinishSegment(ApplyDrain(s, c), c);
      steps := [DrainStep(c)] + rest;
      Prepend(Literal, s, DrainStep(c), rest);
    }
  }

  // ------------------------------------------------------------------ the two ways a live index is lost

  /** What a consumer still has to read has been written. */
  lemma RemainingIsWritten(s: System, c: int, i: nat)
    requires Base(s) && Writings(s) && RemainingIndex(s, c, i)
    ensures i in s.written
  {
    assert ConsumerOk(s, c);
    var lo := s.consumers[c].readableId - s.geo.trySize;
    assert SlotOk(s, lo) && ProducerOk(s, s.slots[lo].owner) && WrittenOk(s, lo, i);
  }

  lemma LastIsForeign(s: System, i: nat)
    requires s.delivered != [] && s.delivered[|s.delivered| - 1].index == i
    requires i in s.written && s.written[i] != s.delivered[|s.delivered| - 1].value
    ensures DeliversForeign(s)
  {
    assert IsForeign(s, s.delivered[|s.delivered| - 1]);
  }

  /** Filling past index `i` of the lap before leaves the new value in its cell. */
  lemma CellIsOverwritten(s: System, t: System, p: nat, y: Item, i: nat)
    requires FilledTo(s, t, p, y, i + s.geo.size + 1) && s.producers[p].curWriteId == s.producers[p].writeId
    requires s.producers[p].writeId <= i + s.geo.size && i < s.producers[p].writeId
    ensures t.ring.cells[i % s.geo.size] == y
    ensures i in s.written ==> i in t.written && t.written[i] == s.written[i]
    ensures forall c :: RemainingIndex(s, c, i) ==> RemainingIndex(t, c, i)
    ensures forall q :: q != p && HeldIndex(s, q, i) ==> HeldIndex(t, q, i) && t.producers[q] == s.producers[q]
  {
    NextLapSharesCell(s.geo.size, i);
  }

  lemma ReadOverwritten(s: System, c: nat, i: nat) returns (more: seq<Step>)
    requires Base(s) && RemainingIndex(s, c, i) && i in s.written && s.written[i] != s.ring.cells[i % s.geo.size]
    ensures Settles(s, more) && Runs(Literal, s, more) && DeliversForeign(After(Literal, s, more))
  {
    more := DrainThrough(s, c, i);
    NoClaimsSettle(s, more);
    LastIsForeign(After(Literal, s, more), i);
  }

  /** The fresh segment of `p` reuses the cell of an index a consumer has yet to read. */
  lemma OverwritesRemaining(s: System, p: nat, c: nat, i: nat, v: Item, w: Item) returns (more: seq<Step>)
    requires Base(s) && v != w && RemainingIndex(s, c, i) && i in s.written && p < |s.producers|
    requires i < s.producers[p].curWriteId == s.producers[p].writeId <= i + s.geo.size < s.producers[p].writableId
    ensures Settles(s, more) && Runs(Literal, s, more) && DeliversForeign(After(Literal, s, more))
  {
    var y := if s.written[i] == v then w else v;
    var fills := FillTo(Literal, s, p, y, i + s.geo.size + 1);
    var t := After(Literal, s, fills);
    CellIsOverwritten(s, t, p, y, i);
    var drains := ReadOverwritten(t, c, i);
    SettleOn(s, fills, drains);
    more := fills + drains;
  }

  /** A full segment is published by a refused claim, taken and read. */
  lemma PublishAndRead(s: System, q: nat, i: nat) returns (more: seq<Step>)
    requires Base(s) && q < |s.producers| && 0 < |s.consumers| && s.ring.readable == {}
    requires HeldIndex(s, q, i) && s.producers[q].curWriteId == s.producers[q].writableId
    requires s.geo.size <= s.ring.writeId + s.geo.trySize
    requires i in s.written && s.written[i] != s.ring.cells[i % s.geo.size]
    ensures Settles(s, more) && Runs(Literal, s, more) && DeliversForeign(After(Literal, s, more))
  {
    BaseIsTyped(s);
    var claim := RefusedClaim(s, q);
    var t := Apply(s, claim);
    var finish := FinishSegment(t, 0);
    var u := After(Literal, t, finish);
    var tail := TakeAndRead(u, i);
    SettleOn(t, finish, tail);
    Prepend(Literal, s, claim, finish + tail);
    more := [claim] + (finish + tail);
    assert more[1..] == finish + tail;
  }

  lemma TakeAndRead(s: System, i: nat) returns (more: seq<Step>)
    requires Base(s) && 0 < |s.consumers| && s.consumers[0].readId >= s.consumers[0].readableId
    requires s.ring.readable != {} && forall seg :: seg in s.ring.readable ==> WaitingIndex(s, seg, i)
    requires i in s.written && s.written[i] != s.ring.cells[i % s.geo.size]
    ensures Settles(s, more) && Runs(Literal, s, more) && DeliversForeign(After(Literal, s, more))
  {
    BaseIsTyped(s);
    var take := TakeStep(0);
    StepKeepsBase(s, take);
    var t := ApplyTake(s, 0);
    assert WaitingIndex(s, Smallest(s.ring.readable), i);
    assert RemainingIndex(t, 0, i);
    var drains := DrainThrough(t, 0, i);
    LastIsForeign(After(Literal, t, drains), i);
    more := [take] + drains;
    Prepend(Literal, s, take, drains);
    NoClaimsSettle(s, more);
  }

  /** The fresh segment of `p` reuses the cell of an index that `q` has filled and not published. */
  lemma OverwritesFull(s: System, p: nat, q: nat, i: nat, v: Item, w: Item) returns (more: seq<Step>)
    requires Base(s) && v != w && p < |s.producers| && q < |s.producers| && p != q
    requires 0 < |s.consumers| && s.ring.readable == {} && HeldIndex(s, q, i) && i in s.written
    requires s.producers[q].curWriteId == s.producers[q].writableId && s.geo.size <= s.ring.writeId + s.geo.trySize
    requires i < s.producers[p].curWriteId == s.producers[p].writeId <= i + s.geo.size < s.producers[p].writableId
    ensures Settles(s, more) && Runs(Literal, s, more) && DeliversForeign(After(Literal, s, more))
  {
    var y := if s.written[i] == v then w else v;
    var fills := FillTo(Literal, s, p, y, i + s.geo.size + 1);
    var t := After(Literal, s, fills);
    CellIsOverwritten(s, t, p, y, i);
    var last := PublishAndRead(t, q, i);
    SettleOn(s, fills, last);
    more := fills + last;
  }

  /** The same, when `q` may not have filled it yet. */
  lemma OverwritesHeld(s: System, p: nat, q: nat, i: nat, v: Item, w: Item) returns (more: seq<Step>)
    requires Base(s) && Writings(s) && v != w && p < |s.producers| && q < |s.producers| && p != q
    requires 0 < |s.consumers| && s.ring.readable == {} && HeldIndex(s, q, i)
    requires s.geo.size <= s.ring.writeId + s.geo.trySize
    requires i < s.producers[p].curWriteId == s.producers[p].writeId <= i + s.geo.size < s.producers[p].writableId
    ensures Settles(s, more) && Runs(Literal, s, more) && DeliversForeign(After(Literal, s, more))
  {
    assert ProducerOk(s, q);
    var fills := FillTo(Literal, s, q, v, s.producers[q].writableId);
    var t := After(Literal, s, fills);
    HeldIsWritten(s, t, q, i, v);
    var last := OverwritesFull(t, p, q, i, v, w);
    SettleOn(s, fills, last);
    more := fills + last;
  }

  lemma HeldIsWritten(s: System, t: System, q: nat, i: nat, v: Item)
    requires Base(s) && Writings(s) && q < |s.producers| && HeldIndex(s, q, i)
    requires (t == s && s.producers[q].curWriteId == s.producers[q].writableId)
      || FilledTo(s, t, q, v, s.producers[q].writableId)
    ensures i in t.written
  {
    assert ProducerOk(s, q) && WrittenOk(s, s.producers[q].writeId, i);
  }

  // ------------------------------------------------------------------ the exact condition

  lemma ClaimOutsideWindow(s: System, p: nat, v: Item, w: Item) returns (more: seq<Step>)
    requires Safe(s) && Typed(s) && p < |s.producers| && !s.producers[p].Holds() && s.ring.readable == {}
    requires 0 < |s.consumers| && v != w && !Window(s)
    ensures var t := ApplyClaim(s, p, false, true);
      Settles(t, more) && Runs(Literal, t, more) && DeliversForeign(After(Literal, t, more))
  {
    var t := ApplyClaim(s, p, false, true);
    assert ProducerOk(s, p);
    StepKeepsBase(s, ClaimStep(p, false, true));
    ClaimIsQuiet(s, p, false, true);
    QuietKeepsWritings(s, t);
    var i :| Live(s, i) && i < s.ring.writeId + s.geo.trySize - s.geo.size;
    LiveIsWithinALap(s, i);
    if c :| RemainingIndex(s, c, i) {
      RemainingIsWritten(s, c, i);
      assert RemainingIndex(t, c, i);
      more := OverwritesRemaining(t, p, c, i, v, w);
    } else {
      assert !exists seg :: WaitingIndex(s, seg, i);
      var q :| HeldIndex(s, q, i);
      assert HeldIndex(t, q, i);
      more := OverwritesHeld(t, p, q, i, v, w);
    }
  }

  ghost predicate CanDeliverForeign(s: System) {
    exists more :: Settles(s, more) && Runs(Literal, s, more) && DeliversForeign(After(Literal, s, more))
  }

  /** A producer that holds nothing is granted a segment whenever nothing is published. A
      consumer can then, without any further grant, receive a value not written at its index
      if and only if the claim was made outside the window. */
  lemma FreshClaimDeliversForeignIff(s: System, p: nat, v: Item, w: Item)
    requires Safe(s) && Typed(s) && p < |s.producers| && !s.producers[p].Holds() && s.ring.readable == {}
    requires 0 < |s.consumers| && v != w
    ensures Enabled(s, ClaimStep(p, false, true)) && Allowed(Literal, s, ClaimStep(p, false, true))
    ensures CanDeliverForeign(ApplyClaim(s, p, false, true)) <==> !Window(s)
  {
    FreshClaimIgnoresLiveCells(s, p);
    var t := ApplyClaim(s, p, false, true);
    if Window(s) {
      StepKeepsSafe(s, ClaimStep(p, false, true));
      forall more | Settles(t, more) && Runs(Literal, t, more)
        ensures !DeliversForeign(After(Literal, t, more))
      {
        SettlingKeepsSafe(t, more);
        SafeDeliversOwn(After(Literal, t, more));
      }
    } else {
      var more := ClaimOutsideWindow(s, p, v, w);
      assert Settles(t, more);
    }
  }
}
