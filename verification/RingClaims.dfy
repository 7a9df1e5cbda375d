/** Theorems that hold of every run, stated over the literal code where the code is the point. */
module RingClaims {
  import opened SegmentRing
  import opened RingBase

  /** Bit `i` of a non-negative word. */
  predicate Bit(n: nat, i: nat) {
    if i == 0 then n % 2 == 1 else Bit(n / 2, i - 1)
  }

  /** The conjunction has the bits that both words have. */
  lemma {:induction false} AndIsBitwise(a: nat, b: nat, i: nat)
    ensures Bit(BitAnd(a, b), i) <==> Bit(a, i) && Bit(b, i)
    decreases i
  {
    if a == 0 || b == 0 {
      ZeroHasNoBits(i);
    } else {
      var rest := BitAnd(a / 2, b / 2);
      assert BitAnd(a, b) / 2 == rest;
      if i > 0 {
        AndIsBitwise(a / 2, b / 2, i - 1);
      }
    }
  }

  lemma {:induction false} ZeroHasNoBits(i: nat)
    ensures !Bit(0, i)
  {
    if i > 0 {
      ZeroHasNoBits(i - 1);
    }
  }

  lemma AndWithZero(a: nat)
    ensures BitAnd(a, 0) == 0 && BitAnd(0, a) == 0
  {
  }

  lemma EvenAndOne(a: nat)
    requires a % 2 == 0
    ensures BitAnd(a, 1) == 0
  {
    AndWithZero(a / 2);
  }

  /** Precedence makes the third disjunct `(writableId & 0-or-1) & mask`, and segment ends
      are even, so it never admits anything. */
  lemma ThirdDisjunctIsFalse(geo: Geometry, writableId: nat, firstPublished: nat)
    requires geo.Valid() && writableId % 2 == 0
    ensures ThirdDisjunct(geo, writableId, firstPublished) == 0
  {
    AndWithZero(writableId);
    EvenAndOne(writableId);
    AndWithZero(geo.size - 1);
  }

  /** In every reachable state the guard as written says: nothing is published, or the
      next segment ends inside the first lap. */
  lemma GuardInReachableStates(mode: Mode, s0: System, steps: seq<Step>, readable: set<Segment>)
    requires Base(s0) && Runs(mode, s0, steps)
    requires forall seg :: seg in readable ==> seg.lo >= 0
    ensures var s := After(mode, s0, steps);
      var writableId := s.ring.writeId + s.geo.trySize;
      s.geo.Valid() &&
      (readable != {} ==> ThirdDisjunct(s.geo, writableId, Smallest(readable).lo) == 0) &&
      (Guard(s.geo, readable, writableId) <==> readable == {} || writableId < s.geo.size)
  {
    RunKeepsBase(mode, s0, steps);
    GuardIn(After(mode, s0, steps), readable);
  }

  lemma GuardIn(s: System, readable: set<Segment>)
    requires s.geo.Valid() && s.ring.writeId % 2 == 0
    requires forall seg :: seg in readable ==> seg.lo >= 0
    ensures var writableId := s.ring.writeId + s.geo.trySize;
      (readable != {} ==> ThirdDisjunct(s.geo, writableId, Smallest(readable).lo) == 0) &&
      (Guard(s.geo, readable, writableId) <==> readable == {} || writableId < s.geo.size)
  {
    if readable != {} {
      ThirdDisjunctIsFalse(s.geo, s.ring.writeId + s.geo.trySize, Smallest(readable).lo);
    }
  }

  /** A producer that already holds a segment publishes it first, so for it the guard is
      exactly "the next segment ends inside the first lap". */
  lemma HolderIsAdmittedOnlyInFirstLap(s0: System, steps: seq<Step>, claim: Step)
    requires Base(s0) && Runs(Literal, s0, steps)
    requires var s := After(Literal, s0, steps);
      claim.ClaimStep? && Enabled(s, claim) && Allowed(Literal, s, claim) && s.producers[claim.p].Holds()
    ensures var s := After(Literal, s0, steps);
      claim.grant <==> s.ring.writeId + s.geo.trySize < s.geo.size
  {
    RunKeepsBase(Literal, s0, steps);
    var s := After(Literal, s0, steps);
    GuardInReachableStates(Literal, s0, steps, s.ring.readable + {Held(s.producers[claim.p])});
  }

  /** Granted segments have length `trySize`, do not overlap, and their union is exactly [0, writeId). */
  lemma ClaimsTileTheIndexSpace(mode: Mode, s0: System, steps: seq<Step>, i: nat)
    requires Base(s0) && Runs(mode, s0, steps)
    ensures var s := After(mode, s0, steps);
      (i < s.ring.writeId <==> exists lo :: lo in s.slots && lo <= i < lo + s.geo.trySize) &&
      (forall a, b :: a in s.slots && b in s.slots && a <= i < a + s.geo.trySize && b <= i < b + s.geo.trySize ==> a == b)
  {
    RunKeepsBase(mode, s0, steps);
    var s := After(mode, s0, steps);
    if i < s.ring.writeId {
      assert Covered(s, i);
    }
  }

  lemma PublishedIsNotBeingFilled(s: System, p: nat, seg: Segment, i: int)
    requires Base(s) && p < |s.producers| && WaitingIndex(s, seg, i)
    requires s.producers[p].curWriteId < s.producers[p].writableId
    ensures !(s.producers[p].writeId <= i < s.producers[p].writableId)
  {
    assert ProducerOk(s, p) && SegmentOk(s, seg);
  }

  lemma TakenIsNotBeingFilled(s: System, p: nat, c: int, i: int)
    requires Base(s) && p < |s.producers| && RemainingIndex(s, c, i)
    requires s.producers[p].curWriteId < s.producers[p].writableId
    ensures !(s.producers[p].writeId <= i < s.producers[p].writableId)
  {
    assert ProducerOk(s, p) && ConsumerOk(s, c);
  }

  /** No published segment and no segment a consumer holds is still being filled, in any
      run: a consumer only ever receives segments whose producer has finished with them. */
  lemma PublicationSafety(mode: Mode, s0: System, steps: seq<Step>, p: nat)
    requires Base(s0) && Runs(mode, s0, steps)
    requires p < |After(mode, s0, steps).producers|
    requires var P := After(mode, s0, steps).producers[p]; P.curWriteId < P.writableId
    ensures var s := After(mode, s0, steps);
      var P := s.producers[p];
      (forall seg, i :: WaitingIndex(s, seg, i) ==> !(P.writeId <= i < P.writableId)) &&
      (forall c, i :: RemainingIndex(s, c, i) ==> !(P.writeId <= i < P.writableId))
  {
    RunKeepsBase(mode, s0, steps);
    var s := After(mode, s0, steps);
    forall seg, i | WaitingIndex(s, seg, i)
      ensures !(s.producers[p].writeId <= i < s.producers[p].writableId)
    {
      PublishedIsNotBeingFilled(s, p, seg, i);
    }
    forall c, i | RemainingIndex(s, c, i)
      ensures !(s.producers[p].writeId <= i < s.producers[p].writableId)
    {
      TakenIsNotBeingFilled(s, p, c, i);
    }
  }
}
