/** The segment-claiming ring buffer of ThreadPool/CircleQueue as a state machine.

    Producers claim whole segments of `trySize` logical indices under the mutex, fill
    them without it, and publish a full segment when they come back for the next one.
    Consumers take the smallest published segment under the mutex and drain it without it.
    Every mutex-protected section and every cell access is one step; the steps of any
    number of producers and consumers interleave freely. */
module SegmentRing {

  /** The element type of the queue template. */
  type Item(==, 0, !new)

  /** The two sizes the queue is built with, 1024 * 1024 * 16 and 1024 in the source. Only
      that `trySize` is even and fits into the ring is ever needed. */
  datatype Geometry = Geometry(size: nat, trySize: nat) {
    predicate Valid() {
      0 < trySize <= size && trySize % 2 == 0
    }
  }

  /** A half-open range of logical indices, the `pair<long, long>` of the source. */
  datatype Segment = Segment(lo: int, hi: int)

  const REFUSED := Segment(-1, -1)

  /** The lexicographic order of `set<pair<long, long>>`. */
  predicate Before(a: Segment, b: Segment) {
    a.lo < b.lo || (a.lo == b.lo && a.hi <= b.hi)
  }

  lemma SmallestExists(segments: set<Segment>)
    requires segments != {}
    ensures exists m :: m in segments && forall x :: x in segments ==> Before(m, x)
  {
    var s :| s in segments;
    var rest := segments - {s};
    if rest == {} {
      assert segments == {s};
      assert s in segments && forall x :: x in segments ==> Before(s, x);
    } else {
      SmallestExists(rest);
      var m :| m in rest && forall x :: x in rest ==> Before(m, x);
      var best := if Before(s, m) then s else m;
      assert forall x :: x in segments ==> x == s || x in rest;
      assert best in segments && forall x :: x in segments ==> Before(best, x);
    }
  }

  /** `*readable_queue.begin()`. */
  function Smallest(segments: set<Segment>): (m: Segment)
    requires segments != {}
    ensures m in segments && forall x :: x in segments ==> Before(m, x)
  {
    SmallestExists(segments);
    var m :| m in segments && forall x :: x in segments ==> Before(m, x);
    m
  }

  /** Bitwise conjunction of two non-negative machine words. */
  function BitAnd(a: nat, b: nat): nat {
    if a == 0 || b == 0 then 0
    else 2 * BitAnd(a / 2, b / 2) + (if a % 2 == 1 && b % 2 == 1 then 1 else 0)
  }

  /** The third disjunct of the claim guard, with the precedence C++ gives it: `<` binds
      tighter than `&`, so the comparison is the 0-or-1 word in the middle. */
  function ThirdDisjunct(geo: Geometry, writableId: nat, firstPublished: nat): nat
    requires geo.Valid()
  {
    BitAnd(BitAnd(writableId, if geo.size - 1 < firstPublished then 1 else 0), geo.size - 1)
  }

  /** The admission test of `tryWriteSpace` as written. */
  predicate Guard(geo: Geometry, readable: set<Segment>, writableId: nat)
    requires geo.Valid()
    requires forall s :: s in readable ==> s.lo >= 0
  {
    readable == {} || writableId < geo.size || ThirdDisjunct(geo, writableId, Smallest(readable).lo) != 0
  }

  /** The state guarded by the queue object. */
  datatype Ring = Ring(cells: seq<Item>, readable: set<Segment>, writeId: nat)

  /** A producer's three counters; `published` is history: the segment it holds has
      already been inserted into the readable set, so its last claim was refused. */
  datatype Producer = Producer(writeId: nat, curWriteId: nat, writableId: nat, published: bool) {
    predicate Holds() {
      writableId != 0
    }
  }

  datatype Consumer = Consumer(readId: nat, readableId: nat)

  /** The mutex section of `tryWriteSpace`, with publication and admission as decided
      by the caller of this function. */
  function Claim(geo: Geometry, r: Ring, held: Segment, publish: bool, grant: bool): (Ring, Segment) {
    var readable := if publish then r.readable + {held} else r.readable;
    if grant then
      (r.(readable := readable, writeId := r.writeId + geo.trySize), Segment(r.writeId, r.writeId + geo.trySize))
    else
      (r.(readable := readable), REFUSED)
  }

  /** `tryWriteSpace` as written: publish whenever the caller names a segment. */
  function TryWriteSpace(geo: Geometry, r: Ring, held: Segment): (Ring, Segment)
    requires geo.Valid()
    requires held.hi != 0 ==> held.lo >= 0
    requires forall s :: s in r.readable ==> s.lo >= 0
  {
    var publish := held.hi != 0;
    var readable := if publish then r.readable + {held} else r.readable;
    Claim(geo, r, held, publish, Guard(geo, readable, r.writeId + geo.trySize))
  }

  /** The mutex section of `tryReadSpace`. */
  function TryReadSpace(r: Ring): (Ring, Segment) {
    if r.readable == {} then (r, REFUSED)
    else (r.(readable := r.readable - {Smallest(r.readable)}), Smallest(r.readable))
  }

  /** `circle_array[index % size]` as an assignment target. */
  function Store(geo: Geometry, r: Ring, index: nat, v: Item): Ring
    requires geo.Valid() && |r.cells| == geo.size
  {
    r.(cells := r.cells[index % geo.size := v])
  }

  function Load(geo: Geometry, r: Ring, index: nat): Item
    requires geo.Valid() && |r.cells| == geo.size
  {
    r.cells[index % geo.size]
  }

  // ---------------------------------------------------------------------------------
  // The whole system, with the history the properties are stated over
  // ---------------------------------------------------------------------------------

  /** How far a granted segment has travelled. */
  datatype Stage = Filling | Published | Reading(consumer: nat) | Done

  /** A granted segment: who was granted it and how far it has travelled. */
  datatype Slot = Slot(owner: nat, stage: Stage) {
    predicate Taken() {
      stage.Reading? || stage.Done?
    }
  }

  /** One accepted or delivered item: the thread, the segment, the logical index, the value. */
  datatype Event = Event(thread: nat, segment: nat, index: nat, value: Item)

  datatype System = System(
    geo: Geometry,
    ring: Ring,
    producers: seq<Producer>,
    consumers: seq<Consumer>,
    slots: map<nat, Slot>,
    written: map<nat, Item>,
    accepted: seq<Event>,
    delivered: seq<Event>)

  datatype Step =
    | ClaimStep(p: nat, publish: bool, grant: bool)
    | FillStep(p: nat, v: Item)
    | TakeStep(c: nat)
    | DrainStep(c: nat)

  function Initial(geo: Geometry, cells: seq<Item>, np: nat, nc: nat): System {
    System(geo, Ring(cells, {}, 0),
           seq(np, _ => Producer(0, 0, 0, false)), seq(nc, _ => Consumer(0, 0)),
           map[], map[], [], [])
  }

  /** The part of every state that typing alone does not give; `RunKeepsBase` proves it. */
  predicate Typed(s: System) {
    s.geo.Valid() && |s.ring.cells| == s.geo.size &&
    (forall seg :: seg in s.ring.readable ==> 0 <= seg.lo && 0 <= seg.hi && seg.lo in s.slots) &&
    (forall c :: 0 <= c < |s.consumers| && s.consumers[c].readId < s.consumers[c].readableId
      ==> s.geo.trySize <= s.consumers[c].readableId && s.consumers[c].readableId - s.geo.trySize in s.slots)
  }

  /** A thread's next operation is determined by its own counters. A producer that holds a
      segment publishes it no later than the claim that replaces it. */
  predicate Enabled(s: System, step: Step) {
    Typed(s) &&
    match step
    case ClaimStep(p, publish, grant) =>
      p < |s.producers| &&
      var P := s.producers[p];
      P.curWriteId >= P.writableId &&
      (publish ==> P.Holds()) &&
      (grant && P.Holds() ==> publish || P.published)
    case FillStep(p, v) =>
      p < |s.producers| && s.producers[p].curWriteId < s.producers[p].writableId
    case TakeStep(c) =>
      c < |s.consumers| && s.consumers[c].readId >= s.consumers[c].readableId && s.ring.readable != {}
    case DrainStep(c) =>
      c < |s.consumers| && s.consumers[c].readId < s.consumers[c].readableId
  }

  function Held(P: Producer): Segment {
    Segment(P.writeId, P.writableId)
  }

  function ApplyClaim(s: System, p: nat, publish: bool, grant: bool): System
    requires Enabled(s, ClaimStep(p, publish, grant))
  {
    var P := s.producers[p];
    var (ring, space) := Claim(s.geo, s.ring, Held(P), publish, grant);
    var slots := if publish then s.slots[P.writeId := Slot(p, Published)] else s.slots;
    if grant then
      s.(ring := ring,
         producers := s.producers[p := Producer(s.ring.writeId, s.ring.writeId, ring.writeId, false)],
         slots := slots[s.ring.writeId := Slot(p, Filling)])
    else
      s.(ring := ring,
         producers := s.producers[p := P.(published := P.published || publish)],
         slots := slots)
  }

  function ApplyFill(s: System, p: nat, v: Item): System
    requires Enabled(s, FillStep(p, v))
  {
    var P := s.producers[p];
    s.(ring := Store(s.geo, s.ring, P.curWriteId, v),
       producers := s.producers[p := P.(curWriteId := P.curWriteId + 1)],
       written := s.written[P.curWriteId := v],
       accepted := s.accepted + [Event(p, P.writeId, P.curWriteId, v)])
  }

  function ApplyTake(s: System, c: nat): System
    requires Enabled(s, TakeStep(c))
  {
    var (ring, space) := TryReadSpace(s.ring);
    s.(ring := ring,
       consumers := s.consumers[c := Consumer(space.lo, space.hi)],
       slots := s.slots[space.lo := s.slots[space.lo].(stage := Reading(c))])
  }

  function ApplyDrain(s: System, c: nat): System
    requires Enabled(s, DrainStep(c))
  {
    var C := s.consumers[c];
    var lo := C.readableId - s.geo.trySize;
    var slots :=
      if C.readId + 1 == C.readableId then s.slots[lo := s.slots[lo].(stage := Done)] else s.slots;
    s.(consumers := s.consumers[c := C.(readId := C.readId + 1)],
       slots := slots,
       delivered := s.delivered + [Event(c, lo, C.readId, Load(s.geo, s.ring, C.readId))])
  }

  function Apply(s: System, step: Step): System
    requires Enabled(s, step)
  {
    match step
    case ClaimStep(p, publish, grant) => ApplyClaim(s, p, publish, grant)
    case FillStep(p, v) => ApplyFill(s, p, v)
    case TakeStep(c) => ApplyTake(s, c)
    case DrainStep(c) => ApplyDrain(s, c)
  }

  // ---------------------------------------------------------------------------------
  // Which claims a run allows
  // ---------------------------------------------------------------------------------

  /** Indices whose cell still matters: held by a producer and not published, published,
      or not yet drained by a consumer. */
  ghost predicate HeldIndex(s: System, p: int, i: int) {
    0 <= p < |s.producers| && s.producers[p].Holds() && !s.producers[p].published &&
    s.producers[p].writeId <= i < s.producers[p].writableId
  }

  ghost predicate WaitingIndex(s: System, seg: Segment, i: int) {
    seg in s.ring.readable && seg.lo <= i < seg.hi
  }

  ghost predicate RemainingIndex(s: System, c: int, i: int) {
    0 <= c < |s.consumers| && s.consumers[c].readId <= i < s.consumers[c].readableId
  }

  ghost predicate Live(s: System, i: int) {
    (exists p :: HeldIndex(s, p, i)) || (exists seg :: WaitingIndex(s, seg, i)) || (exists c :: RemainingIndex(s, c, i))
  }

  /** No live index lies so far back that the next segment would reuse its cell. */
  ghost predicate Window(s: System) {
    forall i :: Live(s, i) ==> i >= s.ring.writeId + s.geo.trySize - s.geo.size
  }

  datatype Mode = Literal | FirstLap | Windowed

  /** The claims each kind of run may make. `Literal` is the code. `FirstLap` is the code
      while the next segment still ends inside the first lap. `Windowed` publishes a
      segment once and is granted a new one, by any rule, only inside the window. */
  ghost predicate Allowed(mode: Mode, s: System, step: Step)
    requires Enabled(s, step)
  {
    step.ClaimStep? ==>
      var P := s.producers[step.p];
      var readable := if step.publish then s.ring.readable + {Held(P)} else s.ring.readable;
      match mode
      case Windowed =>
        step.publish == (P.Holds() && !P.published) && (step.grant ==> Window(s))
      case _ =>
        step.publish == P.Holds() &&
        step.grant == Guard(s.geo, readable, s.ring.writeId + s.geo.trySize) &&
        (mode == FirstLap ==> s.ring.writeId + s.geo.trySize < s.geo.size)
  }

  /** `steps` is a run of the given kind from `s`. */
  ghost predicate Runs(mode: Mode, s: System, steps: seq<Step>)
    decreases |steps|
  {
    steps == [] ||
    (Enabled(s, steps[0]) && Allowed(mode, s, steps[0]) && Runs(mode, Apply(s, steps[0]), steps[1..]))
  }

  ghost function After(mode: Mode, s: System, steps: seq<Step>): System
    requires Runs(mode, s, steps)
    decreases |steps|
  {
    if steps == [] then s else After(mode, Apply(s, steps[0]), steps[1..])
  }
}
