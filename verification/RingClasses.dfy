/** CircleQueue, Producer and Consumer as the objects they are in the source, each method
    proved against the functions the state machine is made of. A method body here is one
    thread running alone; `WriteCallIsARun` and `ReadCallIsARun` say which steps it takes. */
module RingClasses {
  import SR = SegmentRing
  import RB = RingBase
  import RC = RingClaims
  import RR = RingRetries
  type Item = SR.Item

  class CircleQueue {
    const geo: SR.Geometry
    const cells: array<Item>
    var readable: set<SR.Segment>
    var writeId: nat

    ghost predicate Valid()
      reads this, cells
    {
      geo.Valid() && cells.Length == geo.size && writeId % 2 == 0 &&
      forall seg :: seg in readable ==> 0 <= seg.lo && 0 <= seg.hi
    }

    ghost function Ring(): SR.Ring
      reads this, cells
    {
      SR.Ring(cells[..], readable, writeId)
    }

    constructor (geo: SR.Geometry, fill: Item)
      requires geo.Valid()
      ensures Valid() && fresh(cells) && this.geo == geo
      ensures Ring() == SR.Initial(geo, seq(geo.size, _ => fill), 0, 0).ring
    {
      this.geo := geo;
      cells := new Item[geo.size](_ => fill);
      readable, writeId := {}, 0;
      new;
      assert cells[..] == seq(geo.size, _ => fill);
    }

    method TryReadSpace() returns (result: SR.Segment)
      requires Valid()
      modifies this`readable
      ensures Valid() && (Ring(), result) == SR.TryReadSpace(old(Ring()))
      ensures old(readable) == {} ==> result == SR.Segment(-1, -1) && readable == {}
      ensures old(readable) != {} ==> result in old(readable) && readable == old(readable) - {result}
      ensures forall seg :: seg in old(readable) ==> SR.Before(result, seg)
    {
      result := SR.REFUSED;
      if readable != {} {
        result := SR.Smallest(readable);
        readable := readable - {result};
      }
    }

    /** A segment the caller names is published. The next segment is granted if and only if then
        nothing is published or it ends inside the first lap. */
    method TryWriteSpace(hasWriteStart: nat, hasWriteEnd: nat) returns (result: SR.Segment)
      requires Valid()
      modifies this`readable, this`writeId
      ensures readable == old(readable) + (if hasWriteEnd != 0 then {SR.Segment(hasWriteStart, hasWriteEnd)} else {})
      ensures if readable == {} || old(writeId) + geo.trySize < geo.size
        then result == SR.Segment(old(writeId), writeId) && writeId == old(writeId) + geo.trySize
        else result == SR.Segment(-1, -1) && writeId == old(writeId)
      ensures Valid() && (Ring(), result) == SR.TryWriteSpace(geo, old(Ring()), SR.Segment(hasWriteStart, hasWriteEnd))
    {
      result := SR.REFUSED;
      if hasWriteEnd != 0 {
        readable := readable + {SR.Segment(hasWriteStart, hasWriteEnd)};
      }
      var writableId := writeId + geo.trySize;
      AdmissionLaw(geo, readable, writableId);
      if readable == {} || writableId < geo.size
          || SR.ThirdDisjunct(geo, writableId, SR.Smallest(readable).lo) != 0 {
        result := SR.Segment(writeId, writableId);
        writeId := writableId;
      }
    }

    /** The blocking take. When nothing is published it waits, and the caller with it. */
    method TryReadSpaceByCV() returns (waits: bool, result: SR.Segment)
      requires Valid()
      modifies this`readable
      ensures Valid() && (waits <==> old(readable) == {}) && (waits ==> Ring() == old(Ring()))
      ensures !waits ==> (Ring(), result) == SR.TryReadSpace(old(Ring())) && result in old(readable)
      ensures !waits ==> forall seg :: seg in old(readable) ==> SR.Before(result, seg)
    {
      waits, result := readable == {}, SR.REFUSED;
      if !waits {
        result := SR.Smallest(readable);
        readable := readable - {result};
      }
    }

    method Read(index: nat) returns (v: Item)
      requires Valid()
      ensures v == SR.Load(geo, Ring(), index)
    {
      v := cells[index % geo.size];
    }

    method Write(index: nat, v: Item)
      requires Valid()
      modifies cells
      ensures Valid() && Ring() == SR.Store(geo, old(Ring()), index, v)
    {
      cells[index % geo.size] := v;
    }
  }

  /** One call of `Producer::write` run alone. */
  function WriteCall(geo: SR.Geometry, r: SR.Ring, P: SR.Producer, v: Item): (SR.Ring, SR.Producer, bool)
    requires geo.Valid() && |r.cells| == geo.size && forall seg :: seg in r.readable ==> seg.lo >= 0
  {
    if P.curWriteId < P.writableId then
      (SR.Store(geo, r, P.curWriteId, v), P.(curWriteId := P.curWriteId + 1), true)
    else
      var (ring, space) := SR.TryWriteSpace(geo, r, SR.Held(P));
      if space.lo == -1 then
        (ring, P.(published := P.published || P.Holds()), false)
      else
        (SR.Store(geo, ring, space.lo, v), SR.Producer(space.lo, space.lo + 1, space.hi, false), true)
  }

  /** Consumer `C` would wait: it has nothing left and nothing is published. */
  predicate Waits(r: SR.Ring, C: SR.Consumer) {
    C.readId >= C.readableId && r.readable == {}
  }

  /** One call of `Consumer::read` run alone, when it does not have to wait. */
  function ReadCall(geo: SR.Geometry, r: SR.Ring, C: SR.Consumer): (SR.Ring, SR.Consumer, Item)
    requires geo.Valid() && |r.cells| == geo.size && forall seg :: seg in r.readable ==> seg.lo >= 0 && seg.hi >= 0
    requires !Waits(r, C)
  {
    if C.readId < C.readableId then
      (r, C.(readId := C.readId + 1), SR.Load(geo, r, C.readId))
    else
      var (ring, space) := SR.TryReadSpace(r);
      (ring, SR.Consumer(space.lo + 1, space.hi), SR.Load(geo, ring, space.lo))
  }

  class Producer {
    const queue: CircleQueue
    var writeId: nat
    var curWriteId: nat
    var writableId: nat
    ghost var published: bool

    ghost function State(): SR.Producer
      reads this
    {
      SR.Producer(writeId, curWriteId, writableId, published)
    }

    constructor (queue: CircleQueue)
      ensures this.queue == queue && State() == SR.Producer(0, 0, 0, false)
    {
      this.queue := queue;
      writeId, curWriteId, writableId, published := 0, 0, 0, false;
    }

    /** With room in its segment a write is accepted at the cursor. Without, the segment is
        published, and the item is accepted at the start of the next one if that is granted;
        only otherwise the write is refused, and the counters stay as they are. */
    method Write(v: Item) returns (ok: bool)
      requires queue.Valid()
      modifies this, queue`readable, queue`writeId, queue.cells
      ensures queue.readable == old(queue.readable) +
        (if old(curWriteId < writableId || writableId == 0) then {} else {SR.Segment(old(writeId), old(writableId))})
      ensures ok <==> (old(curWriteId < writableId) ||
        queue.readable == {} || old(queue.writeId) + queue.geo.trySize < queue.geo.size)
      ensures old(curWriteId < writableId) ==>
        queue.cells[..] == old(queue.cells[..])[old(curWriteId) % queue.geo.size := v] && queue.writeId == old(queue.writeId) &&
        writeId == old(writeId) && curWriteId == old(curWriteId) + 1 && writableId == old(writableId)
      ensures ok && !old(curWriteId < writableId) ==>
        queue.cells[..] == old(queue.cells[..])[old(queue.writeId) % queue.geo.size := v] &&
        writeId == old(queue.writeId) && curWriteId == writeId + 1 && writableId == queue.writeId == writeId + queue.geo.trySize
      ensures !ok ==>
        queue.cells[..] == old(queue.cells[..]) && queue.writeId == old(queue.writeId) &&
        writeId == old(writeId) && curWriteId == old(curWriteId) && writableId == old(writableId)
      ensures queue.Valid() && (queue.Ring(), State(), ok) == WriteCall(queue.geo, old(queue.Ring()), old(State()), v)
    {
      if curWriteId >= writableId {
        var space := queue.TryWriteSpace(writeId, writableId);
        if space.lo != -1 {
          writeId, curWriteId, writableId, published := space.lo, space.lo, space.hi, false;
        } else {
          published := published || writableId != 0;
          return false;
        }
      }
      queue.Write(curWriteId, v);
      curWriteId := curWriteId + 1;
      ok := true;
    }
  }

  class Consumer {
    const queue: CircleQueue
    var readId: nat
    var readableId: nat

    ghost function State(): SR.Consumer
      reads this
    {
      SR.Consumer(readId, readableId)
    }

    constructor (queue: CircleQueue)
      ensures this.queue == queue && State() == SR.Consumer(0, 0)
    {
      this.queue := queue;
      readId, readableId := 0, 0;
    }

    /** The answer is never the pair with `false`: what the blocking take returns is a segment. */
    method Read() returns (waits: bool, v: Item, ok: bool)
      requires queue.Valid()
      modifies this, queue`readable
      ensures queue.Valid() && waits == Waits(old(queue.Ring()), old(State()))
      ensures waits ==> queue.Ring() == old(queue.Ring()) && State() == old(State())
      ensures !waits ==> ok && (queue.Ring(), State(), v) == ReadCall(queue.geo, old(queue.Ring()), old(State()))
      ensures old(readId < readableId) ==>
        !waits && queue.readable == old(queue.readable) && v == queue.cells[old(readId) % queue.geo.size] &&
        readId == old(readId) + 1 && readableId == old(readableId)
      ensures !waits && !old(readId < readableId) ==>
        readId > 0 && SR.Segment(readId - 1, readableId) in old(queue.readable) && v == queue.cells[(readId - 1) % queue.geo.size] &&
        queue.readable == old(queue.readable) - {SR.Segment(readId - 1, readableId)}
    {
      waits := false;
      if readId >= readableId {
        var space;
        waits, space := queue.TryReadSpaceByCV();
        if waits {
          return true, *, false;
        }
        if space.lo != -1 {
          readId, readableId := space.lo, space.hi;
        } else {
          return false, *, false;
        }
      }
      v := queue.Read(readId);
      readId := readId + 1;
      ok := true;
    }
  }

  /** What a claim is granted on, for an even segment end. */
  lemma AdmissionLaw(geo: SR.Geometry, readable: set<SR.Segment>, writableId: nat)
    requires geo.Valid() && writableId % 2 == 0 && (forall seg :: seg in readable ==> seg.lo >= 0)
    ensures SR.Guard(geo, readable, writableId) <==> readable == {} || writableId < geo.size
  {
    if readable != {} {
      RC.ThirdDisjunctIsFalse(geo, writableId, SR.Smallest(readable).lo);
    }
  }

  /** What producer `p` has published once its current segment is. */
  function PublishedWith(s: SR.System, p: nat): set<SR.Segment>
    requires p < |s.producers|
  {
    var P := s.producers[p];
    s.ring.readable + (if P.writableId != 0 then {SR.Segment(P.writeId, P.writableId)} else {})
  }

  /** What one `write` call by `p` accepts: `v` at the cursor if the segment has room; otherwise
      `v` at the start of the next segment if then nothing is published or that segment ends
      inside the first lap; and only otherwise nothing, with the segment published. */
  ghost predicate Accepts(s: SR.System, t: SR.System, p: nat, v: Item)
    requires p < |s.producers|
  {
    var P, next := s.producers[p], s.ring.writeId;
    if P.curWriteId < P.writableId then
      t.accepted == s.accepted + [SR.Event(p, P.writeId, P.curWriteId, v)] && t.ring.readable == s.ring.readable
    else
      t.ring.readable == PublishedWith(s, p) &&
      t.accepted == s.accepted +
        if PublishedWith(s, p) == {} || next + s.geo.trySize < s.geo.size then [SR.Event(p, next, next, v)] else []
  }

  /** The system after one `write` call by `p`: the ring and the counters are those of
      `WriteCall`, and the item is logged exactly when the call returns true. */
  ghost predicate Wrote(s: SR.System, t: SR.System, p: nat, v: Item)
    requires SR.Typed(s) && p < |s.producers|
  {
    var (ring, P, ok) := WriteCall(s.geo, s.ring, s.producers[p], v);
    t.ring == ring && t.producers == s.producers[p := P] && t.delivered == s.delivered &&
    |t.accepted| == |s.accepted| + (if ok then 1 else 0) &&
    (ok ==> t.accepted[|s.accepted|].value == v && t.accepted[|s.accepted|].thread == p)
  }

  /** A `write` call is a run of the literal machine: a claim if the segment is used up, then,
      unless the claim was refused, one fill. It returns true exactly when the item is accepted. */
  lemma WriteCallIsARun(s: SR.System, p: nat, v: Item) returns (steps: seq<SR.Step>)
    requires RB.Base(s) && SR.Typed(s) && p < |s.producers|
    ensures SR.Runs(SR.Literal, s, steps)
    ensures Wrote(s, SR.After(SR.Literal, s, steps), p, v) && Accepts(s, SR.After(SR.Literal, s, steps), p, v)
  {
    var P := s.producers[p];
    if P.curWriteId < P.writableId {
      RR.Prepend(SR.Literal, s, SR.FillStep(p, v), []);
      steps := [SR.FillStep(p, v)] + [];
    } else {
      steps := ClaimThenFill(s, p, v);
    }
  }

  lemma ClaimThenFill(s: SR.System, p: nat, v: Item) returns (steps: seq<SR.Step>)
    requires RB.Base(s) && SR.Typed(s) && p < |s.producers| && s.producers[p].curWriteId >= s.producers[p].writableId
    ensures SR.Runs(SR.Literal, s, steps)
    ensures Wrote(s, SR.After(SR.Literal, s, steps), p, v) && Accepts(s, SR.After(SR.Literal, s, steps), p, v)
  {
    var P := s.producers[p];
    var readable := if P.Holds() then s.ring.readable + {SR.Held(P)} else s.ring.readable;
    var grant := SR.Guard(s.geo, readable, s.ring.writeId + s.geo.trySize);
    var claim := SR.ClaimStep(p, P.Holds(), grant);
    RC.GuardIn(s, readable);
    assert readable == PublishedWith(s, p);
    RB.StepKeepsBase(s, claim);
    RB.BaseIsTyped(SR.Apply(s, claim));
    if grant {
      GrantedCall(s, p, v);
      RR.Prepend(SR.Literal, SR.Apply(s, claim), SR.FillStep(p, v), []);
      RR.Prepend(SR.Literal, s, claim, [SR.FillStep(p, v)] + []);
      steps := [claim] + ([SR.FillStep(p, v)] + []);
    } else {
      RefusedCall(s, p, v);
      RR.Prepend(SR.Literal, s, claim, []);
      steps := [claim] + [];
    }
  }

  lemma RefusedCall(s: SR.System, p: nat, v: Item)
    requires p < |s.producers|
    requires var claim := SR.ClaimStep(p, s.producers[p].Holds(), false);
      SR.Enabled(s, claim) && SR.Allowed(SR.Literal, s, claim)
    ensures Wrote(s, SR.Apply(s, SR.ClaimStep(p, s.producers[p].Holds(), false)), p, v)
  {
  }

  lemma GrantedCall(s: SR.System, p: nat, v: Item)
    requires p < |s.producers|
    requires var claim := SR.ClaimStep(p, s.producers[p].Holds(), true);
      SR.Enabled(s, claim) && SR.Allowed(SR.Literal, s, claim) && SR.Typed(SR.Apply(s, claim))
    ensures var t := SR.Apply(s, SR.ClaimStep(p, s.producers[p].Holds(), true));
      SR.Enabled(t, SR.FillStep(p, v)) && Wrote(s, SR.Apply(t, SR.FillStep(p, v)), p, v)
  {
  }

  /** The system after one `read` call by `c` that did not have to wait. */
  ghost predicate WasRead(s: SR.System, t: SR.System, c: nat)
    requires SR.Typed(s) && c < |s.consumers| && !Waits(s.ring, s.consumers[c])
  {
    var (ring, C, v) := ReadCall(s.geo, s.ring, s.consumers[c]);
    t.ring == ring && t.consumers == s.consumers[c := C] && t.producers == s.producers &&
    |t.delivered| == |s.delivered| + 1 && t.delivered[|s.delivered|].value == v &&
    t.delivered[|s.delivered|].thread == c
  }

  /** A `read` call is a run of the literal machine: a take if the segment is drained, then a
      drain. It waits exactly when neither of these steps can be made. */
  lemma ReadCallIsARun(s: SR.System, c: nat) returns (steps: seq<SR.Step>)
    requires RB.Base(s) && SR.Typed(s) && c < |s.consumers|
    ensures SR.Runs(SR.Literal, s, steps)
    ensures Waits(s.ring, s.consumers[c]) <==> !SR.Enabled(s, SR.TakeStep(c)) && !SR.Enabled(s, SR.DrainStep(c))
    ensures if Waits(s.ring, s.consumers[c]) then steps == [] else WasRead(s, SR.After(SR.Literal, s, steps), c)
  {
    if Waits(s.ring, s.consumers[c]) {
      return [];
    }
    var drain := SR.DrainStep(c);
    if s.consumers[c].readId < s.consumers[c].readableId {
      RR.Prepend(SR.Literal, s, drain, []);
      steps := [drain] + [];
    } else {
      var take := SR.TakeStep(c);
      assert RB.SegmentOk(s, SR.Smallest(s.ring.readable));
      RB.StepKeepsBase(s, take);
      RB.BaseIsTyped(SR.Apply(s, take));
      RR.Prepend(SR.Literal, SR.Apply(s, take), drain, []);
      RR.Prepend(SR.Literal, s, take, [drain] + []);
      steps := [take] + ([drain] + []);
    }
  }
}
