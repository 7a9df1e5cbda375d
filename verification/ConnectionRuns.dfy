/** Messages of one connection over time. A message is copied when its bytes arrive and handled
    later, frame by frame, by a task of the thread pool, which takes each frame out of the live
    buffer. A message that arrives while an earlier copy still has a frame to be handled is copied
    together with that frame, which is then handled again. */
module ConnectionRuns {
  import opened HttpFraming
  import opened Pipeline
  import opened Sums

  // ------------------------------------------------------------------ bytes arriving in pieces

  /** More bytes behind a buffer leave its frames as they are and continue its tail. */
  lemma {:induction false} FramesContinue(a: string, more: string)
    ensures Frames(a + more) == Frames(a) + Frames(Tail(a) + more)
    ensures Tail(a + more) == Tail(Tail(a) + more)
    decreases |a|
  {
    if Parse(a).ok {
      PeelFirst(a);
      var f, rest := a[..Parse(a).end], a[Parse(a).end..];
      FramesContinue(rest, more);
      ContinueBehind(f, rest, more);
    }
  }

  lemma ContinueBehind(f: string, rest: string, more: string)
    requires IsFrame(f) && Frames(rest + more) == Frames(rest) + Frames(Tail(rest) + more)
    requires Tail(rest + more) == Tail(Tail(rest) + more)
    ensures Frames(f + rest + more) == Frames(f + rest) + Frames(Tail(f + rest) + more)
    ensures Tail(f + rest + more) == Tail(Tail(f + rest) + more)
  {
    AppendAssociates(f, rest, more);
    FrameThenRest(f, rest);
    FrameThenRest(f, rest + more);
    AppendAssociates([f], Frames(rest), Frames(Tail(rest) + more));
  }

  lemma TailIsIncomplete(b: string)
    ensures !Parse(Tail(b)).ok
  {
    BufferSplits(b);
  }

  /** One handled message after another, each starting from what the one before left. */
  function OverPieces(tail: string, pieces: seq<string>): (frames: seq<string>)
    decreases |pieces|
  {
    if pieces == [] then []
    else Frames(tail + pieces[0]) + OverPieces(Tail(tail + pieces[0]), pieces[1..])
  }

  /** However a byte stream is cut into pieces, the same frames are handled in the same order. */
  lemma {:induction false} CuttingDoesNotMatter(tail: string, pieces: seq<string>)
    requires !Parse(tail).ok
    ensures OverPieces(tail, pieces) == Frames(tail + Concat(pieces))
    decreases |pieces|
  {
    if pieces == [] {
      assert tail + Concat(pieces) == tail;
    } else {
      var a, later := tail + pieces[0], Concat(pieces[1..]);
      TailIsIncomplete(a);
      CuttingDoesNotMatter(Tail(a), pieces[1..]);
      FramesContinue(a, later);
      AppendAssociates(tail, pieces[0], later);
    }
  }

  // ------------------------------------------------------------------ copies and tasks

  /** The frames a task still has to handle from its copy, and where in the stream they start. */
  datatype Copy = Copy(todo: seq<string>, at: nat)

  /** A handled frame, and where in the stream its copy had it. */
  datatype Piece = Piece(at: nat, frame: string)

  /** The live buffer, the copies of tasks that have not ended, the frames handled so far, and
      all the bytes that have arrived. */
  datatype Link = Link(live: string, copies: seq<Copy>, handled: seq<Piece>, arrived: string)

  const FRESH := Link("", [], [], "")

  /** A message arrives; a task handles the first frame of what is left of its copy; a task
      finds no complete request and ends. The tasks interleave freely. */
  datatype Event =
    | Arrive(piece: string)
    | HandleOne(k: nat)
    | Finish(k: nat)

  predicate Busy(c: Copy) {
    c.todo != []
  }

  function Advance(c: Copy): Copy
    requires Busy(c)
  {
    Copy(c.todo[1..], c.at + |c.todo[0]|)
  }

  /** Where in the stream the live buffer starts. */
  function Start(s: Link): nat {
    if |s.live| <= |s.arrived| then |s.arrived| - |s.live| else 0
  }

  /** A copy of the live buffer. */
  function CopyOf(s: Link): Copy {
    Copy(Frames(s.live), Start(s))
  }

  predicate Possible(s: Link, e: Event) {
    match e
    case Arrive(_) => true
    case HandleOne(k) => k < |s.copies| && Busy(s.copies[k])
    case Finish(k) => k < |s.copies| && !Busy(s.copies[k])
  }

  function Perform(s: Link, e: Event): Link
    requires Possible(s, e)
  {
    match e
    case Arrive(piece) =>
      Link(s.live + piece, s.copies + [Copy(Frames(s.live + piece), Start(s))], s.handled, s.arrived + piece)
    case HandleOne(k) =>
      var c := s.copies[k];
      Link(DropUpTo(s.live, |c.todo[0]|), s.copies[k := Advance(c)], s.handled + [Piece(c.at, c.todo[0])], s.arrived)
    case Finish(k) =>
      s.(copies := s.copies[..k] + s.copies[k + 1..])
  }

  ghost predicate Plays(s: Link, events: seq<Event>)
    decreases |events|
  {
    events == [] || (Possible(s, events[0]) && Plays(Perform(s, events[0]), events[1..]))
  }

  ghost function Final(s: Link, events: seq<Event>): Link
    requires Plays(s, events)
    decreases |events|
  {
    if events == [] then s else Final(Perform(s, events[0]), events[1..])
  }

  /** No message of the run arrives while a copy still has a frame to be handled. */
  ghost predicate Calm(s: Link, events: seq<Event>)
    requires Plays(s, events)
    decreases |events|
  {
    events == [] ||
    ((events[0].Arrive? ==> BusyCopies(s.copies) == []) && Calm(Perform(s, events[0]), events[1..]))
  }

  /** The copies that still have a frame to be handled. */
  function BusyCopies(copies: seq<Copy>): seq<Copy>
    decreases |copies|
  {
    if copies == [] then [] else IfBusy(copies[0]) + BusyCopies(copies[1..])
  }

  function IfBusy(c: Copy): seq<Copy> {
    if Busy(c) then [c] else []
  }

  lemma {:induction false} BusyMembers(copies: seq<Copy>, c: Copy)
    ensures c in BusyCopies(copies) <==> c in copies && Busy(c)
  {
    if copies != [] {
      BusyMembers(copies[1..], c);
    }
  }

  // ------------------------------------------------------------------ the stream as pieces

  /** Frames that follow each other from `at` on. */
  function Mark(at: nat, frames: seq<string>): seq<Piece>
    decreases |frames|
  {
    if frames == [] then [] else [Piece(at, frames[0])] + Mark(at + |frames[0]|, frames[1..])
  }

  /** The frames of a stream, each with its place. */
  function Pieces(arrived: string): seq<Piece> {
    Mark(0, Frames(arrived))
  }

  function Texts(pieces: seq<Piece>): seq<string> {
    seq(|pieces|, i requires 0 <= i < |pieces| => pieces[i].frame)
  }

  ghost predicate NoPlaceTwice(pieces: seq<Piece>) {
    forall i, j :: 0 <= i < j < |pieces| ==> pieces[i].at != pieces[j].at
  }

  lemma {:induction false} MarkConcat(at: nat, a: seq<string>, b: seq<string>)
    ensures Mark(at, a + b) == Mark(at, a) + Mark(at + |Concat(a)|, b)
    decreases |a|
  {
    if a == [] {
      assert a + b == b;
    } else {
      assert (a + b)[1..] == a[1..] + b;
      MarkConcat(at + |a[0]|, a[1..], b);
      AppendAssociates([Piece(at, a[0])], Mark(at + |a[0]|, a[1..]), Mark(at + |Concat(a)|, b));
    }
  }

  lemma {:induction false} MarkedTexts(at: nat, frames: seq<string>)
    ensures Texts(Mark(at, frames)) == frames
    decreases |frames|
  {
    if frames != [] {
      var rest := Mark(at + |frames[0]|, frames[1..]);
      MarkedTexts(at + |frames[0]|, frames[1..]);
      assert Texts([Piece(at, frames[0])] + rest) == [frames[0]] + Texts(rest);
    }
  }

  lemma OneMorePlace(p: Piece, rest: seq<Piece>)
    requires NoPlaceTwice(rest) && forall r :: r in rest ==> r.at > p.at
    ensures NoPlaceTwice([p] + rest) && forall r :: r in [p] + rest ==> r.at >= p.at
  {
    forall i, j | 0 <= i < j < |[p] + rest|
      ensures ([p] + rest)[i].at != ([p] + rest)[j].at
    {
      assert ([p] + rest)[j] == rest[j - 1];
      assert i > 0 ==> ([p] + rest)[i] == rest[i - 1];
    }
  }

  lemma {:induction false} MarkedPlaces(at: nat, frames: seq<string>)
    requires "" !in frames
    ensures NoPlaceTwice(Mark(at, frames)) && forall p :: p in Mark(at, frames) ==> p.at >= at
    decreases |frames|
  {
    if frames != [] {
      assert frames[0] in frames;
      assert forall f :: f in frames[1..] ==> f in frames;
      var rest := Mark(at + |frames[0]|, frames[1..]);
      MarkedPlaces(at + |frames[0]|, frames[1..]);
      OneMorePlace(Piece(at, frames[0]), rest);
    }
  }

  lemma NoPlaceTwiceInStream(arrived: string)
    ensures NoPlaceTwice(Pieces(arrived))
  {
    FramesAreNotEmpty(arrived, |Frames(arrived)|);
    MarkedPlaces(0, Frames(arrived));
  }

  // ------------------------------------------------------------------ calm runs

  /** The only copy with a frame to be handled is the live buffer, if it has one. */
  ghost predicate InStep(s: Link) {
    BusyCopies(s.copies) == IfBusy(CopyOf(s))
  }

  /** What has been handled and what the live buffer holds are the pieces of the stream. */
  ghost predicate Accounted(s: Link) {
    |s.live| <= |s.arrived| && Pieces(s.arrived) == s.handled + Mark(Start(s), Frames(s.live)) &&
    Tail(s.arrived) == Tail(s.live)
  }

  lemma {:induction false} BusyConcat(a: seq<Copy>, b: seq<Copy>)
    ensures BusyCopies(a + b) == BusyCopies(a) + BusyCopies(b)
  {
    if a == [] {
      assert a + b == b;
    } else {
      assert (a + b)[1..] == a[1..] + b;
      BusyConcat(a[1..], b);
      AppendAssociates(IfBusy(a[0]), BusyCopies(a[1..]), BusyCopies(b));
    }
  }

  lemma BusyOne(c: Copy)
    ensures BusyCopies([c]) == IfBusy(c)
  {
    assert [c][1..] == [];
    assert IfBusy(c) + [] == IfBusy(c);
  }

  lemma BusyThree(a: seq<Copy>, c: Copy, b: seq<Copy>)
    ensures BusyCopies(a + ([c] + b)) == BusyCopies(a) + (IfBusy(c) + BusyCopies(b))
    ensures BusyCopies(a + b) == BusyCopies(a) + BusyCopies(b)
  {
    BusyConcat(a, [c] + b);
    BusyConcat([c], b);
    BusyConcat(a, b);
    BusyOne(c);
  }

  lemma ThreeParts<T>(xs: seq<T>, k: nat, x: T)
    requires k < |xs|
    ensures xs == xs[..k] + ([xs[k]] + xs[k + 1..])
    ensures xs[k := x] == xs[..k] + ([x] + xs[k + 1..])
  {
  }

  /** The copies with frames, around the k-th copy. */
  lemma BusyParts(copies: seq<Copy>, k: nat, c: Copy)
    requires k < |copies|
    ensures var a, b := BusyCopies(copies[..k]), BusyCopies(copies[k + 1..]);
      BusyCopies(copies) == a + (IfBusy(copies[k]) + b) && BusyCopies(copies[k := c]) == a + (IfBusy(c) + b) &&
      BusyCopies(copies[..k] + copies[k + 1..]) == a + b
  {
    ThreeParts(copies, k, c);
    BusyThree(copies[..k], copies[k], copies[k + 1..]);
    BusyThree(copies[..k], c, copies[k + 1..]);
  }

  lemma SoleElement<T>(a: seq<T>, x: T, b: seq<T>, y: T)
    requires a + ([x] + b) == [y]
    ensures a == [] && b == [] && x == y
  {
    assert |a + ([x] + b)| == |a| + 1 + |b|;
    assert (a + ([x] + b))[0] == x;
  }

  lemma NoFrames(b: string)
    requires !Parse(b).ok
    ensures Frames(b) == [] && Tail(b) == b
  {
  }

  /** A busy copy in step is the live buffer, and no other copy is busy. */
  lemma OnlyBusyCopy(s: Link, k: nat)
    requires InStep(s) && k < |s.copies| && Busy(s.copies[k])
    ensures s.copies[k] == CopyOf(s) && BusyCopies(s.copies) == [s.copies[k]]
  {
    BusyMembers(s.copies, s.copies[k]);
  }

  lemma ArriveKeepsInStep(s: Link, piece: string)
    requires BusyCopies(s.copies) == [] && |s.live| <= |s.arrived|
    ensures InStep(Perform(s, Arrive(piece)))
  {
    var t := Perform(s, Arrive(piece));
    BusyConcat(s.copies, [CopyOf(t)]);
    BusyOne(CopyOf(t));
    assert [] + IfBusy(CopyOf(t)) == IfBusy(CopyOf(t));
  }

  /** The bytes before the tail are the frames. */
  lemma FramesLength(b: string)
    ensures |Concat(Frames(b))| + |Tail(b)| == |b|
  {
    BufferSplits(b);
  }

  /** The frames of the stream and those of the live buffer end at the same place. */
  lemma SameEnd(s: Link)
    requires |s.live| <= |s.arrived| && Tail(s.arrived) == Tail(s.live)
    ensures |Concat(Frames(s.arrived))| == Start(s) + |Concat(Frames(s.live))|
  {
    FramesLength(s.arrived);
    FramesLength(s.live);
  }

  /** More frames behind both the stream and the live buffer. */
  lemma MoreMarks(handled: seq<Piece>, start: nat, fs: seq<string>, ls: seq<string>, more: seq<string>)
    requires Mark(0, fs) == handled + Mark(start, ls) && |Concat(fs)| == start + |Concat(ls)|
    ensures Mark(0, fs + more) == handled + Mark(start, ls + more)
  {
    MarkConcat(0, fs, more);
    MarkConcat(start, ls, more);
    AppendAssociates(handled, Mark(start, ls), Mark(|Concat(fs)|, more));
  }

  lemma LongerPieces(s: Link, piece: string)
    requires Accounted(s)
    ensures Pieces(s.arrived + piece) == s.handled + Mark(Start(s), Frames(s.live + piece))
  {
    SameEnd(s);
    MoreMarks(s.handled, Start(s), Frames(s.arrived), Frames(s.live), Frames(Tail(s.live) + piece));
    FramesContinue(s.arrived, piece);
    FramesContinue(s.live, piece);
  }

  lemma SameTail(a: string, b: string, more: string)
    requires Tail(a) == Tail(b)
    ensures Tail(a + more) == Tail(b + more)
  {
    FramesContinue(a, more);
    FramesContinue(b, more);
  }

  lemma ArriveKeepsAccounted(s: Link, piece: string)
    requires Accounted(s)
    ensures Accounted(Perform(s, Arrive(piece)))
  {
    LongerPieces(s, piece);
    SameTail(s.arrived, s.live, piece);
    assert Start(Perform(s, Arrive(piece))) == Start(s);
  }

  /** Taking the first frame out of the live buffer. */
  lemma LiveAdvances(s: Link, f: string)
    requires |s.live| <= |s.arrived| && Frames(s.live) != [] && f == Frames(s.live)[0]
    ensures |f| <= |s.live| && Tail(DropUpTo(s.live, |f|)) == Tail(s.live)
    ensures CopyOf(s.(live := DropUpTo(s.live, |f|))) == Advance(CopyOf(s))
  {
    PeelFirst(s.live);
    var rest := Frames(s.live[|f|..]);
    assert ([f] + rest)[1..] == rest;
  }

  /** The only busy copy goes on to its next frame. */
  lemma BusyAdvances(copies: seq<Copy>, k: nat)
    requires k < |copies| && BusyCopies(copies) == [copies[k]] && Busy(copies[k])
    ensures BusyCopies(copies[k := Advance(copies[k])]) == IfBusy(Advance(copies[k]))
  {
    var next := Advance(copies[k]);
    var a, b := BusyCopies(copies[..k]), BusyCopies(copies[k + 1..]);
    BusyParts(copies, k, next);
    SoleElement(a, copies[k], b, copies[k]);
    assert [] + (IfBusy(next) + []) == IfBusy(next);
  }

  lemma BusyRemoved(copies: seq<Copy>, k: nat)
    requires k < |copies| && !Busy(copies[k])
    ensures BusyCopies(copies[..k] + copies[k + 1..]) == BusyCopies(copies)
  {
    BusyParts(copies, k, copies[k]);
    assert [] + BusyCopies(copies[k + 1..]) == BusyCopies(copies[k + 1..]);
  }

  lemma HandledMark(handled: seq<Piece>, c: Copy)
    requires Busy(c)
    ensures handled + Mark(c.at, c.todo) == (handled + [Piece(c.at, c.todo[0])]) + Mark(Advance(c).at, Advance(c).todo)
  {
    AppendAssociates(handled, [Piece(c.at, c.todo[0])], Mark(Advance(c).at, Advance(c).todo));
  }

  lemma HandleKeeps(s: Link, k: nat)
    requires InStep(s) && Accounted(s) && k < |s.copies| && Busy(s.copies[k])
    ensures InStep(Perform(s, HandleOne(k))) && Accounted(Perform(s, HandleOne(k)))
  {
    var c := s.copies[k];
    OnlyBusyCopy(s, k);
    BusyAdvances(s.copies, k);
    LiveAdvances(s, c.todo[0]);
    HandledMark(s.handled, c);
    InStepAfter(s, Perform(s, HandleOne(k)), Advance(c));
  }

  /** The pieces of the stream, once the live buffer is what `next` was copied from. */
  lemma InStepAfter(s: Link, t: Link, next: Copy)
    requires CopyOf(t) == next && BusyCopies(t.copies) == IfBusy(next) && |t.live| <= |s.live|
    requires Accounted(s) && t.arrived == s.arrived && Tail(t.live) == Tail(s.live)
    requires s.handled + Mark(Start(s), Frames(s.live)) == t.handled + Mark(next.at, next.todo)
    ensures InStep(t) && Accounted(t)
  {
  }

  lemma FinishKeeps(s: Link, k: nat)
    requires InStep(s) && Accounted(s) && k < |s.copies| && !Busy(s.copies[k])
    ensures InStep(Perform(s, Finish(k))) && Accounted(Perform(s, Finish(k)))
  {
    BusyRemoved(s.copies, k);
    InStepAfter(s, Perform(s, Finish(k)), CopyOf(s));
  }

  lemma ArriveKeeps(s: Link, piece: string)
    requires BusyCopies(s.copies) == [] && Accounted(s)
    ensures InStep(Perform(s, Arrive(piece))) && Accounted(Perform(s, Arrive(piece)))
  {
    ArriveKeepsInStep(s, piece);
    ArriveKeepsAccounted(s, piece);
  }

  lemma CalmEventKeeps(s: Link, e: Event)
    requires InStep(s) && Accounted(s) && Possible(s, e) && (e.Arrive? ==> BusyCopies(s.copies) == [])
    ensures InStep(Perform(s, e)) && Accounted(Perform(s, e))
  {
    match e
    case Arrive(piece) => ArriveKeeps(s, piece);
    case HandleOne(k) => HandleKeeps(s, k);
    case Finish(k) => FinishKeeps(s, k);
  }

  lemma {:induction false} CalmKeeps(s: Link, events: seq<Event>)
    requires InStep(s) && Accounted(s) && Plays(s, events) && Calm(s, events)
    ensures InStep(Final(s, events)) && Accounted(Final(s, events))
    decreases |events|
  {
    if events != [] {
      CalmEventKeeps(s, events[0]);
      CalmKeeps(Perform(s, events[0]), events[1..]);
    }
  }

  lemma FreshIsInStep()
    ensures InStep(FRESH) && Accounted(FRESH)
  {
    NoFrames("");
  }

  lemma DrainedInStep(s: Link)
    requires InStep(s) && Accounted(s) && s.copies == []
    ensures s.handled == Pieces(s.arrived) && s.live == Tail(s.arrived)
  {
    assert !Parse(s.live).ok;
    NoFrames(s.live);
    assert s.handled + [] == s.handled;
  }

  /** While no message arrives on a busy link, the frames handled are the first of the stream,
      each from its own place, the live buffer holds the others, and once all tasks have ended
      all of them have been handled, in order and once each. */
  lemma CalmRunsHandleTheStream(events: seq<Event>)
    requires Plays(FRESH, events) && Calm(FRESH, events)
    ensures var s := Final(FRESH, events);
      Accounted(s) && (s.copies == [] ==>
        s.handled == Pieces(s.arrived) && Texts(s.handled) == Frames(s.arrived) && s.live == Tail(s.arrived))
  {
    FreshIsInStep();
    CalmKeeps(FRESH, events);
    var s := Final(FRESH, events);
    if s.copies == [] {
      DrainedInStep(s);
      MarkedTexts(0, Frames(s.arrived));
    }
  }

  // ------------------------------------------------------------------ a place promised twice

  function AtCopy(c: Copy, place: nat): nat {
    if c.at == place && Busy(c) then 1 else 0
  }

  function AtPiece(p: Piece, place: nat): nat {
    if p.at == place then 1 else 0
  }

  function CopiesAt(copies: seq<Copy>, place: nat): seq<nat> {
    seq(|copies|, k requires 0 <= k < |copies| => AtCopy(copies[k], place))
  }

  function PiecesAt(pieces: seq<Piece>, place: nat): seq<nat> {
    seq(|pieces|, i requires 0 <= i < |pieces| => AtPiece(pieces[i], place))
  }

  /** How often a frame at this place has been handled, or is about to be by some task. */
  function Promised(s: Link, place: nat): nat {
    Sum(PiecesAt(s.handled, place)) + Sum(CopiesAt(s.copies, place))
  }

  lemma ArriveKeepsPromises(s: Link, piece: string, place: nat)
    ensures Promised(Perform(s, Arrive(piece)), place) ==
      Promised(s, place) + AtCopy(Copy(Frames(s.live + piece), Start(s)), place)
  {
    var c := Copy(Frames(s.live + piece), Start(s));
    assert CopiesAt(s.copies + [c], place) == CopiesAt(s.copies, place) + [AtCopy(c, place)];
    SumAppend(CopiesAt(s.copies, place), AtCopy(c, place));
  }

  /** A frame that is handled is counted as handled, and no longer as promised. */
  lemma HandleKeepsPromises(s: Link, k: nat, place: nat)
    requires k < |s.copies| && Busy(s.copies[k])
    ensures Promised(Perform(s, HandleOne(k)), place) >= Promised(s, place)
  {
    var c, next := s.copies[k], Advance(s.copies[k]);
    var p := Piece(c.at, c.todo[0]);
    assert CopiesAt(s.copies[k := next], place) == CopiesAt(s.copies, place)[k := AtCopy(next, place)];
    SumUpdate(CopiesAt(s.copies, place), k, AtCopy(next, place));
    assert PiecesAt(s.handled + [p], place) == PiecesAt(s.handled, place) + [AtPiece(p, place)];
    SumAppend(PiecesAt(s.handled, place), AtPiece(p, place));
  }

  lemma FinishKeepsPromises(s: Link, k: nat, place: nat)
    requires k < |s.copies| && !Busy(s.copies[k])
    ensures Promised(Perform(s, Finish(k)), place) == Promised(s, place)
  {
    var a, b := s.copies[..k], s.copies[k + 1..];
    assert CopiesAt(a + b, place) == CopiesAt(s.copies, place)[..k] + CopiesAt(s.copies, place)[k + 1..];
    SumRemove(CopiesAt(s.copies, place), k);
  }

  /** What is promised is kept, whatever happens next. */
  lemma {:induction false} PromisesAreKept(s: Link, events: seq<Event>, place: nat)
    requires Plays(s, events)
    ensures Promised(Final(s, events), place) >= Promised(s, place)
    decreases |events|
  {
    if events != [] {
      match events[0] {
        case Arrive(piece) => ArriveKeepsPromises(s, piece, place);
        case HandleOne(k) => HandleKeepsPromises(s, k, place);
        case Finish(k) => FinishKeepsPromises(s, k, place);
      }
      PromisesAreKept(Perform(s, events[0]), events[1..], place);
    }
  }

  lemma {:induction false} CountedOnce(pieces: seq<Piece>, place: nat)
    requires NoPlaceTwice(pieces)
    ensures Sum(PiecesAt(pieces, place)) <= 1
    ensures (forall p :: p in pieces ==> p.at != place) ==> Sum(PiecesAt(pieces, place)) == 0
  {
    if pieces != [] {
      var last := |pieces| - 1;
      CountedOnce(pieces[..last], place);
      assert PiecesAt(pieces, place)[..last] == PiecesAt(pieces[..last], place);
      assert forall p :: p in pieces[..last] ==> p in pieces && p.at != pieces[last].at;
    }
  }

  lemma SumHasPart(xs: seq<nat>, k: nat)
    requires k < |xs|
    ensures Sum(xs) >= xs[k]
  {
    SumUpdate(xs, k, xs[k]);
  }

  lemma MoreBehind(b: string, more: string)
    requires Frames(b) != []
    ensures Frames(b + more) != []
  {
    FramesContinue(b, more);
  }

  /** A message on a busy link: its copy starts where the busy one does. */
  lemma BusyArrivalPromisesTwice(s: Link, piece: string)
    requires InStep(s) && BusyCopies(s.copies) != []
    ensures Promised(Perform(s, Arrive(piece)), Start(s)) >= 2
  {
    var c := CopyOf(s);
    assert BusyCopies(s.copies) == [c];
    BusyMembers(s.copies, c);
    var k :| 0 <= k < |s.copies| && s.copies[k] == c;
    SumHasPart(CopiesAt(s.copies, Start(s)), k);
    MoreBehind(s.live, piece);
    ArriveKeepsPromises(s, piece, Start(s));
  }

  /** In a run that is not calm some place is promised twice. */
  lemma {:induction false} NotCalmPromisesTwice(s: Link, events: seq<Event>) returns (place: nat)
    requires InStep(s) && Accounted(s) && Plays(s, events) && !Calm(s, events)
    ensures Promised(Final(s, events), place) >= 2
    decreases |events|
  {
    var e := events[0];
    if e.Arrive? && BusyCopies(s.copies) != [] {
      place := Start(s);
      BusyArrivalPromisesTwice(s, e.piece);
      PromisesAreKept(Perform(s, e), events[1..], place);
    } else {
      CalmEventKeeps(s, e);
      place := NotCalmPromisesTwice(Perform(s, e), events[1..]);
    }
  }

  /** Over every run from the empty connection in which all tasks have ended: the frames handled
      are those of the stream, in order and each from its own place, if and only if no message
      arrived on a busy link, and exactly otherwise some place is handled twice. */
  lemma HandledOnceIffCalm(events: seq<Event>)
    requires Plays(FRESH, events) && Final(FRESH, events).copies == []
    ensures var s := Final(FRESH, events);
      (Calm(FRESH, events) <==> s.handled == Pieces(s.arrived)) && (Calm(FRESH, events) <==> NoPlaceTwice(s.handled))
  {
    FreshIsInStep();
    var s := Final(FRESH, events);
    NoPlaceTwiceInStream(s.arrived);
    if Calm(FRESH, events) {
      CalmKeeps(FRESH, events);
      DrainedInStep(s);
    } else {
      var place := NotCalmPromisesTwice(FRESH, events);
      assert Sum(CopiesAt([], place)) == 0;
      if NoPlaceTwice(s.handled) {
        CountedOnce(s.handled, place);
      }
    }
  }

  // ------------------------------------------------------------------ how much is handled

  /** All pieces that the tasks still have to handle. */
  ghost function Due(copies: seq<Copy>): multiset<Piece> {
    if copies == [] then multiset{}
    else multiset(Mark(copies[0].at, copies[0].todo)) + Due(copies[1..])
  }

  lemma {:induction false} DueConcat(a: seq<Copy>, b: seq<Copy>)
    ensures Due(a + b) == Due(a) + Due(b)
  {
    if a == [] {
      assert a + b == b;
    } else {
      assert (a + b)[1..] == a[1..] + b;
      DueConcat(a[1..], b);
    }
  }

  lemma DueOne(c: Copy)
    ensures Due([c]) == multiset(Mark(c.at, c.todo))
  {
    assert [c][1..] == [];
  }

  lemma DueThree(a: seq<Copy>, c: Copy, b: seq<Copy>)
    ensures Due(a + ([c] + b)) == Due(a) + multiset(Mark(c.at, c.todo)) + Due(b)
  {
    DueConcat(a, [c] + b);
    DueConcat([c], b);
    DueOne(c);
  }

  lemma DueHead(c: Copy)
    requires Busy(c)
    ensures multiset(Mark(c.at, c.todo)) ==
      multiset{Piece(c.at, c.todo[0])} + multiset(Mark(Advance(c).at, Advance(c).todo))
  {
    var p := Piece(c.at, c.todo[0]);
    AsMultisets(Mark(c.at, c.todo), [p], Mark(Advance(c).at, Advance(c).todo));
    assert multiset([p]) == multiset{p};
  }

  lemma DueAdvance(copies: seq<Copy>, k: nat)
    requires k < |copies| && Busy(copies[k])
    ensures Due(copies) == Due(copies[k := Advance(copies[k])]) + multiset{Piece(copies[k].at, copies[k].todo[0])}
  {
    var next := Advance(copies[k]);
    ThreeParts(copies, k, next);
    DueThree(copies[..k], copies[k], copies[k + 1..]);
    DueThree(copies[..k], next, copies[k + 1..]);
    DueHead(copies[k]);
  }

  lemma AsMultisets<T>(all: seq<T>, a: seq<T>, b: seq<T>)
    requires all == a + b
    ensures multiset(all) == multiset(a) + multiset(b)
  {
  }

  lemma DueRemoved(copies: seq<Copy>, k: nat)
    requires k < |copies| && !Busy(copies[k])
    ensures Due(copies) == Due(copies[..k] + copies[k + 1..])
  {
    ThreeParts(copies, k, copies[k]);
    DueThree(copies[..k], copies[k], copies[k + 1..]);
    DueConcat(copies[..k], copies[k + 1..]);
  }

  ghost predicate TasksOnly(events: seq<Event>) {
    forall i :: 0 <= i < |events| ==> !events[i].Arrive?
  }

  /** In any order and whatever the live buffer holds, the tasks handle what their copies hold. */
  lemma {:induction false} TasksHandleTheirCopies(s: Link, tasks: seq<Event>)
    requires Plays(s, tasks) && TasksOnly(tasks)
    ensures var u := Final(s, tasks);
      u.arrived == s.arrived && multiset(u.handled) + Due(u.copies) == multiset(s.handled) + Due(s.copies)
    decreases |tasks|
  {
    if tasks != [] {
      var e := tasks[0];
      assert !e.Arrive?;
      if e.HandleOne? {
        DueAdvance(s.copies, e.k);
      } else {
        DueRemoved(s.copies, e.k);
      }
      assert TasksOnly(tasks[1..]);
      TasksHandleTheirCopies(Perform(s, e), tasks[1..]);
    }
  }

  lemma {:induction false} DueIsBusy(copies: seq<Copy>)
    ensures Due(copies) == Due(BusyCopies(copies))
  {
    if copies != [] {
      DueIsBusy(copies[1..]);
      DueConcat(IfBusy(copies[0]), BusyCopies(copies[1..]));
      DueIfBusy(copies[0]);
    }
  }

  lemma DueIfBusy(c: Copy)
    ensures Due(IfBusy(c)) == multiset(Mark(c.at, c.todo))
  {
    if Busy(c) {
      DueOne(c);
    }
  }

  lemma DueAfterMessage(s: Link, piece: string)
    requires InStep(s)
    ensures Due(Perform(s, Arrive(piece)).copies) ==
      multiset(Mark(Start(s), Frames(s.live))) + multiset(Mark(Start(s), Frames(s.live + piece)))
  {
    DueIsBusy(s.copies);
    DueIfBusy(CopyOf(s));
    DueConcat(s.copies, [Copy(Frames(s.live + piece), Start(s))]);
    DueOne(Copy(Frames(s.live + piece), Start(s)));
  }

  lemma StreamAfterMessage(s: Link, piece: string)
    requires Accounted(s)
    ensures multiset(Pieces(s.arrived + piece)) == multiset(s.handled) + multiset(Mark(Start(s), Frames(s.live + piece)))
  {
    LongerPieces(s, piece);
    AsMultisets(Pieces(s.arrived + piece), s.handled, Mark(Start(s), Frames(s.live + piece)));
  }

  lemma TasksHandleAll(t: Link, tasks: seq<Event>)
    requires Plays(t, tasks) && TasksOnly(tasks) && Final(t, tasks).copies == []
    ensures Final(t, tasks).arrived == t.arrived
    ensures multiset(Final(t, tasks).handled) == multiset(t.handled) + Due(t.copies)
  {
    TasksHandleTheirCopies(t, tasks);
    assert Due([]) == multiset{};
  }

  /** After a calm run one more message arrives, and the tasks run to their ends in any order. The
      pieces handled are those of the stream, and once more those the live buffer already held. */
  lemma HandledAfterMessage(events: seq<Event>, piece: string, tasks: seq<Event>)
    requires Plays(FRESH, events) && Calm(FRESH, events)
    requires var t := Perform(Final(FRESH, events), Arrive(piece)); Plays(t, tasks) && TasksOnly(tasks) && Final(t, tasks).copies == []
    ensures var s := Final(FRESH, events);
      var u := Final(Perform(s, Arrive(piece)), tasks);
      u.arrived == s.arrived + piece &&
      multiset(u.handled) == multiset(Pieces(u.arrived)) + multiset(Mark(Start(s), Frames(s.live)))
  {
    FreshIsInStep();
    CalmKeeps(FRESH, events);
    var s := Final(FRESH, events);
    TasksHandleAll(Perform(s, Arrive(piece)), tasks);
    DueAfterMessage(s, piece);
    StreamAfterMessage(s, piece);
  }

  // ------------------------------------------------------------------ a task on its own

  /** The link after the task of copy `k` has run to its end without a break. */
  function TaskDone(s: Link, k: nat): Link
    requires k < |s.copies|
  {
    var c := s.copies[k];
    Link(DropUpTo(s.live, |Concat(c.todo)|), s.copies[..k] + s.copies[k + 1..], s.handled + Mark(c.at, c.todo), s.arrived)
  }

  lemma PlayOne(s: Link, e: Event, rest: seq<Event>)
    requires Possible(s, e) && Plays(Perform(s, e), rest)
    ensures Plays(s, [e] + rest) && Final(s, [e] + rest) == Final(Perform(s, e), rest)
  {
    assert ([e] + rest)[1..] == rest;
  }

  lemma SameOthers<T>(xs: seq<T>, k: nat, x: T)
    requires k < |xs|
    ensures xs[k := x][..k] + xs[k := x][k + 1..] == xs[..k] + xs[k + 1..]
  {
  }

  lemma TaskGoesOn(s: Link, k: nat)
    requires k < |s.copies| && Busy(s.copies[k])
    ensures TaskDone(Perform(s, HandleOne(k)), k) == TaskDone(s, k)
  {
    var c := s.copies[k];
    var f, later := c.todo[0], c.todo[1..];
    SameOthers(s.copies, k, Advance(c));
    AppendAssociates(s.handled, [Piece(c.at, f)], Mark(c.at + |f|, later));
    DropTwice(s.live, |f|, |Concat(later)|);
  }

  lemma TaskIsOver(s: Link, k: nat)
    requires k < |s.copies| && !Busy(s.copies[k])
    ensures TaskDone(s, k) == Perform(s, Finish(k))
  {
    assert s.handled + [] == s.handled;
  }

  lemma {:induction false} TaskIsARun(s: Link, k: nat) returns (events: seq<Event>)
    requires k < |s.copies|
    ensures Plays(s, events) && TasksOnly(events) && Final(s, events) == TaskDone(s, k)
    decreases |s.copies[k].todo|
  {
    if Busy(s.copies[k]) {
      TaskGoesOn(s, k);
      var rest := TaskIsARun(Perform(s, HandleOne(k)), k);
      PlayOne(s, HandleOne(k), rest);
      events := [HandleOne(k)] + rest;
    } else {
      TaskIsOver(s, k);
      PlayOne(s, Finish(k), []);
      events := [Finish(k)] + [];
      assert Final(Perform(s, Finish(k)), []) == Perform(s, Finish(k));
    }
  }

  lemma PlayHead(s: Link, events: seq<Event>)
    requires Plays(s, events) && events != []
    ensures Possible(s, events[0]) && Plays(Perform(s, events[0]), events[1..])
    ensures Final(s, events) == Final(Perform(s, events[0]), events[1..])
  {
  }

  lemma ConsAppend<T>(first: seq<T>, second: seq<T>)
    requires first != []
    ensures first + second == [first[0]] + (first[1..] + second)
  {
  }

  lemma {:induction false} PlayOn(s: Link, first: seq<Event>, second: seq<Event>)
    requires Plays(s, first) && Plays(Final(s, first), second)
    ensures Plays(s, first + second) && Final(s, first + second) == Final(Final(s, first), second)
    decreases |first|
  {
    if first == [] {
      assert first + second == second;
    } else {
      PlayHead(s, first);
      PlayOn(Perform(s, first[0]), first[1..], second);
      PlayOne(s, first[0], first[1..] + second);
      ConsAppend(first, second);
    }
  }

  // ------------------------------------------------------------------ from the empty connection

  lemma TwoFrames(a: string, b: string)
    requires IsFrame(a) && IsFrame(b)
    ensures Frames(a) == [a] && Frames(a + b) == [a, b]
  {
    WholeFrame(a);
    WholeFrame(b);
    FrameThenRest(a, b);
  }

  lemma FirstTaskDone(s: Link, fs: seq<string>)
    requires s.copies != [] && s.copies[0].todo == fs
    ensures TaskDone(s, 0) == Link(DropUpTo(s.live, |Concat(fs)|), s.copies[1..], s.handled + Mark(s.copies[0].at, fs), s.arrived)
  {
    assert s.copies[..0] + s.copies[0 + 1..] == s.copies[1..];
  }

  /** The first two tasks, one after the other. */
  lemma TwoTasks(s: Link) returns (events: seq<Event>)
    requires |s.copies| == 2
    ensures Plays(s, events) && Final(s, events) == TaskDone(TaskDone(s, 0), 0)
  {
    var first := TaskIsARun(s, 0);
    var second := TaskIsARun(TaskDone(s, 0), 0);
    PlayOn(s, first, second);
    events := first + second;
  }

  /** The first message on an empty connection, and the second before any task has begun. */
  lemma FirstMessage(a: string, fs: seq<string>)
    requires Frames(a) == fs
    ensures Perform(FRESH, Arrive(a)) == Link(a, [Copy(fs, 0)], [], a)
  {
    assert "" + a == a;
    assert [] + [Copy(fs, 0)] == [Copy(fs, 0)];
  }

  lemma SecondMessage(a: string, more: string, fs: seq<string>, gs: seq<string>)
    requires Frames(a + more) == gs
    ensures Perform(Link(a, [Copy(fs, 0)], [], a), Arrive(more)) == Link(a + more, [Copy(fs, 0), Copy(gs, 0)], [], a + more)
  {
    assert [Copy(fs, 0)] + [Copy(gs, 0)] == [Copy(fs, 0), Copy(gs, 0)];
  }

  lemma TwoTasksDone(s: Link, a: string, more: string, fs: seq<string>, gs: seq<string>)
    requires s == Link(a + more, [Copy(fs, 0), Copy(gs, 0)], [], a + more)
    ensures TaskDone(TaskDone(s, 0), 0) ==
      Link(DropUpTo(DropUpTo(a + more, |Concat(fs)|), |Concat(gs)|), [], Mark(0, fs) + Mark(0, gs), a + more)
  {
    FirstTaskDone(s, fs);
    var t := TaskDone(s, 0);
    assert t.copies == [Copy(gs, 0)];
    FirstTaskDone(t, gs);
    assert [] + Mark(0, fs) == Mark(0, fs);
  }

  /** A second message before the first is handled, then both tasks in their order. */
  lemma TwoMessagesTwoTasks(a: string, more: string, fs: seq<string>, gs: seq<string>) returns (events: seq<Event>)
    requires Frames(a) == fs && Frames(a + more) == gs
    ensures Plays(FRESH, events)
    ensures Final(FRESH, events) ==
      Link(DropUpTo(DropUpTo(a + more, |Concat(fs)|), |Concat(gs)|), [], Mark(0, fs) + Mark(0, gs), a + more)
  {
    FirstMessage(a, fs);
    var s1 := Link(a, [Copy(fs, 0)], [], a);
    SecondMessage(a, more, fs, gs);
    var s2 := Link(a + more, [Copy(fs, 0), Copy(gs, 0)], [], a + more);
    TwoTasksDone(s2, a, more, fs, gs);
    var tasks := TwoTasks(s2);
    PlayOne(s1, Arrive(more), tasks);
    PlayOne(FRESH, Arrive(a), [Arrive(more)] + tasks);
    events := [Arrive(a)] + ([Arrive(more)] + tasks);
  }

  lemma MarkedOne(a: string)
    ensures Mark(0, [a]) == [Piece(0, a)]
  {
    assert [a][1..] == [];
    assert [Piece(0, a)] + [] == [Piece(0, a)];
  }

  lemma MarkedTwo(a: string, b: string)
    ensures Mark(0, [a, b]) == [Piece(0, a), Piece(|a|, b)]
  {
    assert [a, b] == [a] + [b];
    MarkConcat(0, [a], [b]);
    MarkedOne(a);
    OneFrame(a);
    assert [b][1..] == [];
    assert Mark(|a|, [b]) == [Piece(|a|, b)] + [];
  }

  /** Two requests in quick succession on an empty connection: the first is handled twice. */
  lemma TwoQuickRequests(a: string, b: string) returns (events: seq<Event>)
    requires IsFrame(a) && IsFrame(b)
    ensures Plays(FRESH, events)
    ensures var s := Final(FRESH, events);
      s.copies == [] && s.handled == [Piece(0, a), Piece(0, a), Piece(|a|, b)] && Pieces(s.arrived) == [Piece(0, a), Piece(|a|, b)]
  {
    TwoFrames(a, b);
    events := TwoMessagesTwoTasks(a, b, [a], [a, b]);
    ThreePieces(a, b);
    MarkedTwo(a, b);
  }

  lemma ThreePieces(a: string, b: string)
    ensures Mark(0, [a]) + Mark(0, [a, b]) == [Piece(0, a), Piece(0, a), Piece(|a|, b)]
  {
    MarkedOne(a);
    MarkedTwo(a, b);
    assert [Piece(0, a)] + [Piece(0, a), Piece(|a|, b)] == [Piece(0, a), Piece(0, a), Piece(|a|, b)];
  }

  lemma StartOfFrame(a: string, b: string, n: nat)
    requires IsFrame(a) && IsFrame(b) && n < |b|
    ensures Frames(a + b[..n]) == [a]
  {
    ShorterPrefixIsIncomplete(b, n);
    NoFrames(b[..n]);
    FrameThenRest(a, b[..n]);
  }

  /** A request and the start of another: the request is handled twice, the start is gone. */
  lemma QuickStart(a: string, b: string, n: nat) returns (events: seq<Event>)
    requires IsFrame(a) && IsFrame(b) && n < |b| && n <= |a|
    ensures Plays(FRESH, events) && Final(FRESH, events) == Link("", [], [Piece(0, a), Piece(0, a)], a + b[..n])
  {
    TwoFrames(a, b);
    StartOfFrame(a, b, n);
    events := SameTaskTwice(a, b[..n]);
  }

  /** Two tasks that both find only the first message's request. */
  lemma SameTaskTwice(a: string, more: string) returns (events: seq<Event>)
    requires Frames(a) == [a] && Frames(a + more) == [a] && |more| <= |a|
    ensures Plays(FRESH, events) && Final(FRESH, events) == Link("", [], [Piece(0, a), Piece(0, a)], a + more)
  {
    events := TwoMessagesTwoTasks(a, more, [a], [a]);
    OneFrame(a);
    MarkedOne(a);
    DropBoth(a, more);
    assert [Piece(0, a)] + [Piece(0, a)] == [Piece(0, a), Piece(0, a)];
  }

  lemma DropBoth(a: string, b: string)
    requires |b| <= |a|
    ensures DropUpTo(DropUpTo(a + b, |a|), |a|) == ""
  {
    assert (a + b)[|a|..] == b;
    assert b[|b|..] == "";
  }

  /** Taking out what is no longer there costs bytes of the next request: a request whose first
      part arrives too early is never handled, unless what follows is a request by itself. */
  lemma QuickStartLosesARequest(a: string, b: string, n: nat) returns (events: seq<Event>)
    requires IsFrame(a) && IsFrame(b) && n < |b| && n <= |a| && !Parse(b[n..]).ok
    ensures Plays(FRESH, events)
    ensures var s := Final(FRESH, events);
      s.copies == [] && s.handled == [Piece(0, a), Piece(0, a)] && s.live == b[n..] &&
      Pieces(s.arrived) == [Piece(0, a), Piece(|a|, b)] && forall p :: p in s.handled ==> p.at != |a|
  {
    TwoFrames(a, b);
    MarkedTwo(a, b);
    FrameFits(a);
    var first := QuickStart(a, b, n);
    var last := OneMoreMessage(Final(FRESH, first), b[n..]);
    PlayOn(FRESH, first, last);
    events := first + last;
    CutAt(b, n);
    AppendAssociates(a, b[..n], b[n..]);
  }

  lemma OneMoreMessage(s: Link, more: string) returns (events: seq<Event>)
    requires s.copies == [] && s.live == "" && !Parse(more).ok
    ensures Plays(s, events) && Final(s, events) == Link(more, [], s.handled, s.arrived + more)
  {
    var s1 := Perform(s, Arrive(more));
    NoFrames(more);
    assert "" + more == more && s.copies + [Copy([], Start(s))] == [Copy([], Start(s))];
    var s2 := Perform(s1, Finish(0));
    assert s2 == Link(more, [], s.handled, s.arrived + more);
    PlayOne(s1, Finish(0), []);
    PlayOne(s, Arrive(more), [Finish(0)] + []);
    events := [Arrive(more)] + ([Finish(0)] + []);
    assert Final(s2, []) == s2;
  }
}
