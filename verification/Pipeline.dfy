/** The loop of ProxyServer::solveOnMessage: it peels complete requests off a copied buffer,
    answers those the cache holds and forwards the others through the tunnel, in order
    (pipelining as in section 6.3.2 of RFC 7230). */
module Pipeline {
  import opened HttpFraming
  import HR = HttpRender

  /** The name the source compares request methods with. */
  const GET_METHOD := "Get"

  /** The request is answered from the cache. */
  predicate Cached(frame: string, lookup: string -> string) {
    Parse(frame).httpMethod == GET_METHOD && lookup(Parse(frame).url) != ""
  }

  /** What the cache answers to a frame, if anything. */
  function Reply(frame: string, lookup: string -> string): seq<string> {
    if Cached(frame, lookup) then [lookup(Parse(frame).url)] else []
  }

  function Pass(frame: string, lookup: string -> string): seq<string> {
    if Cached(frame, lookup) then [] else [frame]
  }

  /** The frames the cache does not answer, in order. */
  function Missed(frames: seq<string>, lookup: string -> string): seq<string> {
    if frames == [] then []
    else Pass(frames[0], lookup) + Missed(frames[1..], lookup)
  }

  /** What the cache answers, in order. */
  function Answers(frames: seq<string>, lookup: string -> string): seq<string> {
    if frames == [] then []
    else Reply(frames[0], lookup) + Answers(frames[1..], lookup)
  }

  function Urls(frames: seq<string>): seq<string> {
    seq(|frames|, k requires 0 <= k < |frames| => Parse(frames[k]).url)
  }

  /** The frames of `b` that are handled when the connection is found connected `checks` times. */
  function Handled(b: string, checks: nat): seq<string> {
    if |Frames(b)| <= checks then Frames(b) else Frames(b)[..checks]
  }

  /** The bytes that stay in the buffer. */
  function Left(b: string, checks: nat): string {
    if |Frames(b)| <= checks then Tail(b) else Concat(Frames(b)[checks..]) + Tail(b)
  }

  // ------------------------------------------------------------------ what it amounts to

  lemma TailOfAppend(a: seq<string>, f: string)
    requires a != []
    ensures (a + [f])[1..] == a[1..] + [f] && (a + [f])[0] == a[0]
  {
  }

  lemma AppendAssociates<T>(a: seq<T>, b: seq<T>, c: seq<T>)
    ensures (a + b) + c == a + (b + c)
  {
  }

  lemma {:induction false} MissedAppend(a: seq<string>, f: string, lookup: string -> string)
    ensures Missed(a + [f], lookup) == Missed(a, lookup) + Pass(f, lookup)
  {
    if a == [] {
      assert a + [f] == [f] && [f][1..] == [];
    } else {
      TailOfAppend(a, f);
      MissedAppend(a[1..], f, lookup);
      AppendAssociates(Pass(a[0], lookup), Missed(a[1..], lookup), Pass(f, lookup));
    }
  }

  lemma {:induction false} AnswersAppend(a: seq<string>, f: string, lookup: string -> string)
    ensures Answers(a + [f], lookup) == Answers(a, lookup) + Reply(f, lookup)
  {
    if a == [] {
      assert a + [f] == [f] && [f][1..] == [];
    } else {
      TailOfAppend(a, f);
      AnswersAppend(a[1..], f, lookup);
      AppendAssociates(Reply(a[0], lookup), Answers(a[1..], lookup), Reply(f, lookup));
    }
  }

  lemma UrlsAppend(a: seq<string>, f: string)
    ensures Urls(a + [f]) == Urls(a) + [Parse(f).url]
  {
  }

  lemma LogAnswer(done: seq<string>, f: string, lookup: string -> string)
    requires Cached(f, lookup)
    ensures Answers(done + [f], lookup) == Answers(done, lookup) + [lookup(Parse(f).url)]
    ensures Missed(done + [f], lookup) == Missed(done, lookup)
  {
    AnswersAppend(done, f, lookup);
    MissedAppend(done, f, lookup);
  }

  lemma LogForward(done: seq<string>, f: string, lookup: string -> string)
    requires !Cached(f, lookup)
    ensures Answers(done + [f], lookup) == Answers(done, lookup)
    ensures Missed(done + [f], lookup) == Missed(done, lookup) + [f]
    ensures Urls(Missed(done + [f], lookup)) == Urls(Missed(done, lookup)) + [Parse(f).url]
  {
    AnswersAppend(done, f, lookup);
    MissedAppend(done, f, lookup);
    UrlsAppend(Missed(done, lookup), f);
  }

  lemma {:induction false} NothingCachedNothingMissed(frames: seq<string>, lookup: string -> string)
    requires forall f :: f in frames ==> !Cached(f, lookup)
    ensures Missed(frames, lookup) == frames && Answers(frames, lookup) == []
  {
    if frames != [] {
      NothingCachedNothingMissed(frames[1..], lookup);
    }
  }

  /** Every handled frame is either answered or forwarded, never both, and only frames are. */
  lemma {:induction false} EachFrameIsSettledOnce(frames: seq<string>, lookup: string -> string)
    ensures |Missed(frames, lookup)| + |Answers(frames, lookup)| == |frames|
    ensures forall f :: f in Missed(frames, lookup) <==> f in frames && !Cached(f, lookup)
  {
    if frames != [] {
      EachFrameIsSettledOnce(frames[1..], lookup);
    }
  }

  lemma {:induction false} ConcatSplits(a: seq<string>, b: seq<string>)
    ensures Concat(a + b) == Concat(a) + Concat(b)
  {
    if a == [] {
      assert a + b == b;
    } else {
      assert (a + b)[1..] == a[1..] + b;
      ConcatSplits(a[1..], b);
    }
  }

  lemma TwoParts(a: seq<string>, b: seq<string>, tail: string)
    ensures Concat(a) + (Concat(b) + tail) == Concat(a + b) + tail
  {
    ConcatSplits(a, b);
    AppendAssociates(Concat(a), Concat(b), tail);
  }

  lemma Halves<T>(xs: seq<T>, k: nat)
    requires k <= |xs|
    ensures xs[..k] + xs[k..] == xs
  {
  }

  lemma CutFrames(fs: seq<string>, k: nat, tail: string)
    requires k <= |fs|
    ensures Concat(fs[..k]) + (Concat(fs[k..]) + tail) == Concat(fs) + tail
  {
    var a, b := fs[..k], fs[k..];
    assert a + b == fs by {
      Halves(fs, k);
    }
    TwoParts(a, b, tail);
  }

  /** No byte is lost: the handled frames and what stays make up the buffer. */
  lemma HandledAndLeftAreTheBuffer(b: string, checks: nat)
    ensures Concat(Handled(b, checks)) + Left(b, checks) == b
    ensures |Frames(b)| <= checks ==> !Parse(Left(b, checks)).ok
  {
    BufferSplits(b);
    if checks < |Frames(b)| {
      CutFrames(Frames(b), checks, Tail(b));
    }
  }

  /** `k` frames followed by an incomplete tail, connected throughout and no cache hit: exactly
      those frames are forwarded in order, and exactly the tail stays. */
  lemma ForwardsExactlyTheFrames(frames: seq<string>, tail: string, checks: nat, lookup: string -> string)
    requires (forall f :: f in frames ==> IsFrame(f) && !Cached(f, lookup)) && !Parse(tail).ok && |frames| <= checks
    ensures var b := Concat(frames) + tail;
      Missed(Handled(b, checks), lookup) == frames && Answers(Handled(b, checks), lookup) == [] && Left(b, checks) == tail
  {
    SplitIsUnique(frames, tail);
    NothingCachedNothingMissed(frames, lookup);
  }

  // ------------------------------------------------------------------ the assertion, the method name

  /** What the assertion beside each forward amounts to: at most one frame was forwarded, it was
      the last one handled, and the live buffer holds nothing behind it. */
  predicate Alone(handled: seq<string>, lookup: string -> string, behind: string) {
    Missed(handled, lookup) == [] ||
    (|Missed(handled, lookup)| == 1 && handled != [] && !Cached(handled[|handled| - 1], lookup) && behind == "")
  }

  lemma AloneStep(handled: seq<string>, f: string, lookup: string -> string, behind: string)
    requires f != ""
    ensures Alone(handled + [f], lookup, behind) <==>
      Alone(handled, lookup, f + behind) && (Cached(f, lookup) || f + behind == f)
    ensures Alone([], lookup, behind)
  {
    MissedAppend(handled, f, lookup);
    assert |f + behind| == |f| + |behind|;
    assert behind == "" ==> f + behind == f;
  }

  /** `Buffer::retrieve`: at most what is there goes. */
  function DropUpTo(b: string, n: nat): string {
    if n <= |b| then b[n..] else ""
  }

  /** The assertion beside each forward: when frame `k` is forwarded, the live buffer, which
      held `input` at the start and has lost the frames handled since, is exactly that frame. */
  ghost predicate Asserted(handled: seq<string>, lookup: string -> string, input: string) {
    forall k :: 0 <= k < |handled| && !Cached(handled[k], lookup) ==> DropUpTo(input, |Concat(handled[..k])|) == handled[k]
  }

  lemma AssertedStep(handled: seq<string>, f: string, lookup: string -> string, input: string)
    ensures Asserted(handled + [f], lookup, input) <==>
      Asserted(handled, lookup, input) && (Cached(f, lookup) || DropUpTo(input, |Concat(handled)|) == f)
  {
    var more := handled + [f];
    assert forall k :: 0 <= k < |handled| ==> more[..k] == handled[..k] && more[k] == handled[k];
    assert more[..|handled|] == handled && more[|handled|] == f;
  }

  lemma DropTwice(b: string, m: nat, n: nat)
    ensures DropUpTo(DropUpTo(b, m), n) == DropUpTo(b, m + n)
  {
  }

  lemma ConcatAppend(frames: seq<string>, f: string)
    ensures Concat(frames + [f]) == Concat(frames) + f
  {
    ConcatSplits(frames, [f]);
    OneFrame(f);
  }

  /** Where the live buffer starts with the copy, the assertion amounts to `Alone`. */
  lemma {:induction false} AssertedIsAlone(handled: seq<string>, lookup: string -> string, behind: string)
    requires "" !in handled
    ensures Asserted(handled, lookup, Concat(handled) + behind) <==> Alone(handled, lookup, behind)
    decreases |handled|
  {
    if handled != [] {
      var d, f := handled[..|handled| - 1], handled[|handled| - 1];
      assert handled == d + [f] && f in handled;
      assert forall g :: g in d ==> g in handled;
      var input := Concat(d) + (f + behind);
      ConcatAppend(d, f);
      AppendAssociates(Concat(d), f, behind);
      assert DropUpTo(input, |Concat(d)|) == f + behind;
      AssertedIsAlone(d, lookup, f + behind);
      AssertedStep(d, f, lookup, input);
      AloneStep(d, f, lookup, behind);
    }
  }

  lemma FramesAreNotEmpty(b: string, checks: nat)
    ensures "" !in Handled(b, checks)
  {
    BufferSplits(b);
    forall f | f in Handled(b, checks)
      ensures f != ""
    {
      assert f in Frames(b);
      FrameFits(f);
    }
  }

  /** Without cache hits, and with the copy still at the front of the live buffer, the
      assertion holds throughout if and only if the live buffer is a single request. */
  lemma AssertionNeedsASingleRequest(b: string, checks: nat, lookup: string -> string, later: string)
    requires 0 < checks && Parse(b).ok && forall f :: f in Frames(b) ==> !Cached(f, lookup)
    ensures Asserted(Handled(b, checks), lookup, b + later) <==> IsFrame(b) && later == ""
  {
    var h := Handled(b, checks);
    var behind := Left(b, checks) + later;
    FramesAreNotEmpty(b, checks);
    HandledAndLeftAreTheBuffer(b, checks);
    AppendAssociates(Concat(h), Left(b, checks), later);
    AssertedIsAlone(h, lookup, behind);
    AloneMeansSingle(b, checks, lookup, later);
  }

  lemma AloneMeansSingle(b: string, checks: nat, lookup: string -> string, later: string)
    requires 0 < checks && Parse(b).ok && forall f :: f in Frames(b) ==> !Cached(f, lookup)
    ensures Alone(Handled(b, checks), lookup, Left(b, checks) + later) <==> IsFrame(b) && later == ""
  {
    var h := Handled(b, checks);
    assert forall f :: f in h ==> f in Frames(b);
    NothingCachedNothingMissed(h, lookup);
    FirstFrame(b);
    HandledAndLeftAreTheBuffer(b, checks);
    if |h| == 1 {
      OneFrame(h[0]);
    }
    if IsFrame(b) {
      WholeFrame(b);
    }
  }

  lemma OneFrame(f: string)
    ensures Concat([f]) == f
  {
    assert [f][1..] == [];
  }

  lemma WholeFrame(f: string)
    requires IsFrame(f)
    ensures Frames(f) == [f] && Tail(f) == ""
  {
    assert f + "" == f;
    FrameThenRest(f, "");
  }

  /** A request with the standard method name is never looked up in the cache. */
  lemma StandardGetIsNeverCached(r: HR.Request, lookup: string -> string)
    requires HR.WellFormed(r) && r.httpMethod == "GET"
    ensures IsFrame(HR.Render(r)) && !Cached(HR.Render(r), lookup)
  {
    HR.RenderedIsAFrame(r);
  }

  // ------------------------------------------------------------------ requests served

  function RenderAll(rs: seq<HR.Request>): seq<string> {
    seq(|rs|, k requires 0 <= k < |rs| => HR.Render(rs[k]))
  }

  /** The contents that answer the requests: those with the method "Get" for whose url the cache
      has something. */
  function ToAnswer(rs: seq<HR.Request>, lookup: string -> string): seq<string> {
    if rs == [] then []
    else (if rs[0].httpMethod == "Get" && lookup(rs[0].url) != "" then [lookup(rs[0].url)] else []) + ToAnswer(rs[1..], lookup)
  }

  /** The other requests. */
  function ToForward(rs: seq<HR.Request>, lookup: string -> string): seq<HR.Request> {
    if rs == [] then []
    else (if rs[0].httpMethod == "Get" && lookup(rs[0].url) != "" then [] else [rs[0]]) + ToForward(rs[1..], lookup)
  }

  lemma RenderedReply(r: HR.Request, lookup: string -> string)
    requires HR.WellFormed(r)
    ensures var hit := r.httpMethod == "Get" && lookup(r.url) != "";
      IsFrame(HR.Render(r)) && Parse(HR.Render(r)).url == r.url &&
      Reply(HR.Render(r), lookup) == (if hit then [lookup(r.url)] else []) &&
      Pass(HR.Render(r), lookup) == if hit then [] else [HR.Render(r)]
  {
    HR.RenderedIsAFrame(r);
  }

  lemma RenderOthers(r: seq<HR.Request>, rs: seq<HR.Request>)
    ensures RenderAll(r + rs) == RenderAll(r) + RenderAll(rs)
  {
  }

  lemma RenderedAreFrames(rs: seq<HR.Request>)
    requires forall r :: r in rs ==> HR.WellFormed(r)
    ensures forall f :: f in RenderAll(rs) ==> IsFrame(f)
  {
    forall k | 0 <= k < |rs|
      ensures IsFrame(RenderAll(rs)[k])
    {
      HR.RenderedIsAFrame(rs[k]);
    }
  }

  lemma RenderTail(rs: seq<HR.Request>)
    requires rs != []
    ensures RenderAll(rs) != [] && RenderAll(rs)[0] == HR.Render(rs[0]) && RenderAll(rs)[1..] == RenderAll(rs[1..])
  {
  }

  lemma {:induction false} RenderedAnswers(rs: seq<HR.Request>, lookup: string -> string)
    requires forall r :: r in rs ==> HR.WellFormed(r)
    ensures Answers(RenderAll(rs), lookup) == ToAnswer(rs, lookup)
    decreases |rs|
  {
    if rs != [] {
      RenderTail(rs);
      assert rs[0] in rs;
      RenderedReply(rs[0], lookup);
      RenderedAnswers(rs[1..], lookup);
    }
  }

  lemma RenderOne(r: HR.Request)
    ensures RenderAll([r]) == [HR.Render(r)] && RenderAll([]) == []
  {
  }

  lemma {:induction false} RenderedMissed(rs: seq<HR.Request>, lookup: string -> string)
    requires forall r :: r in rs ==> HR.WellFormed(r)
    ensures Missed(RenderAll(rs), lookup) == RenderAll(ToForward(rs, lookup))
    decreases |rs|
  {
    if rs != [] {
      RenderTail(rs);
      assert rs[0] in rs;
      RenderedReply(rs[0], lookup);
      RenderedMissed(rs[1..], lookup);
      RenderOne(rs[0]);
      RenderOthers(if rs[0].httpMethod == "Get" && lookup(rs[0].url) != "" then [] else [rs[0]], ToForward(rs[1..], lookup));
    }
  }

  lemma {:induction false} ForwardedUrls(rs: seq<HR.Request>)
    requires forall r :: r in rs ==> HR.WellFormed(r)
    ensures |Urls(RenderAll(rs))| == |rs| && forall k :: 0 <= k < |rs| ==> Urls(RenderAll(rs))[k] == rs[k].url
  {
    forall k | 0 <= k < |rs|
      ensures Urls(RenderAll(rs))[k] == rs[k].url
    {
      HR.RenderedIsAFrame(rs[k]);
    }
  }

  /** Well-formed requests one behind the other and an incomplete tail, on a connection that is up:
      each request with the method "Get" whose url the cache answers is answered, each other one
      is forwarded byte for byte, both in order, and the tail stays. */
  lemma RequestsAreServed(rs: seq<HR.Request>, tail: string, checks: nat, lookup: string -> string)
    requires (forall r :: r in rs ==> HR.WellFormed(r)) && !Parse(tail).ok && |rs| <= checks
    ensures var b := Concat(RenderAll(rs)) + tail;
      Answers(Handled(b, checks), lookup) == ToAnswer(rs, lookup) &&
      Missed(Handled(b, checks), lookup) == RenderAll(ToForward(rs, lookup)) && Left(b, checks) == tail
  {
    RenderedAreFrames(rs);
    RenderedAnswers(rs, lookup);
    RenderedMissed(rs, lookup);
    SplitIsUnique(RenderAll(rs), tail);
  }

  /** In particular one request alone. */
  lemma RequestIsServed(r: HR.Request, checks: nat, lookup: string -> string)
    requires HR.WellFormed(r) && 0 < checks
    ensures var all := Handled(HR.Render(r), checks);
      Left(HR.Render(r), checks) == "" &&
      if r.httpMethod == "Get" && lookup(r.url) != ""
      then Answers(all, lookup) == [lookup(r.url)] && Missed(all, lookup) == []
      else Answers(all, lookup) == [] && Missed(all, lookup) == [HR.Render(r)] && Urls(Missed(all, lookup)) == [r.url]
  {
    RenderedReply(r, lookup);
    FrameIsServed(HR.Render(r), checks, lookup);
  }

  lemma FrameIsServed(f: string, checks: nat, lookup: string -> string)
    requires IsFrame(f) && 0 < checks
    ensures Handled(f, checks) == [f] && Left(f, checks) == ""
    ensures Answers(Handled(f, checks), lookup) == Reply(f, lookup) && Missed(Handled(f, checks), lookup) == Pass(f, lookup)
    ensures Urls([f]) == [Parse(f).url]
  {
    HandledWhole(f, checks);
    OneFrameLogs(f, lookup);
  }

  lemma HandledWhole(f: string, checks: nat)
    requires IsFrame(f) && 0 < checks
    ensures Handled(f, checks) == [f] && Left(f, checks) == ""
  {
    WholeFrame(f);
  }

  lemma OneFrameLogs(f: string, lookup: string -> string)
    ensures Answers([f], lookup) == Reply(f, lookup) && Missed([f], lookup) == Pass(f, lookup)
  {
    assert [f][1..] == [];
    assert Reply(f, lookup) + [] == Reply(f, lookup);
    assert Pass(f, lookup) + [] == Pass(f, lookup);
  }
}

