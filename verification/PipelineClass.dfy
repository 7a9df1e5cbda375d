/** The loop of `solveOnMessage` as the source runs it, on a connection object, proved against
    what Pipeline says it comes to, and the two entry points whose interleaving ConnectionRuns
    is about. */
module PipelineClass {
  import opened HttpFraming
  import opened Pipeline
  import CR = ConnectionRuns
  import HC = HttpContextClass

  /** The frames of `b` are `done` and then those of `rest`. */
  ghost predicate Peeled(b: string, done: seq<string>, rest: string) {
    Frames(b) == done + Frames(rest) && Tail(b) == Tail(rest)
  }

  lemma PeelOne(b: string, done: seq<string>, rest: string)
    requires Peeled(b, done, rest) && Parse(rest).ok
    ensures var n := Parse(rest).end;
      0 < n <= |rest| && Parse(rest[..n]) == Parse(rest) && Peeled(b, done + [rest[..n]], rest[n..])
  {
    PeelFirst(rest);
    var n := Parse(rest).end;
    AppendAssociates(done, [rest[..n]], Frames(rest[n..]));
  }

  /** `length` cuts the next frame off `rest`. */
  ghost predicate Next(rest: string, length: int, b: string, done: seq<string>) {
    0 < length <= |rest| && Peeled(b, done + [rest[..length]], rest[length..])
  }

  /** When the loop ends, `done` is what was to be handled and `rest` what was to be left. */
  lemma AllPeeled(b: string, done: seq<string>, rest: string, checks: nat)
    requires Peeled(b, done, rest) && |done| <= checks && (|done| == checks || !Parse(rest).ok)
    ensures done == Handled(b, checks) && rest == Left(b, checks)
  {
    BufferSplits(rest);
    assert (done + Frames(rest))[..|done|] == done;
    assert (done + Frames(rest))[|done|..] == Frames(rest);
    if Frames(rest) == [] {
      assert done + [] == done;
      assert "" + Tail(rest) == Tail(rest);
    }
  }

  /** Before it ends, `done` is the start of what is to be handled. */
  lemma PeeledIsHandled(b: string, done: seq<string>, rest: string, checks: nat)
    requires Peeled(b, done, rest) && |done| <= checks
    ensures done <= Handled(b, checks)
  {
    assert (done + Frames(rest))[..|done|] == done;
  }

  lemma PeeledIsPrefix(b: string, done: seq<string>, rest: string)
    requires Peeled(b, done, rest)
    ensures Concat(done) + rest == b
  {
    BufferSplits(b);
    BufferSplits(rest);
    ConcatSplits(done, Frames(rest));
    AppendAssociates(Concat(done), Concat(Frames(rest)), Tail(rest));
  }

  /** A missed frame among those to be handled. */
  lemma MissedSomewhere(frames: seq<string>, k: nat, lookup: string -> string)
    requires k < |frames| && !Cached(frames[k], lookup)
    ensures Missed(frames, lookup) != []
  {
    EachFrameIsSettledOnce(frames, lookup);
    assert frames[k] in Missed(frames, lookup);
  }

  /** What happens to a connection to the web server once it is begun: it never comes up, or it
      is up after so many further turns of the loop. */
  datatype Upstream = Never | Up(turns: nat)

  function Delay(upstream: Upstream): nat {
    if upstream.Up? then upstream.turns else 0
  }

  /** How long the loop has waited for its tunnel. */
  ghost predicate Waited(upstream: Upstream, wait: Upstream, wasUp: bool, isUp: bool, isCheck: bool, idle: nat) {
    (isUp ==> wasUp || upstream.Up?) &&
    if upstream.Never? then wait.Never? && (!isCheck ==> idle == 0)
    else wait.Up? && if isUp then idle <= 1 + upstream.turns else idle + wait.turns == upstream.turns
  }

  /** A frame needs a tunnel, there is none, and a new one never comes up. */
  ghost predicate Endless(b: string, checks: nat, upstream: Upstream, wasUp: bool, lookup: string -> string) {
    !wasUp && upstream.Never? && Missed(Handled(b, checks), lookup) != []
  }

  /** `done` are the leading frames that the cache answers, and the next one it does not. */
  ghost predicate StuckBehind(b: string, checks: nat, done: seq<string>, lookup: string -> string) {
    var all := Handled(b, checks);
    done < all && Missed(done, lookup) == [] && !Cached(all[|done|], lookup)
  }

  /** The context holds the method and url of `frame`. */
  ghost predicate Holds(context: HC.HttpContext, frame: string)
    reads context
  {
    context.requestMethod == Parse(frame).httpMethod && context.requestUrl == Parse(frame).url
  }

  /** The logs before a call. */
  datatype Logs = Logs(responses: seq<string>, forwarded: seq<string>, pushed: seq<string>)

  /** What the logs hold after the frames `done`. */
  function With(before: Logs, done: seq<string>, lookup: string -> string): Logs {
    Logs(before.responses + Answers(done, lookup), before.forwarded + Missed(done, lookup),
         before.pushed + Urls(Missed(done, lookup)))
  }

  /** The local variables of the loop. */
  datatype Locals = Locals(rest: string, length: int, isCheck: bool, asserted: bool, connected: nat, wait: Upstream) {
    function Waiting(): nat {
      if isCheck then 1 else 0
    }
  }

  /** The frames it has handled, whether one of them was missed, the turns spent on a tunnel,
      and the calls of the parser. */
  datatype Trace = Trace(done: seq<string>, missed: bool, idle: nat, parses: nat)

  /** What it was called with, and the connection at that moment. */
  datatype Call = Call(buff: string, checks: nat, upstream: Upstream, lookup: string -> string,
                       before: Logs, input: string, tunnelUp: bool, tunnels: nat)

  /** The part of what the loop knows that its ending depends on. */
  ghost predicate Stands(v: Locals, g: Trace, c: Call, isUp: bool) {
    Peeled(c.buff, g.done, v.rest) && |g.done| + v.connected + v.Waiting() == c.checks &&
    (g.missed <==> Missed(g.done, c.lookup) != []) &&
    (v.isCheck ==> !c.tunnelUp && !g.missed) && (!v.isCheck ==> (isUp <==> c.tunnelUp || g.missed)) &&
    Waited(c.upstream, v.wait, c.tunnelUp, isUp, v.isCheck, g.idle) &&
    (v.isCheck ==> Next(v.rest, v.length, c.buff, g.done) && !Cached(v.rest[..v.length], c.lookup))
  }

  lemma StandsAtTheStart(c: Call)
    ensures Stands(Locals(c.buff, 0, false, true, c.checks, c.upstream), Trace([], false, 0, 0), c, c.tunnelUp)
  {
    assert [] + Frames(c.buff) == Frames(c.buff);
  }

  lemma NothingLogged(log: seq<string>, lookup: string -> string)
    ensures log + Answers([], lookup) == log + Missed([], lookup) == log + Urls(Missed([], lookup)) == log
  {
  }

  lemma EndedIsNotEndless(v: Locals, g: Trace, c: Call, isUp: bool)
    requires Stands(v, g, c, isUp) && !v.isCheck && g.done == Handled(c.buff, c.checks)
    ensures !Endless(c.buff, c.checks, c.upstream, c.tunnelUp, c.lookup)
  {
  }

  lemma WaitingIsStuck(v: Locals, g: Trace, c: Call, isUp: bool)
    requires Stands(v, g, c, isUp) && v.isCheck
    ensures StuckBehind(c.buff, c.checks, g.done, c.lookup) && Missed(Handled(c.buff, c.checks), c.lookup) != []
  {
    var frame := v.rest[..v.length];
    PeeledIsHandled(c.buff, g.done + [frame], v.rest[v.length..], c.checks);
    assert Handled(c.buff, c.checks)[|g.done|] == frame;
    MissedSomewhere(Handled(c.buff, c.checks), |g.done|, c.lookup);
  }

  lemma StillRunning(v: Locals, g: Trace, c: Call, isUp: bool, turns: nat)
    requires Stands(v, g, c, isUp) && turns == |g.done| + g.idle
    ensures !Endless(c.buff, c.checks, c.upstream, c.tunnelUp, c.lookup) ==>
      turns < |Handled(c.buff, c.checks)| + 2 + Delay(c.upstream)
    ensures Endless(c.buff, c.checks, c.upstream, c.tunnelUp, c.lookup) && turns > |Handled(c.buff, c.checks)| ==>
      StuckBehind(c.buff, c.checks, g.done, c.lookup) && v.isCheck
  {
    PeeledIsHandled(c.buff, g.done, v.rest, c.checks);
    if v.isCheck {
      WaitingIsStuck(v, g, c, isUp);
    }
  }

  lemma WhereItStands(v: Locals, g: Trace, c: Call, isUp: bool, ended: bool, turns: nat)
    requires Stands(v, g, c, isUp)
    requires if ended then !v.isCheck && (|g.done| == c.checks || !Parse(v.rest).ok) else turns == |g.done| + g.idle
    ensures Concat(g.done) + v.rest == c.buff
    ensures ended ==> g.done == Handled(c.buff, c.checks) && v.rest == Left(c.buff, c.checks)
    ensures ended ==> !Endless(c.buff, c.checks, c.upstream, c.tunnelUp, c.lookup)
    ensures !ended && !Endless(c.buff, c.checks, c.upstream, c.tunnelUp, c.lookup) ==>
      turns < |Handled(c.buff, c.checks)| + 2 + Delay(c.upstream)
    ensures !ended && Endless(c.buff, c.checks, c.upstream, c.tunnelUp, c.lookup) && turns > |Handled(c.buff, c.checks)| ==>
      StuckBehind(c.buff, c.checks, g.done, c.lookup) && v.isCheck
  {
    PeeledIsPrefix(c.buff, g.done, v.rest);
    if ended {
      AllPeeled(c.buff, g.done, v.rest, c.checks);
      EndedIsNotEndless(v, g, c, isUp);
    } else {
      StillRunning(v, g, c, isUp, turns);
    }
  }

  lemma AfterTurn(done: seq<string>, f: string, lookup: string -> string, input: string)
    ensures DropUpTo(DropUpTo(input, |Concat(done)|), |f|) == DropUpTo(input, |Concat(done + [f])|)
    ensures Missed(done + [f], lookup) == [] <==> Missed(done, lookup) == [] && Cached(f, lookup)
    ensures Asserted(done + [f], lookup, input) <==>
      Asserted(done, lookup, input) && (Cached(f, lookup) || DropUpTo(input, |Concat(done)|) == f)
  {
    ConcatAppend(done, f);
    DropTwice(input, |Concat(done)|, |f|);
    MissedAppend(done, f, lookup);
    AssertedStep(done, f, lookup, input);
  }

  /** The connection as the proxy sees it. */
  class Connection {
    /** The readable bytes of the live input buffer. */
    var input: string
    /** The copies of tasks that have not run. */
    var pending: seq<string>
    /** Whether the context holds the connection to the web server. */
    var tunnelUp: bool
    var tunnels: nat
    var responses: seq<string>
    var forwarded: seq<string>
    var pushed: seq<string>
    var closing: bool
    /** The frames of the copies and where they start, the frames handled and where they were
        found, and all bytes that have arrived. */
    ghost var copies: seq<CR.Copy>
    ghost var handled: seq<CR.Piece>
    ghost var arrived: string

    constructor ()
      ensures Tracked() && Link() == CR.FRESH && Before() == Logs([], [], [])
      ensures !tunnelUp && tunnels == 0 && !closing
    {
      input, pending, tunnelUp, tunnels, closing := "", [], false, 0, false;
      responses, forwarded, pushed := [], [], [];
      copies, handled, arrived := [], [], "";
    }

    ghost function Link(): CR.Link
      reads this
    {
      CR.Link(input, copies, handled, arrived)
    }

    ghost predicate Tracked()
      reads this
    {
      |copies| == |pending| && forall k :: 0 <= k < |copies| ==> copies[k].todo == Frames(pending[k])
    }

    ghost function Before(): Logs
      reads this
    {
      Logs(responses, forwarded, pushed)
    }

    /** The logs hold what the frames `done` call for, after what they held before. */
    ghost predicate Logged(before: Logs, done: seq<string>, lookup: string -> string)
      reads this
    {
      Before() == With(before, done, lookup)
    }

    /** The branch that answers from the cache. */
    method Answer(content: string, frame: string, ghost done: seq<string>, ghost before: Logs, lookup: string -> string)
      requires Cached(frame, lookup) && content == lookup(Parse(frame).url) && Logged(before, done, lookup)
      modifies this`responses, this`input
      ensures input == DropUpTo(old(input), |frame|) && Logged(before, done + [frame], lookup)
    {
      LogAnswer(done, frame, lookup);
      AppendAssociates(before.responses, Answers(done, lookup), [content]);
      responses := responses + [content];
      input := DropUpTo(input, |frame|);
    }

    /** The branch that forwards through the tunnel; `held` is the value of its assertion. */
    method Forward(url: string, frame: string, ghost done: seq<string>, ghost before: Logs, lookup: string -> string)
      returns (held: bool)
      requires !Cached(frame, lookup) && url == Parse(frame).url && Logged(before, done, lookup)
      modifies this`pushed, this`forwarded, this`input
      ensures input == DropUpTo(old(input), |frame|) && Logged(before, done + [frame], lookup)
      ensures held == (old(input) == frame)
    {
      LogForward(done, frame, lookup);
      AppendAssociates(before.forwarded, Missed(done, lookup), [frame]);
      AppendAssociates(before.pushed, Urls(Missed(done, lookup)), [url]);
      pushed := pushed + [url];
      forwarded := forwarded + [frame];
      held := input == frame;
      input := DropUpTo(input, |frame|);
    }

    /** The context holds the method and url of the next frame. */
    ghost predicate Working(context: HC.HttpContext, rest: string, length: int, buff: string, done: seq<string>)
      reads context
    {
      Next(rest, length, buff, done) && Holds(context, rest[..length])
    }

    /** The loop's condition: `checks` tells how often the connection is still found up. */
    method Condition(context: HC.HttpContext, rest: string, isCheck: bool, checks: nat, was: int, ghost buff: string, ghost done: seq<string>)
      returns (go: bool, connected: nat, length: int, ghost parsed: nat)
      requires Peeled(buff, done, rest) && |rest| < 0x8000_0000
      requires if isCheck then Working(context, rest, was, buff, done) else context.requestMethod == "" && context.requestUrl == ""
      modifies context
      ensures go <==> isCheck || (checks > 0 && Parse(rest).ok)
      ensures go ==> connected == checks - (if isCheck then 0 else 1) && Working(context, rest, length, buff, done)
      ensures isCheck ==> length == was
      ensures parsed == if !isCheck && checks > 0 then 1 else 0
    {
      go, connected, length, parsed := isCheck, checks, was, 0;
      if !isCheck && checks > 0 {
        parsed := parsed + 1;
        go, length := context.ParseRequest(rest);
        if go {
          PeelOne(buff, done, rest);
          ReturnedLengthIsExact(rest);
          connected := checks - 1;
        }
      }
    }

    /** The loop's body, up to the bookkeeping on the copied buffer: `taken` if the frame was
        answered or forwarded, and otherwise the loop comes back to it with `isCheck` set. */
    method Turn(context: HC.HttpContext, frame: string, isCheck: bool, wait: Upstream,
        ghost done: seq<string>, ghost before: Logs, lookup: string -> string)
      returns (taken: bool, held: bool, waited: Upstream)
      requires Holds(context, frame) && Logged(before, done, lookup)
      modifies this`responses, this`input, this`pushed, this`forwarded, this`tunnelUp, this`tunnels, context
      ensures taken == (Cached(frame, lookup) || old(tunnelUp))
      ensures held == (taken && !Cached(frame, lookup) ==> old(input) == frame)
      ensures Logged(before, if taken then done + [frame] else done, lookup)
      ensures input == if taken then DropUpTo(old(input), |frame|) else old(input)
      ensures if taken then context.requestMethod == "" && context.requestUrl == "" else Holds(context, frame)
      ensures tunnels == old(tunnels) + (if taken || isCheck then 0 else 1)
      ensures tunnelUp == (old(tunnelUp) || (!taken && wait == Up(0)))
      ensures waited == if taken || wait.Never? || wait.turns == 0 then wait else Up(wait.turns - 1)
    {
      taken, held, waited := false, true, wait;
      var content := if context.requestMethod == GET_METHOD then lookup(context.requestUrl) else "";
      if content != "" {
        Answer(content, frame, done, before, lookup);
        context.Reset();
        taken := true;
        return;
      }
      if !isCheck && !tunnelUp {
        tunnels := tunnels + 1;
      } else if tunnelUp {
        held := Forward(context.requestUrl, frame, done, before, lookup);
        context.Reset();
        taken := true;
      }
      if !taken && wait.Up? {
        if wait.turns == 0 {
          tunnelUp := true;
        } else {
          waited := Up(wait.turns - 1);
        }
      }
    }

    /** What is known of the loop whenever one looks. */
    ghost predicate Stopped(v: Locals, g: Trace, c: Call)
      reads this
    {
      Stands(v, g, c, tunnelUp) && Logged(c.before, g.done, c.lookup) &&
      input == DropUpTo(c.input, |Concat(g.done)|) && (v.asserted <==> Asserted(g.done, c.lookup, c.input)) &&
      tunnels == c.tunnels + (if v.isCheck || (!c.tunnelUp && g.missed) then 1 else 0)
    }

    /** The context is empty, or holds the frame the loop comes back to. */
    ghost predicate Ready(context: HC.HttpContext, v: Locals)
      reads context
    {
      if v.isCheck then 0 <= v.length <= |v.rest| && Holds(context, v.rest[..v.length])
      else context.requestMethod == "" && context.requestUrl == ""
    }

    lemma AtTheStart(c: Call)
      requires c.before == Before() && c.input == input && c.tunnelUp == tunnelUp && c.tunnels == tunnels
      ensures Stopped(Locals(c.buff, 0, false, true, c.checks, c.upstream), Trace([], false, 0, 0), c)
    {
      StandsAtTheStart(c);
      NothingLogged(responses, c.lookup);
      NothingLogged(forwarded, c.lookup);
      NothingLogged(pushed, c.lookup);
      assert DropUpTo(input, |Concat([])|) == input;
    }

    /** One turn of the loop, its condition included; `go` is the value of the condition. */
    method Iterate(context: HC.HttpContext, v: Locals, ghost g: Trace, ghost c: Call, lookup: string -> string)
      returns (go: bool, w: Locals, ghost h: Trace)
      requires Stopped(v, g, c) && Ready(context, v) && lookup == c.lookup && |v.rest| < 0x8000_0000
      modifies this`responses, this`input, this`pushed, this`forwarded, this`tunnelUp, this`tunnels, context
      ensures Stopped(w, h, c) && |w.rest| <= |v.rest|
      ensures go ==> Ready(context, w) && |h.done| + h.idle == |g.done| + g.idle + 1
      ensures go ==> h.parses == g.parses + (if v.isCheck then 0 else 1) && |h.done| + w.Waiting() == |g.done| + 1
      ensures !go ==> w == v && h == g.(parses := g.parses + (if v.connected > 0 then 1 else 0))
      ensures !go ==> !v.isCheck && (|g.done| == c.checks || !Parse(v.rest).ok)
    {
      w, h := v, g;
      var connected, length;
      ghost var parsed;
      go, connected, length, parsed := Condition(context, v.rest, v.isCheck, v.connected, v.length, c.buff, g.done);
      if !go {
        h := g.(parses := g.parses + parsed);
        return;
      }
      var frame := v.rest[..length];
      AfterTurn(g.done, frame, lookup, c.input);
      var taken, held, wait := Turn(context, frame, v.isCheck, v.wait, g.done, c.before, lookup);
      if taken {
        w := Locals(v.rest[length..], length, false, v.asserted && held, connected, wait);
        h := Trace(g.done + [frame], g.missed || !Cached(frame, lookup), g.idle, g.parses + parsed);
      } else {
        w := Locals(v.rest, length, true, v.asserted, connected, wait);
        h := Trace(g.done, g.missed, g.idle + 1, g.parses + parsed);
      }
    }

    /** The loop, watched for `turns` turns. */
    method Loop(buff: string, checks: nat, upstream: Upstream, turns: nat, lookup: string -> string)
      returns (ended: bool, v: Locals, ghost g: Trace)
      requires |buff| < 0x8000_0000
      modifies this`responses, this`input, this`pushed, this`forwarded, this`tunnelUp, this`tunnels
      ensures Stopped(v, g, Call(buff, checks, upstream, lookup, old(Before()), old(input), old(tunnelUp), old(tunnels)))
      ensures ended ==> !v.isCheck && (|g.done| == checks || !Parse(v.rest).ok) && g.parses == |g.done| + (if |g.done| < checks then 1 else 0)
      ensures !ended ==> turns == |g.done| + g.idle && g.parses == |g.done| + v.Waiting()
    {
      ghost var c := Call(buff, checks, upstream, lookup, Before(), input, tunnelUp, tunnels);
      ended, v, g := false, Locals(buff, 0, false, true, checks, upstream), Trace([], false, 0, 0);
      var context := new HC.HttpContext();
      var left := turns;
      AtTheStart(c);
      while left > 0
        invariant fresh(context) && Ready(context, v)
        invariant Stopped(v, g, c)
        invariant |v.rest| <= |buff| && 0 <= left
        invariant turns == left + |g.done| + g.idle && g.parses == |g.done| + v.Waiting()
      {
        var go;
        go, v, g := Iterate(context, v, g, c, lookup);
        if !go {
          ended := true;
          return;
        }
        left := left - 1;
      }
    }

    /** The connection at the moment of a call. */
    ghost function Now(buff: string, checks: nat, upstream: Upstream, lookup: string -> string): Call
      reads this
    {
      Call(buff, checks, upstream, lookup, Before(), input, tunnelUp, tunnels)
    }

    /** What a call comes to, in terms of the frames of the copy. It ends unless a frame needs a
        tunnel that never comes up; when it ends, all frames to be handled are, the rest of the
        copy is left, one tunnel at most was asked for and each frame was parsed once. Otherwise
        it stays where it is for good: the frames before that one are answered, nothing is
        forwarded, and the connection is not looked at again. */
    ghost predicate Outcome(c: Call, turns: nat, ended: bool, rest: string, asserted: bool, done: seq<string>, parses: nat)
      reads this
    {
      var all := Handled(c.buff, c.checks);
      var endless := Endless(c.buff, c.checks, c.upstream, c.tunnelUp, c.lookup);
      (ended ==> !endless && done == all && rest == Left(c.buff, c.checks)) &&
      (ended ==> parses == |done| + (if |done| < c.checks then 1 else 0)) &&
      (ended ==> tunnels == c.tunnels + (if !c.tunnelUp && Missed(done, c.lookup) != [] then 1 else 0)) &&
      (ended ==> (tunnelUp <==> c.tunnelUp || Missed(done, c.lookup) != [])) &&
      (!endless && turns >= |all| + 2 + Delay(c.upstream) ==> ended) &&
      (endless && turns > |all| ==> StuckBehind(c.buff, c.checks, done, c.lookup) && tunnels == c.tunnels + 1) &&
      Logged(c.before, done, c.lookup) && input == DropUpTo(c.input, |Concat(done)|) && Concat(done) + rest == c.buff &&
      (asserted <==> Asserted(done, c.lookup, c.input))
    }

    method RunLoop(buff: string, checks: nat, upstream: Upstream, turns: nat, lookup: string -> string)
      returns (ended: bool, rest: string, asserted: bool, ghost done: seq<string>, ghost parses: nat)
      requires |buff| < 0x8000_0000
      modifies this`responses, this`input, this`pushed, this`forwarded, this`tunnelUp, this`tunnels
      ensures Outcome(old(Now(buff, checks, upstream, lookup)), turns, ended, rest, asserted, done, parses)
    {
      ghost var c := Now(buff, checks, upstream, lookup);
      var v;
      ghost var g;
      ended, v, g := Loop(buff, checks, upstream, turns, lookup);
      rest, asserted, done, parses := v.rest, v.asserted, g.done, g.parses;
      WhereItStands(v, g, c, tunnelUp, ended, turns);
    }

    /** `buff` is the copy taken when the bytes arrived, `checks` how often the connection is
        found connected, `upstream` what becomes of a new tunnel, and `lookup` what the cache
        answers; the call is watched for `turns` turns of its loop. The live buffer may hold
        anything by then. `asserted` is whether the assertion held at every forward, and
        `parses` counts the calls of the parser. */
    method SolveOnMessage(buff: string, checks: nat, upstream: Upstream, turns: nat, lookup: string -> string)
      returns (ended: bool, rest: string, asserted: bool, ghost done: seq<string>, ghost parses: nat)
      requires |buff| < 0x8000_0000
      modifies this`responses, this`input, this`pushed, this`forwarded, this`tunnelUp, this`tunnels, this`closing
      ensures Outcome(old(Now(buff, checks, upstream, lookup)), turns, ended, rest, asserted, done, parses)
      ensures closing == (old(closing) || (ended && |input| > 1024 * 1024 * 10))
    {
      ended, rest, asserted, done, parses := RunLoop(buff, checks, upstream, turns, lookup);
      if ended {
        CloseIfDirty();
      }
    }

    /** The end of `solveOnMessage`, after the loop. */
    method CloseIfDirty()
      modifies this`closing
      ensures closing == (old(closing) || |input| > 1024 * 1024 * 10)
    {
      if |input| > 1024 * 1024 * 10 {
        closing := true;
      }
    }

    // ------------------------------------------------------------------ messages and tasks

    /** `onServerMessage`, after the bytes were appended to the live buffer. */
    method OnServerMessage(piece: string)
      requires Tracked()
      modifies this`input, this`pending, this`copies, this`arrived
      ensures Tracked() && Link() == CR.Perform(old(Link()), CR.Arrive(piece))
    {
      ghost var at := CR.Start(Link());
      input := input + piece;
      pending := pending + [input];
      copies := copies + [CR.Copy(Frames(input), at)];
      arrived := arrived + piece;
    }

    /** A call on a connection that is up throughout handles all frames of its copy, if it ends. */
    method HandleCopy(buff: string, checks: nat, upstream: Upstream, turns: nat, lookup: string -> string, ghost todo: seq<string>)
      returns (ended: bool, ghost done: seq<string>)
      requires |buff| < 0x8000_0000 && todo == Frames(buff)
      modifies this`responses, this`input, this`pushed, this`forwarded, this`tunnelUp, this`tunnels, this`closing
      ensures ended && |todo| <= checks ==> done == todo
      ensures Before() == With(old(Before()), done, lookup) && input == DropUpTo(old(input), |Concat(done)|)
    {
      var rest, asserted;
      ghost var parses;
      ended, rest, asserted, done, parses := SolveOnMessage(buff, checks, upstream, turns, lookup);
    }

    /** A thread of the pool runs the task of one pending copy without a break. If its loop ends,
        and the connection is up throughout, it does what the events of that task do. */
    method RunTask(k: nat, checks: nat, upstream: Upstream, turns: nat, lookup: string -> string) returns (ended: bool)
      requires Tracked() && k < |pending| && |pending[k]| < 0x8000_0000
      modifies this
      ensures Tracked()
      ensures ended && |old(copies)[k].todo| <= checks ==>
        Link() == CR.TaskDone(old(Link()), k) && Before() == With(old(Before()), old(copies)[k].todo, lookup)
    {
      ghost var before, done := Link(), [];
      ended, done := HandleCopy(pending[k], checks, upstream, turns, lookup, copies[k].todo);
      handled := handled + CR.Mark(copies[k].at, done);
      RemoveTask(k);
      if ended && |old(copies)[k].todo| <= checks {
        TaskIsDone(before, k, done, Link());
      }
    }

    method RemoveTask(k: nat)
      requires Tracked() && k < |pending|
      modifies this`pending, this`copies
      ensures Tracked() && copies == old(copies)[..k] + old(copies)[k + 1..]
    {
      pending := pending[..k] + pending[k + 1..];
      copies := copies[..k] + copies[k + 1..];
    }
  }

  lemma TaskIsDone(s: CR.Link, k: nat, done: seq<string>, t: CR.Link)
    requires k < |s.copies| && done == s.copies[k].todo && t.live == DropUpTo(s.live, |Concat(done)|)
    requires t.copies == s.copies[..k] + s.copies[k + 1..] && t.handled == s.handled + CR.Mark(s.copies[k].at, done)
    requires t.arrived == s.arrived
    ensures t == CR.TaskDone(s, k)
  {
  }
}
