/** Who listens next. A hand-over wakes the neighbour and nobody else, in a ring whose modulus is
    the number of workers every worker gets its turn, and a worker has its hand-over handler
    exactly if it had it from the start or has been woken. */
module RotationTurns {
  import opened Rotation
  import opened RotationLiveness
  import opened RotationProgress
  import opened Sums

  /** The step that ends a hand-over of `w` changes one entry, the neighbour's, by what `w`
      writes, and none if the neighbour has no slot. */
  lemma HandOverWakesNeighbour(cfg: Config, s: System, w: nat)
    requires Possible(cfg, s, Next(w)) && s.workers[w].stage.Signalling?
    ensures var t := Perform(cfg, s, Next(w));
      t.word == s.word && t.workers == s.workers[w := s.workers[w].(stage := Looping)] && |t.events| == |s.events| &&
      forall u :: 0 <= u < |s.events| ==>
        t.events[u] == s.events[u] + (if u == (w + 1) % cfg.modulus then cfg.wake[w] else 0)
  {
  }

  // ------------------------------------------------------------------ the turn passes on

  function Neighbour(cfg: Config, w: nat): nat
    requires cfg.Valid()
  {
    (w + 1) % cfg.workers
  }

  /** Nobody but `x` does anything or listens, and no wake-up is pending but for `y`. */
  ghost predicate OthersIdle(cfg: Config, s: System, x: nat, y: int) {
    |s.workers| == |s.events| == cfg.workers && x < cfg.workers &&
    (forall u :: 0 <= u < cfg.workers && u != x ==> s.workers[u].stage.Looping? && !s.workers[u].listening) &&
    (forall u :: 0 <= u < cfg.workers && u != y ==> s.events[u] == 0)
  }

  /** How far a hand-over from `w` has come: eight actions lie between one listener and the next. */
  ghost predicate At(cfg: Config, s: System, w: nat, k: nat)
    requires cfg.Valid() && w < cfg.workers
  {
    var n := Neighbour(cfg, w);
    if k == 0 then Rest(cfg, s, w, cfg.workers)
    else if k <= 3 then
      OthersIdle(cfg, s, w, -1) && s.workers[w].handler && !s.workers[w].listening &&
      if k == 1 then s.workers[w].stage.Notifying? && s.workers[w].owner && s.word == 1
      else if k == 2 then s.workers[w].stage.Unlocking? && s.word == 1
      else s.workers[w].stage.Signalling? && s.word == 0
    else if k == 4 then
      OthersIdle(cfg, s, n, n) && s.workers[n].stage.Looping? && !s.workers[n].listening && s.events[n] > 0 && s.word == 0
    else if k <= 7 then
      OthersIdle(cfg, s, n, -1) && s.workers[n].handler && !s.workers[n].listening &&
      if k == 5 then s.workers[n].stage.Woken? && s.word == 0
      else if k == 6 then s.workers[n].stage.Winner? && s.word == 1
      else s.workers[n].stage.Owner? && s.workers[n].owner && s.word == 1
    else k == 8 && Rest(cfg, s, n, cfg.workers)
  }

  function Script(cfg: Config, w: nat): (actions: seq<Action>)
    requires cfg.Valid()
    ensures |actions| == 8
  {
    var n := Neighbour(cfg, w);
    [Trigger(w), Next(w), Next(w), Next(w), Wake(n), Next(n), Next(n), Next(n)]
  }

  ghost predicate Circle(cfg: Config) {
    cfg.Valid() && cfg.Sound() && cfg.modulus == cfg.workers
  }

  /** At each point exactly one action is possible. */
  lemma OnlyAction(cfg: Config, s: System, w: nat, k: nat, a: Action)
    requires Circle(cfg) && w < cfg.workers && k < 8 && At(cfg, s, w, k)
    ensures Possible(cfg, s, a) <==> a == Script(cfg, w)[k]
  {
  }

  lemma SetsOut(cfg: Config, s: System, w: nat)
    requires Circle(cfg) && w < cfg.workers && At(cfg, s, w, 0)
    ensures Possible(cfg, s, Trigger(w)) && At(cfg, Perform(cfg, s, Trigger(w)), w, 1)
  {
    assert cfg.HandsOver(w);
  }

  lemma LetsGo(cfg: Config, s: System, w: nat, k: nat)
    requires Circle(cfg) && w < cfg.workers && 1 <= k <= 3 && At(cfg, s, w, k)
    ensures Possible(cfg, s, Next(w)) && At(cfg, Perform(cfg, s, Next(w)), w, k + 1)
  {
    assert cfg.HandsOver(w);
    if k == 3 {
      HandOverWakesNeighbour(cfg, s, w);
    }
  }

  lemma WakesUp(cfg: Config, s: System, w: nat)
    requires Circle(cfg) && w < cfg.workers && At(cfg, s, w, 4)
    ensures var n := Neighbour(cfg, w); Possible(cfg, s, Wake(n)) && At(cfg, Perform(cfg, s, Wake(n)), w, 5)
  {
  }

  lemma TakesOver(cfg: Config, s: System, w: nat, k: nat)
    requires Circle(cfg) && w < cfg.workers && 5 <= k <= 7 && At(cfg, s, w, k)
    ensures var n := Neighbour(cfg, w); Possible(cfg, s, Next(n)) && At(cfg, Perform(cfg, s, Next(n)), w, k + 1)
  {
    assert cfg.HandsOver(w);
  }

  lemma GoesOn(cfg: Config, s: System, w: nat, k: nat)
    requires Circle(cfg) && w < cfg.workers && k < 8 && At(cfg, s, w, k)
    ensures var a := Script(cfg, w)[k]; Possible(cfg, s, a) && At(cfg, Perform(cfg, s, a), w, k + 1)
  {
    if k == 0 {
      SetsOut(cfg, s, w);
    } else if k <= 3 {
      LetsGo(cfg, s, w, k);
    } else if k == 4 {
      WakesUp(cfg, s, w);
    } else {
      TakesOver(cfg, s, w, k);
    }
  }

  lemma {:induction false} FollowsScript(cfg: Config, s: System, w: nat, k: nat, actions: seq<Action>)
    requires Circle(cfg) && w < cfg.workers && k <= 8 && At(cfg, s, w, k)
    requires Plays(cfg, s, actions) && forall i :: 0 <= i < |actions| && k + i > 0 ==> !actions[i].Trigger?
    ensures |actions| <= 8 - k && forall i :: 0 <= i < |actions| ==> actions[i] == Script(cfg, w)[k + i]
    ensures At(cfg, Final(cfg, s, actions), w, k + |actions|)
    decreases |actions|
  {
    if actions != [] {
      if k < 8 {
        OnlyAction(cfg, s, w, k, actions[0]);
        GoesOn(cfg, s, w, k);
        forall i | 0 <= i < |actions[1..]|
          ensures !actions[1..][i].Trigger?
        {
          assert actions[1..][i] == actions[i + 1];
        }
        FollowsScript(cfg, Perform(cfg, s, actions[0]), w, k + 1, actions[1..]);
        forall i | 0 <= i < |actions|
          ensures actions[i] == Script(cfg, w)[k + i]
        {
          assert i > 0 ==> actions[i] == actions[1..][i - 1];
        }
      } else {
        OnlyTriggers(cfg, s, Neighbour(cfg, w), actions[0]);
      }
    }
  }

  /** While one worker listens and the others are asleep, only a new connection can do anything. */
  lemma OnlyTriggers(cfg: Config, s: System, w: nat, a: Action)
    requires cfg.Valid() && Rest(cfg, s, w, cfg.workers)
    ensures Possible(cfg, s, a) <==> a == Trigger(w)
  {
  }

  lemma PointOf(cfg: Config, s: System, w: nat, k: nat)
    requires Circle(cfg) && w < cfg.workers && 1 <= k <= 8 && At(cfg, s, w, k) && Waiting(cfg, s)
    ensures k == 8
  {
    if k < 8 {
      OnlyAction(cfg, s, w, k, Script(cfg, w)[k]);
    }
  }

  /** Worker `w` listens and all others are asleep when a connection triggers a hand-over.
      Whatever the workers do then, in whatever order, they do at most seven actions more, and
      when they can do no more, exactly the neighbour of `w` listens. */
  lemma NeighbourListensNext(cfg: Config, s: System, w: nat, actions: seq<Action>)
    requires Circle(cfg) && w < cfg.workers && Rest(cfg, s, w, cfg.workers)
    requires actions != [] && Plays(cfg, s, actions) && forall i :: 0 < i < |actions| ==> !actions[i].Trigger?
    ensures |actions| <= 8
    ensures var t := Final(cfg, s, actions);
      Waiting(cfg, t) ==> (|t.workers| == cfg.workers &&
        forall u :: 0 <= u < cfg.workers ==> (t.workers[u].listening <==> u == (w + 1) % cfg.workers))
  {
    FollowsScript(cfg, s, w, 0, actions);
    if Waiting(cfg, Final(cfg, s, actions)) {
      PointOf(cfg, Final(cfg, s, actions), w, |actions|);
    }
  }

  lemma {:induction false} PlaysScript(cfg: Config, s: System, w: nat, k: nat)
    requires Circle(cfg) && w < cfg.workers && k <= 8 && At(cfg, s, w, k)
    ensures Plays(cfg, s, Script(cfg, w)[k..]) && At(cfg, Final(cfg, s, Script(cfg, w)[k..]), w, 8)
    decreases 8 - k
  {
    if k < 8 {
      var a := Script(cfg, w)[k];
      GoesOn(cfg, s, w, k);
      PlaysScript(cfg, Perform(cfg, s, a), w, k + 1);
      Prepend(cfg, s, a, Script(cfg, w)[k + 1..]);
      assert Script(cfg, w)[k..] == [a] + Script(cfg, w)[k + 1..];
    }
  }

  lemma OneTurn(cfg: Config, s: System, w: nat)
    requires Circle(cfg) && w < cfg.workers && Rest(cfg, s, w, cfg.workers)
    ensures (w + 1) % cfg.workers < cfg.workers
    ensures Plays(cfg, s, Script(cfg, w)) && Rest(cfg, Final(cfg, s, Script(cfg, w)), (w + 1) % cfg.workers, cfg.workers)
  {
    PlaysScript(cfg, s, w, 0);
    assert Script(cfg, w)[0..] == Script(cfg, w);
  }

  /** One more hand-over after `before`. */
  lemma OneMoreTurn(cfg: Config, s: System, before: seq<Action>, v: nat)
    requires Circle(cfg) && v < cfg.workers && Plays(cfg, s, before) && Rest(cfg, Final(cfg, s, before), v, cfg.workers)
    ensures (v + 1) % cfg.workers < cfg.workers
    ensures var actions := before + Script(cfg, v);
      Plays(cfg, s, actions) && Rest(cfg, Final(cfg, s, actions), (v + 1) % cfg.workers, cfg.workers)
  {
    OneTurn(cfg, Final(cfg, s, before), v);
    Concatenate(cfg, s, before, Script(cfg, v));
  }

  /** After `k` hand-overs the worker `k` places on listens, so every worker gets its turn. */
  lemma {:induction false} EveryWorkerGetsItsTurn(cfg: Config, s: System, w: nat, k: nat) returns (actions: seq<Action>)
    requires Circle(cfg) && w < cfg.workers && Rest(cfg, s, w, cfg.workers)
    ensures (w + k) % cfg.workers < cfg.workers
    ensures Plays(cfg, s, actions) && Rest(cfg, Final(cfg, s, actions), (w + k) % cfg.workers, cfg.workers)
    decreases k
  {
    if k == 0 {
      SmallRemainder(w, cfg.workers);
      actions := [];
    } else {
      var before := EveryWorkerGetsItsTurn(cfg, s, w, k - 1);
      var v := (w + k - 1) % cfg.workers;
      OneMoreTurn(cfg, s, before, v);
      NextRemainder(w + k - 1, cfg.workers);
      actions := before + Script(cfg, v);
    }
  }

  /** From the fork on, any worker can be made to listen. */
  lemma AnyWorkerCanListen(cfg: Config, owners: seq<bool>, w: nat) returns (actions: seq<Action>)
    requires Circle(cfg) && |owners| == cfg.workers && w < cfg.workers
    ensures Plays(cfg, Forked(cfg, owners), actions) && Final(cfg, Forked(cfg, owners), actions).workers != []
    ensures Rest(cfg, Final(cfg, Forked(cfg, owners), actions), w, cfg.workers)
  {
    var s := Forked(cfg, owners);
    var first := FirstListener(cfg, owners, 0);
    var t := Final(cfg, s, first);
    var second := OthersGoToSleep(cfg, t, 0, 0);
    var third := EveryWorkerGetsItsTurn(cfg, Final(cfg, t, second), 0, w);
    SmallRemainder(w, cfg.workers);
    Concatenate(cfg, t, second, third);
    Concatenate(cfg, s, first, second + third);
    actions := first + (second + third);
  }

  // ------------------------------------------------------------------ the handler

  /** A worker has its handler exactly if it had it before the run or was woken in it. */
  lemma {:induction false} HandlerIffWoken(cfg: Config, s: System, actions: seq<Action>, w: nat)
    requires Plays(cfg, s, actions) && w < |s.workers|
    ensures |Final(cfg, s, actions).workers| == |s.workers|
    ensures Final(cfg, s, actions).workers[w].handler <==> s.workers[w].handler || Wake(w) in actions
    decreases |actions|
  {
    if actions != [] {
      HandlerIffWoken(cfg, Perform(cfg, s, actions[0]), actions[1..], w);
      assert actions == [actions[0]] + actions[1..];
    }
  }

  /** A worker is gone only if the ring has no handlers from the start and it was never woken.
      With a handler, a hand-over it has begun clears the owner flag and goes on. */
  lemma WokenWorkersHandOver(cfg: Config, owners: seq<bool>, actions: seq<Action>, w: nat)
    requires cfg.Valid() && |owners| == cfg.workers && Plays(cfg, Forked(cfg, owners), actions) && w < cfg.workers
    ensures var s := Final(cfg, Forked(cfg, owners), actions);
      |s.workers| == |s.events| == cfg.workers &&
      (s.workers[w].stage.Crashed? ==> !cfg.handlerAtBoot && Wake(w) !in actions) &&
      (s.workers[w].stage.Notifying? && (cfg.handlerAtBoot || Wake(w) in actions) ==>
        Perform(cfg, s, Next(w)).workers[w].stage.Unlocking?)
  {
    ForkedInv(cfg, owners);
    PlayKeepsInv(cfg, Forked(cfg, owners), actions);
    HandlerIffWoken(cfg, Forked(cfg, owners), actions, w);
    var s := Final(cfg, Forked(cfg, owners), actions);
    assert WorkerOk(s.workers[w]);
    if s.workers[w].stage.Notifying? {
      assert HolderAt(s, w);
    }
  }

  /** The whole hand-over of a listening worker with a handler: it stops listening, frees the
      byte, and the entry after its own, if there is one, grows by what it writes. */
  lemma HandOverOf(cfg: Config, s: System, w: nat) returns (actions: seq<Action>)
    requires Inv(cfg, s) && w < cfg.workers && s.workers[w].stage.Looping? && s.workers[w].listening && s.workers[w].handler
    ensures Plays(cfg, s, actions)
    ensures var t := Final(cfg, s, actions);
      t.word == 0 && |t.workers| == |t.events| == cfg.workers && !t.workers[w].listening && t.workers[w].stage.Looping? &&
      (forall u :: 0 <= u < cfg.workers && u != w ==> t.workers[u] == s.workers[u]) &&
      forall u :: 0 <= u < cfg.workers ==>
        t.events[u] == s.events[u] + (if u == (w + 1) % cfg.modulus then cfg.wake[w] else 0)
  {
    assert HolderAt(s, w) && WorkerOk(s.workers[w]);
    var s1 := Perform(cfg, s, Trigger(w));
    var s2 := Perform(cfg, s1, Next(w));
    var s3 := Perform(cfg, s2, Next(w));
    HandOverWakesNeighbour(cfg, s3, w);
    Prepend(cfg, s3, Next(w), []);
    Prepend(cfg, s2, Next(w), [Next(w)] + []);
    Prepend(cfg, s1, Next(w), [Next(w)] + ([Next(w)] + []));
    Prepend(cfg, s, Trigger(w), [Next(w)] + ([Next(w)] + ([Next(w)] + [])));
    actions := [Trigger(w)] + ([Next(w)] + ([Next(w)] + ([Next(w)] + [])));
    assert Final(cfg, Perform(cfg, s3, Next(w)), []) == Perform(cfg, s3, Next(w));
  }

  /** With the source's modulus and values, a listening worker between the first and the last
      that has a handler wakes the next one. */
  lemma MiddleWorkerWakesNext(workers: nat, boot: bool, s: System, w: nat) returns (actions: seq<Action>)
    requires var cfg := CodeConfig(workers).(handlerAtBoot := boot);
      cfg.Valid() && Inv(cfg, s) && 0 < w < workers - 1 &&
      s.workers[w].stage.Looping? && s.workers[w].listening && s.workers[w].handler
    ensures var cfg := CodeConfig(workers).(handlerAtBoot := boot);
      Plays(cfg, s, actions) &&
      var t := Final(cfg, s, actions);
      t.word == 0 && |t.events| == workers && t.events[w + 1] == s.events[w + 1] + w && t.events[w + 1] > 0
  {
    var cfg := CodeConfig(workers).(handlerAtBoot := boot);
    SmallRemainder(w + 1, workers + 1);
    assert (w + 1) % cfg.modulus == w + 1 && cfg.wake[w] == w;
    actions := HandOverOf(cfg, s, w);
  }

  // ------------------------------------------------------------------ a ring without handlers at the start

  /** Nobody has a handler, a pending wake-up, or a hand-over under way. */
  ghost predicate NeverWoken(s: System) {
    |s.events| == |s.workers| &&
    (forall w :: 0 <= w < |s.workers| ==>
      !s.workers[w].handler && !s.workers[w].stage.Unlocking? && !s.workers[w].stage.Signalling?) &&
    (forall w :: 0 <= w < |s.events| ==> s.events[w] == 0)
  }

  lemma {:induction false} NobodyIsWoken(cfg: Config, s: System, actions: seq<Action>, w: nat)
    requires NeverWoken(s) && Plays(cfg, s, actions)
    ensures Wake(w) !in actions && NeverWoken(Final(cfg, s, actions))
    decreases |actions|
  {
    if actions != [] {
      NobodyIsWoken(cfg, Perform(cfg, s, actions[0]), actions[1..], w);
      assert actions == [actions[0]] + actions[1..];
    }
  }

  /** In the source's ring the handler comes with a wake-up, but a wake-up needs a handler: over
      all runs from the fork nobody is ever woken, and a hand-over always ends the listener. */
  lemma CodeRingNeverWakes(workers: nat, owners: seq<bool>, actions: seq<Action>, w: nat)
    requires w < workers == |owners| && Plays(CodeConfig(workers), Forked(CodeConfig(workers), owners), actions)
    ensures var cfg := CodeConfig(workers);
      var s := Final(cfg, Forked(cfg, owners), actions);
      cfg.Valid() && Wake(w) !in actions && |s.workers| == |s.events| == workers &&
      (s.workers[w].stage.Notifying? ==> Perform(cfg, s, Next(w)).workers[w].stage.Crashed?)
  {
    var cfg := CodeConfig(workers);
    HandlerIffWoken(cfg, Forked(cfg, owners), actions, w);
    NobodyIsWoken(cfg, Forked(cfg, owners), actions, w);
  }
}
