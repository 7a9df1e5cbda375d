/** No lost hand-over. In a sound ring the right to listen is always held by someone or on its
    way to someone; in any other ring some run leaves every worker asleep for good. */
module RotationLiveness {
  import opened Rotation

  lemma Prepend(cfg: Config, s: System, a: Action, rest: seq<Action>)
    requires Possible(cfg, s, a) && Plays(cfg, Perform(cfg, s, a), rest)
    ensures Plays(cfg, s, [a] + rest) && Final(cfg, s, [a] + rest) == Final(cfg, Perform(cfg, s, a), rest)
  {
    assert ([a] + rest)[1..] == rest;
  }

  lemma {:induction false} Concatenate(cfg: Config, s: System, first: seq<Action>, second: seq<Action>)
    requires Plays(cfg, s, first) && Plays(cfg, Final(cfg, s, first), second)
    ensures Plays(cfg, s, first + second)
    ensures Final(cfg, s, first + second) == Final(cfg, Final(cfg, s, first), second)
    decreases |first|
  {
    if first == [] {
      assert first + second == second;
    } else {
      var a, rest := first[0], first[1..];
      assert first + second == [a] + (rest + second);
      Concatenate(cfg, Perform(cfg, s, a), rest, second);
      Prepend(cfg, s, a, rest + second);
    }
  }

  // ------------------------------------------------------------------ what a sound ring keeps

  /** Worker `w` has yet to try, is about to try, or is about to wake its neighbour. */
  ghost predicate Promising(s: System, w: int) {
    0 <= w < |s.workers| == |s.events| &&
    (s.workers[w].stage.Booting? || s.workers[w].stage.Woken? || s.workers[w].stage.Signalling? || s.events[w] > 0)
  }

  ghost predicate NothingLost(s: System) {
    s.word == 0 ==> exists w :: Promising(s, w)
  }

  ghost predicate Alive(cfg: Config, s: System) {
    Inv(cfg, s) && NothingLost(s) &&
    forall w :: 0 <= w < |s.workers| ==> s.workers[w].handler && !s.workers[w].stage.Crashed?
  }

  lemma ForkedAlive(cfg: Config, owners: seq<bool>)
    requires cfg.Valid() && cfg.Sound() && |owners| == cfg.workers
    ensures Alive(cfg, Forked(cfg, owners))
  {
    ForkedInv(cfg, owners);
    assert cfg.HandsOver(0);
    assert Promising(Forked(cfg, owners), 0);
  }

  lemma ActionKeepsHandlers(cfg: Config, s: System, a: Action)
    requires Alive(cfg, s) && Possible(cfg, s, a)
    ensures var t := Perform(cfg, s, a);
      forall w :: 0 <= w < |t.workers| ==> t.workers[w].handler && !t.workers[w].stage.Crashed?
  {
    if s.workers[a.w].stage.Notifying? {
      assert HolderAt(s, a.w) && WorkerOk(s.workers[a.w]);
    }
  }

  /** The worker whose action it was, or its neighbour, or whoever was promising before. */
  lemma ActionKeepsNothingLost(cfg: Config, s: System, a: Action)
    requires Alive(cfg, s) && cfg.Sound() && Possible(cfg, s, a)
    ensures NothingLost(Perform(cfg, s, a))
  {
    var t := Perform(cfg, s, a);
    assert cfg.HandsOver(a.w);
    if s.workers[a.w].stage.Signalling? {
      assert Promising(t, (a.w + 1) % cfg.modulus);
    } else if t.workers[a.w].stage.Woken? || t.workers[a.w].stage.Signalling? {
      assert Promising(t, a.w);
    } else if t.word == 0 && s.word == 0 {
      var w :| Promising(s, w);
      assert w != a.w ==> Promising(t, w);
      assert HolderAt(s, a.w) <==> Holds(s.workers[a.w]);
    }
  }

  lemma {:induction false} PlayKeepsAlive(cfg: Config, s: System, actions: seq<Action>)
    requires Alive(cfg, s) && cfg.Sound() && Plays(cfg, s, actions)
    ensures Alive(cfg, Final(cfg, s, actions))
    decreases |actions|
  {
    if actions != [] {
      ActionKeepsInv(cfg, s, actions[0]);
      ActionKeepsHandlers(cfg, s, actions[0]);
      ActionKeepsNothingLost(cfg, s, actions[0]);
      PlayKeepsAlive(cfg, Perform(cfg, s, actions[0]), actions[1..]);
    }
  }

  /** In every reachable state of a sound ring, if the byte is 0 then some worker has not tried
      yet, has a wake-up pending, is about to write one, or has read one and is about to try. */
  lemma NoLostHandOver(cfg: Config, owners: seq<bool>, actions: seq<Action>)
    requires cfg.Valid() && cfg.Sound() && |owners| == cfg.workers && Plays(cfg, Forked(cfg, owners), actions)
    ensures NothingLost(Final(cfg, Forked(cfg, owners), actions))
  {
    ForkedAlive(cfg, owners);
    PlayKeepsAlive(cfg, Forked(cfg, owners), actions);
  }

  // ------------------------------------------------------------------ a listener can always be reached

  ghost predicate SomeoneListens(s: System) {
    exists w :: 0 <= w < |s.workers| && s.workers[w].listening
  }

  ghost predicate CanListen(cfg: Config, s: System) {
    exists actions :: Plays(cfg, s, actions) && SomeoneListens(Final(cfg, s, actions))
  }

  lemma AlreadyListening(cfg: Config, s: System, w: nat)
    requires w < |s.workers| && s.workers[w].listening
    ensures CanListen(cfg, s)
  {
    assert Plays(cfg, s, []) && Final(cfg, s, []) == s && SomeoneListens(s);
  }

  lemma OneStepCloser(cfg: Config, s: System, a: Action)
    requires Possible(cfg, s, a) && CanListen(cfg, Perform(cfg, s, a))
    ensures CanListen(cfg, s)
  {
    var t := Perform(cfg, s, a);
    var rest :| Plays(cfg, t, rest) && SomeoneListens(Final(cfg, t, rest));
    Prepend(cfg, s, a, rest);
  }

  /** Past the winning CAS a worker ends up listening. */
  lemma WinnerListens(cfg: Config, s: System, w: nat)
    requires Inv(cfg, s) && w < cfg.workers && (s.workers[w].stage.Winner? || s.workers[w].stage.Owner?)
    ensures CanListen(cfg, s)
  {
    assert WorkerOk(s.workers[w]);
    var t := Perform(cfg, s, Next(w));
    if s.workers[w].stage.Owner? {
      AlreadyListening(cfg, t, w);
    } else {
      AlreadyListening(cfg, Perform(cfg, t, Next(w)), w);
      OneStepCloser(cfg, t, Next(w));
    }
    OneStepCloser(cfg, s, Next(w));
  }

  lemma TryingListens(cfg: Config, s: System, w: nat)
    requires Inv(cfg, s) && w < cfg.workers && s.word == 0 && (s.workers[w].stage.Booting? || s.workers[w].stage.Woken?)
    ensures CanListen(cfg, s)
  {
    ActionKeepsInv(cfg, s, Next(w));
    WinnerListens(cfg, Perform(cfg, s, Next(w)), w);
    OneStepCloser(cfg, s, Next(w));
  }

  /** A pending wake-up is enough once the byte is free. */
  lemma PendingListens(cfg: Config, s: System, w: nat)
    requires Inv(cfg, s) && w < cfg.workers && s.word == 0 && s.events[w] > 0
    ensures CanListen(cfg, s)
  {
    assert HolderAt(s, w) <==> Holds(s.workers[w]);
    if s.workers[w].stage.Looping? {
      ActionKeepsInv(cfg, s, Wake(w));
      TryingListens(cfg, Perform(cfg, s, Wake(w)), w);
      OneStepCloser(cfg, s, Wake(w));
    } else if s.workers[w].stage.Signalling? {
      var t := Perform(cfg, s, Next(w));
      ActionKeepsInv(cfg, s, Next(w));
      ActionKeepsInv(cfg, t, Wake(w));
      TryingListens(cfg, Perform(cfg, t, Wake(w)), w);
      OneStepCloser(cfg, t, Wake(w));
      OneStepCloser(cfg, s, Next(w));
    } else {
      TryingListens(cfg, s, w);
    }
  }

  lemma PromisingListens(cfg: Config, s: System, w: nat)
    requires Inv(cfg, s) && cfg.Sound() && s.word == 0 && Promising(s, w)
    ensures CanListen(cfg, s)
  {
    if s.events[w] > 0 {
      PendingListens(cfg, s, w);
    } else if s.workers[w].stage.Signalling? {
      assert cfg.HandsOver(w);
      ActionKeepsInv(cfg, s, Next(w));
      PendingListens(cfg, Perform(cfg, s, Next(w)), (w + 1) % cfg.modulus);
      OneStepCloser(cfg, s, Next(w));
    } else {
      TryingListens(cfg, s, w);
    }
  }

  lemma UnlockingListens(cfg: Config, s: System, w: nat)
    requires Inv(cfg, s) && cfg.Sound() && w < cfg.workers && s.workers[w].stage.Unlocking?
    ensures CanListen(cfg, s)
  {
    assert HolderAt(s, w);
    ActionKeepsInv(cfg, s, Next(w));
    assert Promising(Perform(cfg, s, Next(w)), w);
    PromisingListens(cfg, Perform(cfg, s, Next(w)), w);
    OneStepCloser(cfg, s, Next(w));
  }

  lemma HolderListens(cfg: Config, s: System, w: nat)
    requires Alive(cfg, s) && cfg.Sound() && HolderAt(s, w)
    ensures CanListen(cfg, s)
  {
    var me := s.workers[w];
    assert WorkerOk(me);
    if me.listening {
      AlreadyListening(cfg, s, w);
    } else if me.stage.Notifying? {
      ActionKeepsInv(cfg, s, Next(w));
      UnlockingListens(cfg, Perform(cfg, s, Next(w)), w);
      OneStepCloser(cfg, s, Next(w));
    } else if me.stage.Unlocking? {
      UnlockingListens(cfg, s, w);
    } else {
      WinnerListens(cfg, s, w);
    }
  }

  lemma AliveCanListen(cfg: Config, s: System)
    requires Alive(cfg, s) && cfg.Sound()
    ensures CanListen(cfg, s)
  {
    if s.word == 0 {
      var w :| Promising(s, w);
      PromisingListens(cfg, s, w);
    } else {
      var w :| HolderAt(s, w);
      HolderListens(cfg, s, w);
    }
  }

  // ------------------------------------------------------------------ any other ring falls asleep

  /** Every worker is in its loop or gone, none listens, and no wake-up is pending. */
  ghost predicate Asleep(s: System) {
    |s.events| == |s.workers| &&
    forall w :: 0 <= w < |s.workers| ==>
      (s.workers[w].stage.Looping? || s.workers[w].stage.Crashed?) && !s.workers[w].listening && s.events[w] == 0
  }

  lemma AsleepForGood(cfg: Config, s: System)
    requires Asleep(s)
    ensures !CanListen(cfg, s)
  {
    forall actions | Plays(cfg, s, actions)
      ensures !SomeoneListens(Final(cfg, s, actions))
    {
      if actions != [] {
        assert Possible(cfg, s, actions[0]);
      }
    }
  }

  /** Worker `i` listens, workers below `j` have tried and gone to their loops, the rest have not. */
  ghost predicate Rest(cfg: Config, s: System, i: nat, j: nat) {
    cfg.Valid() && i < cfg.workers == |s.workers| == |s.events| && j <= cfg.workers && s.word == 1 &&
    s.workers[i] == Worker(Looping, true, true, true, cfg.handlerAtBoot) &&
    forall w :: 0 <= w < cfg.workers ==>
      s.events[w] == 0 &&
      (w != i ==> !s.workers[w].listening && s.workers[w].stage == if w < j then Looping else Booting)
  }

  lemma FirstListener(cfg: Config, owners: seq<bool>, i: nat) returns (actions: seq<Action>)
    requires cfg.Valid() && |owners| == cfg.workers && i < cfg.workers
    ensures Plays(cfg, Forked(cfg, owners), actions)
    ensures Rest(cfg, Final(cfg, Forked(cfg, owners), actions), i, 0)
  {
    var s := Forked(cfg, owners);
    var a := Next(i);
    var s1 := Perform(cfg, s, a);
    var s2 := Perform(cfg, s1, a);
    var s3 := Perform(cfg, s2, a);
    Prepend(cfg, s2, a, []);
    Prepend(cfg, s1, a, [a] + []);
    Prepend(cfg, s, a, [a] + ([a] + []));
    actions := [a] + ([a] + ([a] + []));
    assert Final(cfg, s3, []) == s3;
  }

  lemma {:induction false} OthersGoToSleep(cfg: Config, s: System, i: nat, j: nat) returns (actions: seq<Action>)
    requires Rest(cfg, s, i, j)
    ensures Plays(cfg, s, actions) && Rest(cfg, Final(cfg, s, actions), i, cfg.workers)
    decreases cfg.workers - j
  {
    if j == cfg.workers {
      actions := [];
    } else if j == i {
      actions := OthersGoToSleep(cfg, s, i, j + 1);
    } else {
      var t := Perform(cfg, s, Next(j));
      assert Rest(cfg, t, i, j + 1);
      var rest := OthersGoToSleep(cfg, t, i, j + 1);
      Prepend(cfg, s, Next(j), rest);
      actions := [Next(j)] + rest;
    }
  }

  lemma HandOverFails(cfg: Config, s: System, i: nat) returns (actions: seq<Action>)
    requires Rest(cfg, s, i, cfg.workers) && !cfg.HandsOver(i)
    ensures Plays(cfg, s, actions) && Asleep(Final(cfg, s, actions))
  {
    var a := Next(i);
    var s1 := Perform(cfg, s, Trigger(i));
    var s2 := Perform(cfg, s1, a);
    if !cfg.handlerAtBoot {
      Prepend(cfg, s1, a, []);
      Prepend(cfg, s, Trigger(i), [a] + []);
      actions := [Trigger(i)] + ([a] + []);
      assert Final(cfg, s2, []) == s2;
    } else {
      var s3 := Perform(cfg, s2, a);
      var s4 := Perform(cfg, s3, a);
      Prepend(cfg, s3, a, []);
      Prepend(cfg, s2, a, [a] + []);
      Prepend(cfg, s1, a, [a] + ([a] + []));
      Prepend(cfg, s, Trigger(i), [a] + ([a] + ([a] + [])));
      actions := [Trigger(i)] + ([a] + ([a] + ([a] + [])));
      assert Final(cfg, s4, []) == s4;
    }
  }

  /** Worker `i` starts first, the others find the lock taken, and `i` hands over to nobody. */
  lemma UnsoundRingFallsAsleep(cfg: Config, owners: seq<bool>, i: nat) returns (actions: seq<Action>)
    requires cfg.Valid() && |owners| == cfg.workers && i < cfg.workers && !cfg.HandsOver(i)
    ensures Plays(cfg, Forked(cfg, owners), actions) && Asleep(Final(cfg, Forked(cfg, owners), actions))
  {
    var s := Forked(cfg, owners);
    var first := FirstListener(cfg, owners, i);
    var t := Final(cfg, s, first);
    var second := OthersGoToSleep(cfg, t, i, 0);
    var u := Final(cfg, t, second);
    var third := HandOverFails(cfg, u, i);
    Concatenate(cfg, t, second, third);
    Concatenate(cfg, s, first, second + third);
    actions := first + (second + third);
  }

  /** A ring never loses the right to listen if and only if, for every worker, the handler is
      there from the start, the neighbour's slot exists, and the value written wakes it. */
  lemma ListeningIsNeverLostIffSound(cfg: Config, owners: seq<bool>)
    requires cfg.Valid() && |owners| == cfg.workers
    ensures (forall actions :: Plays(cfg, Forked(cfg, owners), actions) ==> CanListen(cfg, Final(cfg, Forked(cfg, owners), actions)))
      <==> cfg.Sound()
  {
    var s := Forked(cfg, owners);
    if cfg.Sound() {
      forall actions | Plays(cfg, s, actions)
        ensures CanListen(cfg, Final(cfg, s, actions))
      {
        ForkedAlive(cfg, owners);
        PlayKeepsAlive(cfg, s, actions);
        AliveCanListen(cfg, Final(cfg, s, actions));
      }
    } else {
      var i :| 0 <= i < cfg.workers && !cfg.HandsOver(i);
      var actions := UnsoundRingFallsAsleep(cfg, owners, i);
      AsleepForGood(cfg, Final(cfg, s, actions));
      assert !(forall play :: Plays(cfg, s, play) ==> CanListen(cfg, Final(cfg, s, play))) by {
        assert Plays(cfg, s, actions) && !CanListen(cfg, Final(cfg, s, actions));
      }
    }
  }

  /** With the handler installed at start, the code's ring hands over from a worker exactly
      when it is neither the first (it writes a zero) nor the last (the next slot is not there). */
  lemma CodeRingHandsOverInTheMiddle(workers: nat, w: nat)
    requires w < workers
    ensures var cfg := CodeConfig(workers).(handlerAtBoot := true);
      cfg.Valid() && (cfg.HandsOver(w) <==> 0 < w < workers - 1)
  {
    var cfg := CodeConfig(workers).(handlerAtBoot := true);
    SmallRemainder(w + 1, workers + 1);
    assert cfg.wake[w] == w && (w + 1) % cfg.modulus == w + 1;
  }

  lemma SmallRemainder(a: nat, b: nat)
    requires a < b
    ensures a % b == a
  {
  }

  /** As the code sets it up, with no handler before the first wake-up, any worker that
      listens first leaves the whole ring asleep. */
  lemma CodeRingLosesListening(workers: nat, owners: seq<bool>, i: nat) returns (actions: seq<Action>)
    requires i < workers == |owners|
    ensures var cfg := CodeConfig(workers);
      cfg.Valid() && Plays(cfg, Forked(cfg, owners), actions) && Asleep(Final(cfg, Forked(cfg, owners), actions))
  {
    actions := UnsoundRingFallsAsleep(CodeConfig(workers), owners, i);
  }
}
