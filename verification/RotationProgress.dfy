/** A listener is not only possible in a sound ring but inevitable: between two hand-over
    triggers every run is bounded, and where it can go no further someone listens. */
module RotationProgress {
  import opened Rotation
  import opened RotationLiveness
  import opened Sums

  /** What one worker still has to do, counting the wake-up it is about to send. */
  function Effort(stage: Stage): nat {
    match stage
    case Notifying => 7
    case Unlocking => 6
    case Signalling => 5
    case Booting => 3
    case Woken => 3
    case Winner => 2
    case Owner => 1
    case Looping => 0
    case Crashed => 0
  }

  function Pending(event: nat): nat {
    if event > 0 then 4 else 0
  }

  function Efforts(workers: seq<Worker>): seq<nat> {
    seq(|workers|, w requires 0 <= w < |workers| => Effort(workers[w].stage))
  }

  function Pendings(events: seq<nat>): seq<nat> {
    seq(|events|, w requires 0 <= w < |events| => Pending(events[w]))
  }

  function Work(s: System): nat {
    Sum(Efforts(s.workers)) + Sum(Pendings(s.events))
  }

  lemma EffortsUpdate(workers: seq<Worker>, w: nat, me: Worker)
    requires w < |workers|
    ensures Sum(Efforts(workers[w := me])) == Sum(Efforts(workers)) - Effort(workers[w].stage) + Effort(me.stage)
  {
    SumUpdate(Efforts(workers), w, Effort(me.stage));
    assert Efforts(workers[w := me]) == Efforts(workers)[w := Effort(me.stage)];
  }

  lemma PendingsUpdate(events: seq<nat>, w: nat, event: nat)
    requires w < |events|
    ensures Sum(Pendings(events[w := event])) == Sum(Pendings(events)) - Pending(events[w]) + Pending(event)
  {
    SumUpdate(Pendings(events), w, Pending(event));
    assert Pendings(events[w := event]) == Pendings(events)[w := Pending(event)];
  }

  /** What an eventfd write adds is what the writer had still to do for it. */
  lemma SignalAddsLittle(cfg: Config, w: nat, events: seq<nat>)
    requires cfg.Valid() && w < cfg.workers
    ensures Sum(Pendings(Signal(cfg, w, events))) <= Sum(Pendings(events)) + 4
  {
    var next := (w + 1) % cfg.modulus;
    if next < |events| {
      PendingsUpdate(events, next, events[next] + cfg.wake[w]);
    }
  }

  lemma OthersKeepEvents(cfg: Config, s: System, w: nat)
    requires Possible(cfg, s, Next(w))
    ensures var t := Perform(cfg, s, Next(w));
      t.events == (if s.workers[w].stage.Signalling? then Signal(cfg, w, s.events) else s.events) &&
      Effort(t.workers[w].stage) + (if s.workers[w].stage.Signalling? then 4 else 0) < Effort(s.workers[w].stage)
  {
  }

  /** Every action but a trigger leaves less to do, in any ring. */
  lemma ActionLowersWork(cfg: Config, s: System, a: Action)
    requires Possible(cfg, s, a) && !a.Trigger?
    ensures Work(Perform(cfg, s, a)) < Work(s)
  {
    EffortsUpdate(s.workers, a.w, Perform(cfg, s, a).workers[a.w]);
    if a.Wake? {
      PendingsUpdate(s.events, a.w, 0);
    } else {
      OthersKeepEvents(cfg, s, a.w);
      SignalAddsLittle(cfg, a.w, s.events);
    }
  }

  ghost predicate NoTrigger(actions: seq<Action>) {
    forall k :: 0 <= k < |actions| ==> !actions[k].Trigger?
  }

  lemma {:induction false} RunIsBounded(cfg: Config, s: System, actions: seq<Action>)
    requires Plays(cfg, s, actions) && NoTrigger(actions)
    ensures |actions| + Work(Final(cfg, s, actions)) <= Work(s)
    decreases |actions|
  {
    if actions != [] {
      assert NoTrigger(actions[1..]);
      ActionLowersWork(cfg, s, actions[0]);
      RunIsBounded(cfg, Perform(cfg, s, actions[0]), actions[1..]);
    }
  }

  /** No worker can do anything until a connection triggers a hand-over. */
  ghost predicate Waiting(cfg: Config, s: System) {
    forall a: Action :: Possible(cfg, s, a) ==> a.Trigger?
  }

  lemma WaitingListens(cfg: Config, s: System)
    requires Alive(cfg, s) && Waiting(cfg, s)
    ensures SomeoneListens(s)
  {
    forall w | 0 <= w < |s.workers|
      ensures s.workers[w].stage.Looping? && s.events[w] == 0
    {
      assert !Possible(cfg, s, Next(w));
      assert !Possible(cfg, s, Wake(w));
    }
    assert forall w :: !Promising(s, w);
    var w :| HolderAt(s, w);
    assert s.workers[w].listening;
  }

  /** From every state a sound ring reaches, whatever the workers do in whatever order without
      a new trigger, they do at most `Work` actions, and when none is left someone listens. */
  lemma ListenerIsInevitable(cfg: Config, owners: seq<bool>, before: seq<Action>, actions: seq<Action>)
    requires cfg.Valid() && cfg.Sound() && |owners| == cfg.workers && Plays(cfg, Forked(cfg, owners), before)
    requires Plays(cfg, Final(cfg, Forked(cfg, owners), before), actions) && NoTrigger(actions)
    ensures var s := Final(cfg, Forked(cfg, owners), before);
      |actions| <= Work(s) &&
      (Waiting(cfg, Final(cfg, s, actions)) ==> SomeoneListens(Final(cfg, s, actions)))
  {
    ForkedAlive(cfg, owners);
    PlayKeepsAlive(cfg, Forked(cfg, owners), before);
    var s := Final(cfg, Forked(cfg, owners), before);
    RunIsBounded(cfg, s, actions);
    PlayKeepsAlive(cfg, s, actions);
    if Waiting(cfg, Final(cfg, s, actions)) {
      WaitingListens(cfg, Final(cfg, s, actions));
    }
  }
}
