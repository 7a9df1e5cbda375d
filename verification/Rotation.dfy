/** How worker processes take turns listening: one shared byte taken by compare-and-swap, one
    eventfd per worker, and a hand-over from the worker that has listened long enough to its
    neighbour in the ring. Each atomic action of a worker's event loop is one step. */
module Rotation {
  import opened ProcessMutexModel

  /** What the code fixes when the workers are forked: how many there are, the modulus that
      picks the neighbour, whether the hand-over handler is there before the first wake-up,
      and the value each worker writes to wake its neighbour. */
  datatype Config = Config(workers: nat, modulus: nat, handlerAtBoot: bool, wake: seq<nat>) {
    predicate Valid() {
      0 < workers == |wake| && 0 < modulus
    }

    /** The neighbour has a slot, the value wakes it, and the handler is in place. */
    predicate HandsOver(w: nat)
      requires Valid() && w < workers
    {
      handlerAtBoot && (w + 1) % modulus < workers && wake[w] > 0
    }

    ghost predicate Sound()
      requires Valid()
    {
      forall w :: 0 <= w < workers ==> HandsOver(w)
    }
  }

  /** The ring as the source sets it up for `workers` workers: one more process (the master)
      is counted in the modulus, the handler comes with the first wake-up, and the value
      written is the worker's own number. */
  function CodeConfig(workers: nat): Config {
    Config(workers, workers + 1, false, seq(workers, i => i))
  }

  datatype Stage =
    | Booting      // has not tried to start yet
    | Looping      // in its event loop
    | Woken        // has read its eventfd, about to try the lock
    | Winner       // past the winning CAS
    | Owner        // past setting the owner flag, about to enable listening
    | Notifying    // has disabled listening, about to call the hand-over handler
    | Unlocking    // past clearing the owner flag, about to release the byte
    | Signalling   // past releasing the byte, about to write the eventfd
    | Crashed      // no handler, or a failed assertion

  datatype Worker = Worker(stage: Stage, owner: bool, started: bool, listening: bool, handler: bool)

  /** What one worker's step can see and change. */
  datatype View = View(word: nat, me: Worker, events: seq<nat>)

  /** `TcpServer::acceptorSchedulingHandler`. */
  function Toggle(me: Worker): Worker {
    me.(listening := !me.listening)
  }

  /** `ProxyServer::enableListen`. */
  function EnableListen(me: Worker): Worker {
    if !me.started then me.(started := true, listening := true) else Toggle(me)
  }

  /** The eventfd write that ends a hand-over; a slot outside the ring wakes nobody. */
  function Signal(cfg: Config, w: nat, events: seq<nat>): seq<nat>
    requires cfg.Valid() && w < cfg.workers
  {
    var next := (w + 1) % cfg.modulus;
    if next < |events| then events[next := events[next] + cfg.wake[w]] else events
  }

  /** The next action of a worker that is in the middle of something. */
  function Advance(cfg: Config, w: nat, v: View): View
    requires cfg.Valid() && w < cfg.workers
  {
    match v.me.stage
    case Booting => TryLock(v)
    case Woken => TryLock(v)
    case Winner => v.(me := v.me.(owner := true, stage := Owner))
    case Owner => v.(me := EnableListen(v.me).(stage := Looping))
    case Notifying =>
      if v.me.handler && v.me.owner && v.word == 1 then v.(me := v.me.(owner := false, stage := Unlocking))
      else v.(me := v.me.(stage := Crashed))
    case Unlocking => v.(word := CompareAndSwap(v.word, 1, 0).0, me := v.me.(stage := Signalling))
    case Signalling => v.(events := Signal(cfg, w, v.events), me := v.me.(stage := Looping))
    case Looping => v
    case Crashed => v
  }

  function TryLock(v: View): View {
    var (word, ok) := CompareAndSwap(v.word, 0, 1);
    View(word, v.me.(stage := if ok then Winner else Looping), v.events)
  }

  /** The head of `EventHandler`: drain the eventfd, install the handler. */
  function WakeUp(w: nat, v: View): View
    requires w < |v.events|
  {
    v.(events := v.events[w := 0], me := v.me.(handler := true, stage := Woken))
  }

  /** A new connection on a listener that has had its share: toggle, then hand over. */
  function HandOver(v: View): View {
    v.(me := Toggle(v.me).(stage := Notifying))
  }

  datatype System = System(word: nat, workers: seq<Worker>, events: seq<nat>)

  datatype Action = Next(w: nat) | Wake(w: nat) | Trigger(w: nat)

  predicate Possible(cfg: Config, s: System, a: Action) {
    cfg.Valid() && |s.workers| == |s.events| == cfg.workers && a.w < cfg.workers &&
    var me := s.workers[a.w];
    match a
    case Next(_) => me.stage != Looping && me.stage != Crashed
    case Wake(w) => me.stage == Looping && s.events[w] > 0
    case Trigger(_) => me.stage == Looping && me.listening
  }

  function ViewOf(s: System, w: nat): View
    requires w < |s.workers|
  {
    View(s.word, s.workers[w], s.events)
  }

  function Perform(cfg: Config, s: System, a: Action): System
    requires Possible(cfg, s, a)
  {
    var v := ViewOf(s, a.w);
    var u := match a
      case Next(w) => Advance(cfg, w, v)
      case Wake(w) => WakeUp(w, v)
      case Trigger(_) => HandOver(v);
    System(u.word, s.workers[a.w := u.me], u.events)
  }

  ghost predicate Plays(cfg: Config, s: System, actions: seq<Action>)
    decreases |actions|
  {
    actions == [] ||
    (Possible(cfg, s, actions[0]) && Plays(cfg, Perform(cfg, s, actions[0]), actions[1..]))
  }

  ghost function Final(cfg: Config, s: System, actions: seq<Action>): System
    requires Plays(cfg, s, actions)
    decreases |actions|
  {
    if actions == [] then s else Final(cfg, Perform(cfg, s, actions[0]), actions[1..])
  }

  /** All workers forked, the byte free, the owner flags whatever the memory held. */
  function Forked(cfg: Config, owners: seq<bool>): System
    requires |owners| == cfg.workers
  {
    System(0,
           seq(cfg.workers, w requires 0 <= w < cfg.workers => Worker(Booting, owners[w], false, false, cfg.handlerAtBoot)),
           seq(cfg.workers, _ => 0))
  }

  // ------------------------------------------------------------------ safety, in any ring

  /** Between its winning CAS and its releasing CAS; a crashed worker never releases. */
  predicate Holds(me: Worker) {
    me.listening || me.stage.Winner? || me.stage.Owner? || me.stage.Notifying? || me.stage.Unlocking? || me.stage.Crashed?
  }

  ghost predicate HolderAt(s: System, w: int) {
    0 <= w < |s.workers| && Holds(s.workers[w])
  }

  predicate WorkerOk(me: Worker) {
    (me.listening ==> (me.stage.Looping? || me.stage.Woken?) && me.owner && me.started) &&
    (me.stage.Owner? || me.stage.Notifying? ==> me.owner) &&
    (me.stage.Crashed? ==> !me.handler)
  }

  ghost predicate Inv(cfg: Config, s: System) {
    cfg.Valid() && |s.workers| == |s.events| == cfg.workers &&
    (s.word == 0 || s.word == 1) &&
    (s.word == 1 <==> exists w :: HolderAt(s, w)) &&
    (forall w, u :: HolderAt(s, w) && HolderAt(s, u) ==> w == u) &&
    (forall w :: 0 <= w < |s.workers| ==> WorkerOk(s.workers[w]))
  }

  /** One worker's action keeps its own flags in order and moves the byte with its holding. */
  lemma ActionKeepsWorker(cfg: Config, s: System, a: Action)
    requires Possible(cfg, s, a) && WorkerOk(s.workers[a.w]) && (s.word == 0 || s.word == 1)
    requires Holds(s.workers[a.w]) ==> s.word == 1
    ensures var t := Perform(cfg, s, a);
      WorkerOk(t.workers[a.w]) && (t.word == 0 || t.word == 1) &&
      (Holds(t.workers[a.w]) ==> t.word == 1) &&
      (Holds(t.workers[a.w]) == Holds(s.workers[a.w]) ==> t.word == s.word) &&
      (Holds(t.workers[a.w]) && !Holds(s.workers[a.w]) ==> s.word == 0) &&
      (Holds(s.workers[a.w]) && !Holds(t.workers[a.w]) ==> t.word == 0)
  {
  }

  lemma ActionKeepsInv(cfg: Config, s: System, a: Action)
    requires Inv(cfg, s) && Possible(cfg, s, a)
    ensures Inv(cfg, Perform(cfg, s, a))
  {
    var t := Perform(cfg, s, a);
    assert HolderAt(s, a.w) <==> Holds(s.workers[a.w]);
    assert HolderAt(t, a.w) <==> Holds(t.workers[a.w]);
    ActionKeepsWorker(cfg, s, a);
    assert forall u :: u != a.w ==> (HolderAt(t, u) <==> HolderAt(s, u));
  }

  lemma {:induction false} PlayKeepsInv(cfg: Config, s: System, actions: seq<Action>)
    requires Inv(cfg, s) && Plays(cfg, s, actions)
    ensures Inv(cfg, Final(cfg, s, actions))
    decreases |actions|
  {
    if actions != [] {
      ActionKeepsInv(cfg, s, actions[0]);
      PlayKeepsInv(cfg, Perform(cfg, s, actions[0]), actions[1..]);
    }
  }

  lemma ForkedInv(cfg: Config, owners: seq<bool>)
    requires cfg.Valid() && |owners| == cfg.workers
    ensures Inv(cfg, Forked(cfg, owners))
  {
  }

  /** In any ring, whatever the owner flags held: at most one worker listens, and it is the
      only one between its winning and its releasing CAS. */
  lemma AtMostOneListens(cfg: Config, owners: seq<bool>, actions: seq<Action>, w: nat, u: nat)
    requires cfg.Valid() && |owners| == cfg.workers && Plays(cfg, Forked(cfg, owners), actions)
    requires var s := Final(cfg, Forked(cfg, owners), actions);
      w < |s.workers| && u < |s.workers| && s.workers[w].listening
    ensures var s := Final(cfg, Forked(cfg, owners), actions);
      s.word == 1 && s.workers[w].owner && (Holds(s.workers[u]) ==> u == w)
  {
    ForkedInv(cfg, owners);
    PlayKeepsInv(cfg, Forked(cfg, owners), actions);
    var s := Final(cfg, Forked(cfg, owners), actions);
    assert HolderAt(s, w) && WorkerOk(s.workers[w]);
    if Holds(s.workers[u]) {
      assert HolderAt(s, u);
    }
  }

  /** The toggle never goes the wrong way: reached from `enableListen` it starts listening,
      reached from `newConnection` it stops. The assertion in `unlock` never fails, so only a
      missing handler can stop a worker. */
  lemma TogglesGoTheRightWay(cfg: Config, owners: seq<bool>, actions: seq<Action>, w: nat)
    requires cfg.Valid() && |owners| == cfg.workers && Plays(cfg, Forked(cfg, owners), actions)
    requires w < cfg.workers
    ensures var s := Final(cfg, Forked(cfg, owners), actions);
      |s.workers| == cfg.workers &&
      var me := s.workers[w];
      (me.stage.Owner? ==> Advance(cfg, w, ViewOf(s, w)).me.listening) &&
      (Possible(cfg, s, Trigger(w)) ==> !HandOver(ViewOf(s, w)).me.listening) &&
      (me.stage.Notifying? ==> me.owner && s.word == 1) &&
      (me.stage.Notifying? && Advance(cfg, w, ViewOf(s, w)).me.stage.Crashed? ==> !me.handler)
  {
    ForkedInv(cfg, owners);
    PlayKeepsInv(cfg, Forked(cfg, owners), actions);
    var s := Final(cfg, Forked(cfg, owners), actions);
    assert WorkerOk(s.workers[w]);
    if s.workers[w].stage.Notifying? {
      assert HolderAt(s, w);
    }
  }
}
