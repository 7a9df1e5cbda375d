/** The objects that carry out the rotation in one worker process: Acceptor, TcpServer,
    ProxyServer and WorkerProcess. Each entry point is proved to take the worker through the
    actions of the state machine until it is back in its event loop. */
module RotationClasses {
  import opened Rotation
  import PM = ProcessMutexModel

  /** What is left to do before the worker is back in its loop. */
  function Rank(stage: Stage): nat {
    match stage
    case Booting => 3
    case Woken => 3
    case Winner => 2
    case Owner => 1
    case Notifying => 3
    case Unlocking => 2
    case Signalling => 1
    case Looping => 0
    case Crashed => 0
  }

  /** The worker acting alone until it is back in its loop, or gone. */
  function Settle(cfg: Config, w: nat, v: View): (u: View)
    requires cfg.Valid() && w < cfg.workers
    ensures u.me.stage.Looping? || u.me.stage.Crashed?
    decreases Rank(v.me.stage)
  {
    if Rank(v.me.stage) == 0 then v else Settle(cfg, w, Advance(cfg, w, v))
  }

  /** Settling is a run of the machine in which nobody else moves. */
  lemma {:induction false} SettleIsARun(cfg: Config, s: System, w: nat) returns (actions: seq<Action>)
    requires cfg.Valid() && |s.workers| == |s.events| == cfg.workers && w < cfg.workers
    ensures Plays(cfg, s, actions)
    ensures var v := Settle(cfg, w, ViewOf(s, w)); Final(cfg, s, actions) == System(v.word, s.workers[w := v.me], v.events)
    decreases Rank(s.workers[w].stage)
  {
    if Rank(s.workers[w].stage) == 0 {
      actions := [];
      assert s.workers[w := s.workers[w]] == s.workers;
    } else {
      var t := Perform(cfg, s, Next(w));
      var rest := SettleIsARun(cfg, t, w);
      actions := [Next(w)] + rest;
      assert actions[1..] == rest;
      var v := Settle(cfg, w, ViewOf(s, w));
      assert t.workers[w := v.me] == s.workers[w := v.me];
    }
  }

  lemma AdvanceLowersRank(cfg: Config, w: nat, v: View)
    requires cfg.Valid() && w < cfg.workers
    ensures Rank(v.me.stage) == 0 ==> Advance(cfg, w, v) == v
    ensures Rank(v.me.stage) > 0 ==> Rank(Advance(cfg, w, v).me.stage) < Rank(v.me.stage)
  {
  }

  lemma SettleOneAction(cfg: Config, w: nat, v: View, u: View)
    requires cfg.Valid() && w < cfg.workers && u == Advance(cfg, w, v)
    requires Rank(v.me.stage) == 0 ==> u == v
    ensures Settle(cfg, w, v) == Settle(cfg, w, u)
  {
  }

  /** At most three actions lie between a worker's loop and its return to it. */
  lemma SettleUnfolds(cfg: Config, w: nat, v: View)
    requires cfg.Valid() && w < cfg.workers
    ensures Settle(cfg, w, v) == Advance(cfg, w, Advance(cfg, w, Advance(cfg, w, v)))
  {
    var v1 := Advance(cfg, w, v);
    var v2 := Advance(cfg, w, v1);
    var v3 := Advance(cfg, w, v2);
    AdvanceLowersRank(cfg, w, v);
    AdvanceLowersRank(cfg, w, v1);
    AdvanceLowersRank(cfg, w, v2);
    SettleOneAction(cfg, w, v, v1);
    SettleOneAction(cfg, w, v1, v2);
    SettleOneAction(cfg, w, v2, v3);
    assert Rank(v3.me.stage) == 0;
  }

  class Acceptor {
    var listenning: bool
    var startListenTime: int

    constructor ()
      ensures !listenning && startListenTime == -1
    {
      listenning, startListenTime := false, -1;
    }

    method Listen(now: int)
      modifies this
      ensures listenning && startListenTime == now
    {
      listenning := true;
      startListenTime := now;
    }

    method EnableListen()
      modifies this`listenning
      ensures listenning
    {
      listenning := true;
    }

    method DisableListen()
      modifies this`listenning
      ensures !listenning
    {
      listenning := false;
    }
  }

  class TcpServer {
    const acceptor: Acceptor
    var started: bool
    /** Connections by the number in their name. */
    var connections: set<nat>
    var nextConnId: nat
    var startListenTime: int
    /** Whether `notifyOtherWorkerToListen` has been set. */
    var handler: bool

    /** Numbers are given out once. */
    ghost predicate Numbered()
      reads this
    {
      forall id :: id in connections ==> id < nextConnId
    }

    constructor (unset: int, handler: bool)
      ensures fresh(acceptor) && !acceptor.listenning && !started && this.handler == handler
      ensures connections == {} && Numbered()
    {
      acceptor := new Acceptor();
      started, connections, nextConnId, startListenTime, this.handler := false, {}, 1, unset, handler;
    }

    /** The bookkeeping of `newConnection`. */
    method AddConnection()
      requires Numbered()
      modifies this`connections, this`nextConnId
      ensures Numbered() && connections == old(connections) + {old(nextConnId)} && |connections| == |old(connections)| + 1
    {
      connections := connections + {nextConnId};
      nextConnId := nextConnId + 1;
    }

    /** `removeConnectionInLoop`; `asserted` is the value of its assertion. */
    method RemoveConnection(id: nat) returns (asserted: bool)
      requires Numbered()
      modifies this`connections
      ensures Numbered() && connections == old(connections) - {id}
      ensures asserted <==> |old(connections)| == |connections| + 1
    {
      asserted := id in connections;
      connections := connections - {id};
    }

    /** Its assertion, that the acceptor is not listening on the first call, is the caller's obligation. */
    method Start(now: int)
      requires !started ==> !acceptor.listenning
      modifies this`started, acceptor
      ensures started && acceptor.listenning == (old(acceptor.listenning) || !old(started))
    {
      if !started {
        started := true;
        acceptor.Listen(now);
      }
    }

    method AcceptorSchedulingHandler(now: int)
      modifies this`startListenTime, acceptor`listenning
      ensures acceptor.listenning == !old(acceptor.listenning)
      ensures startListenTime == if old(acceptor.listenning) then old(startListenTime) else now
    {
      if acceptor.listenning {
        acceptor.DisableListen();
      } else {
        acceptor.EnableListen();
        startListenTime := now;
      }
    }
  }

  class WorkerProcess {
    const cfg: Config
    const shmId: nat
    const events: array<nat>
    const mutex: PM.ProcessMutex
    const tcp: TcpServer
    /** `isStart` of the ProxyServer the worker owns. */
    var isStart: bool
    /** Where the worker stands between calls: about to start, in its loop, or gone. */
    ghost var stage: Stage

    ghost predicate Valid()
      reads this, tcp
    {
      cfg.Valid() && shmId < cfg.workers == events.Length && tcp.started == isStart && tcp.Numbered()
    }

    ghost function State(): View
      reads this, events, mutex, mutex.shm, tcp, tcp.acceptor
    {
      View(mutex.shm.value, Worker(stage, mutex.owner, isStart, tcp.acceptor.listenning, tcp.handler), events[..])
    }

    constructor (cfg: Config, shmId: nat, events: array<nat>, shm: PM.SharedByte, unsetOwner: bool, unsetTime: int)
      requires cfg.Valid() && shmId < cfg.workers == events.Length
      ensures Valid() && this.cfg == cfg && this.shmId == shmId && this.events == events
      ensures State() == View(shm.value, Worker(Booting, unsetOwner, false, false, cfg.handlerAtBoot), events[..])
    {
      this.cfg, this.shmId, this.events := cfg, shmId, events;
      mutex := new PM.ProcessMutex(shm, unsetOwner);
      tcp := new TcpServer(unsetTime, cfg.handlerAtBoot);
      isStart, stage := false, Booting;
    }

    /** `ProxyServer::enableListen`. */
    method EnableListen(now: int)
      requires Valid() && !tcp.acceptor.listenning
      modifies this`isStart, tcp`started, tcp`startListenTime, tcp.acceptor
      ensures Valid() && State() == old(State()).(me := Rotation.EnableListen(old(State()).me))
      ensures tcp.acceptor.listenning && tcp.startListenTime == if old(isStart) then now else old(tcp.startListenTime)
    {
      if isStart == false {
        tcp.Start(now);
        isStart := true;
      } else {
        tcp.AcceptorSchedulingHandler(now);
      }
    }

    /** After a try for the lock: with a free byte the worker holds it and listens, and the time
        is stamped unless this was its first start; with a byte that is taken nothing changed. */
    ghost predicate Listens(free: bool, now: int, before: View, stamp: int)
      reads this, mutex, mutex.shm, tcp, tcp.acceptor
    {
      tcp.handler == before.me.handler && stage.Looping? &&
      if free then
        mutex.shm.value == 1 && mutex.owner && isStart && tcp.acceptor.listenning &&
        tcp.startListenTime == if before.me.started then now else stamp
      else
        mutex.shm.value == before.word && mutex.owner == before.me.owner && isStart == before.me.started &&
        tcp.acceptor.listenning == before.me.listening && tcp.startListenTime == stamp
    }

    /** What a hand-over leaves: the byte free, the flag clear, and the neighbour's entry, if it
        has one, grown by what this worker writes. */
    ghost predicate HandedOver(before: seq<nat>)
      reads this, events, mutex, mutex.shm
    {
      !mutex.owner && mutex.shm.value == 0 && stage.Looping? && 0 < cfg.modulus && shmId < |cfg.wake| && |before| == events.Length &&
      forall u :: 0 <= u < events.Length ==>
        events[u] == before[u] + (if u == (shmId + 1) % cfg.modulus then cfg.wake[shmId] else 0)
    }

    /** `ProxyServer::start`: try the lock, listen if it was won. */
    method Start(now: int)
      requires Valid() && (stage.Booting? || stage.Woken?)
      requires mutex.shm.value == 0 ==> !tcp.acceptor.listenning
      modifies this`isStart, this`stage, mutex, mutex.shm, tcp`started, tcp`startListenTime, tcp.acceptor
      ensures Valid() && State() == Settle(cfg, shmId, old(State()))
      ensures Listens(old(mutex.shm.value) == 0, now, old(State()), old(tcp.startListenTime)) && events[..] == old(events[..])
    {
      SettleUnfolds(cfg, shmId, State());
      var ok := mutex.TryLock();
      stage := Looping;
      if ok {
        EnableListen(now);
      }
    }

    /** `acceptorScheduling`: unlock, then write the neighbour's eventfd. */
    method AcceptorScheduling()
      requires Valid() && stage.Notifying? && tcp.handler && mutex.owner && mutex.shm.value == 1
      modifies this`stage, mutex, mutex.shm, events
      ensures Valid() && State() == Settle(cfg, shmId, old(State()))
      ensures HandedOver(old(events[..]))
    {
      SettleUnfolds(cfg, shmId, State());
      var _ := mutex.Unlock();
      var next := (shmId + 1) % cfg.modulus;
      if next < events.Length {
        events[next] := events[next] + cfg.wake[shmId];
      }
      stage := Looping;
    }

    /** The eventfd became readable. */
    method EventHandler(now: int)
      requires Valid() && stage.Looping? && events[shmId] > 0
      requires mutex.shm.value == 0 ==> !tcp.acceptor.listenning
      modifies this`isStart, this`stage, events, mutex, mutex.shm, tcp`started, tcp`startListenTime, tcp`handler, tcp.acceptor
      ensures Valid() && State() == Settle(cfg, shmId, WakeUp(shmId, old(State())))
      ensures tcp.handler && events[..] == old(events[..])[shmId := 0]
      ensures Listens(old(mutex.shm.value) == 0, now, old(State().(me := State().me.(handler := true))), old(tcp.startListenTime))
    {
      ghost var v := WakeUp(shmId, State());
      events[shmId] := 0;
      assert events[..] == v.events;
      tcp.handler := true;
      stage := Woken;
      Start(now);
    }

    /** `TcpServer::newConnection` on a listening worker: with more than 512 connections and
        more than ten seconds of listening it stops listening and hands over. */
    method NewConnection(now: int)
      requires Valid() && stage.Looping? && tcp.acceptor.listenning && mutex.owner && mutex.shm.value == 1
      modifies this`stage, mutex, mutex.shm, events, tcp`connections, tcp`nextConnId, tcp`startListenTime, tcp.acceptor`listenning
      ensures Valid() && |tcp.connections| == |old(tcp.connections)| + 1 && old(tcp.connections) <= tcp.connections
      ensures State() ==
        if |tcp.connections| > 512 && now - old(tcp.startListenTime) > 10
        then Settle(cfg, shmId, HandOver(old(State())))
        else old(State())
      ensures |tcp.connections| > 512 && now - old(tcp.startListenTime) > 10 ==>
        !tcp.acceptor.listenning && if tcp.handler then HandedOver(old(events[..])) else stage.Crashed?
    {
      tcp.AddConnection();
      if |tcp.connections| > 512 && now - tcp.startListenTime > 10 {
        tcp.AcceptorSchedulingHandler(now);
        stage := Notifying;
        if tcp.handler {
          AcceptorScheduling();
        } else {
          stage := Crashed;
        }
      }
    }
  }
}
