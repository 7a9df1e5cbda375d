/** MemoryCache: an Lru published through a reference-counted pointer. Readers copy the pointer
    under the mutex and call `get` outside it; a writer copies the Lru first unless it is the
    only owner. Steps are the mutex operations, the pointer copy and its release, the ownership
    test, the copy, `put` and `get`; those of any number of threads interleave. */
module CopyOnWrite {
  import opened RecencyCache
  import LT = LruTrace
  import opened Sums

  /** A completed `readCache`, with the published cache and the length of its log at the
      moment its pointer was copied. */
  datatype Read = Read(url: string, snapshot: Cache, version: nat, now: nat, answer: string)

  datatype Stage =
    | Idle
    | ReadLocked(url: string)
    | ReadHeld(url: string, lru: nat, snapshot: Cache, version: nat)
    | Reading(url: string, lru: nat, snapshot: Cache, version: nat)
    | Finishing(lru: nat)
    | WriteLocked(url: string, content: string)
    | WriteCopying(url: string, content: string)
    | WriteReady(url: string, content: string)
    | WriteDone
  {
    /** The Lru object this thread's local pointer keeps alive. */
    predicate RefersTo(o: nat) {
      (ReadHeld? || Reading? || Finishing?) && lru == o
    }

    predicate InSection() {
      ReadLocked? || ReadHeld? || WriteLocked? || WriteCopying? || WriteReady? || WriteDone?
    }
  }

  /** An Lru object with its use count. */
  datatype Shared = Shared(cache: Cache, uses: nat)

  /** `log` lists what has been done to the published cache, whichever object holds it. */
  datatype System = System(
    max: nat,
    heap: map<nat, Shared>,
    current: nat,
    nextId: nat,
    holder: Option<nat>,
    threads: seq<Stage>,
    now: nat,
    log: seq<LT.Op>,
    answers: seq<Read>)

  datatype Step =
    | LockToRead(t: nat, url: string)
    | CopyPointer(t: nat)
    | UnlockReader(t: nat)
    | Get(t: nat)
    | Release(t: nat)
    | LockToWrite(t: nat, url: string, content: string)
    | TestUnique(t: nat)
    | CopyLru(t: nat)
    | PutInto(t: nat)
    | UnlockWriter(t: nat)
    | Tick(to: nat)

  predicate Alive(s: System, o: nat) {
    o in s.heap && s.heap[o].uses > 0
  }

  predicate Enabled(s: System, step: Step) {
    Alive(s, s.current) && s.nextId !in s.heap &&
    (forall t :: 0 <= t < |s.threads| && s.threads[t].Reading? ==> s.threads[t].lru in s.heap) &&
    (forall t :: 0 <= t < |s.threads| && s.threads[t].Finishing? ==> Alive(s, s.threads[t].lru)) &&
    match step
    case Tick(to) => s.now <= to < WORD
    case LockToRead(t, _) => t < |s.threads| && s.threads[t].Idle? && s.holder == None
    case CopyPointer(t) => t < |s.threads| && s.threads[t].ReadLocked?
    case UnlockReader(t) => t < |s.threads| && s.threads[t].ReadHeld?
    case Get(t) => t < |s.threads| && s.threads[t].Reading?
    case Release(t) => t < |s.threads| && s.threads[t].Finishing?
    case LockToWrite(t, _, _) => t < |s.threads| && s.threads[t].Idle? && s.holder == None
    case TestUnique(t) => t < |s.threads| && s.threads[t].WriteLocked?
    case CopyLru(t) => t < |s.threads| && s.threads[t].WriteCopying?
    case PutInto(t) => t < |s.threads| && s.threads[t].WriteReady?
    case UnlockWriter(t) => t < |s.threads| && s.threads[t].WriteDone?
  }

  /** Drop one use of an object; the last one deletes it. */
  function Drop(heap: map<nat, Shared>, o: nat): map<nat, Shared>
    requires o in heap && heap[o].uses > 0
  {
    if heap[o].uses == 1 then heap - {o} else heap[o := heap[o].(uses := heap[o].uses - 1)]
  }

  function Apply(s: System, step: Step): System
    requires Enabled(s, step)
  {
    match step
    case Tick(to) => s.(now := to)
    case LockToRead(t, url) => s.(holder := Some(t), threads := s.threads[t := ReadLocked(url)])
    case CopyPointer(t) =>
      var o := s.heap[s.current];
      s.(heap := s.heap[s.current := o.(uses := o.uses + 1)],
         threads := s.threads[t := ReadHeld(s.threads[t].url, s.current, o.cache, |s.log|)])
    case UnlockReader(t) =>
      var me := s.threads[t];
      s.(holder := None, threads := s.threads[t := Reading(me.url, me.lru, me.snapshot, me.version)])
    case Get(t) =>
      var me := s.threads[t];
      var o := s.heap[me.lru];
      s.(heap := s.heap[me.lru := o.(cache := Touch(o.cache, me.url, s.now))],
         threads := s.threads[t := Finishing(me.lru)],
         log := if me.lru == s.current then s.log + [LT.GetOp(me.url, s.now)] else s.log,
         answers := s.answers + [Read(me.url, me.snapshot, me.version, s.now, Lookup(o.cache, me.url, s.now))])
    case Release(t) =>
      s.(heap := Drop(s.heap, s.threads[t].lru), threads := s.threads[t := Idle])
    case LockToWrite(t, url, content) =>
      s.(holder := Some(t), threads := s.threads[t := WriteLocked(url, content)])
    case TestUnique(t) =>
      var me := s.threads[t];
      var next := if s.heap[s.current].uses == 1 then WriteReady(me.url, me.content) else WriteCopying(me.url, me.content);
      s.(threads := s.threads[t := next])
    case CopyLru(t) =>
      var me := s.threads[t];
      var copy := Shared(Copied(s.heap[s.current].cache, s.now), 1);
      s.(heap := Drop(s.heap, s.current)[s.nextId := copy], current := s.nextId, nextId := s.nextId + 1,
         log := s.log + [LT.CopyOp(s.now)],
         threads := s.threads[t := WriteReady(me.url, me.content)])
    case PutInto(t) =>
      var me := s.threads[t];
      var o := s.heap[s.current];
      s.(heap := s.heap[s.current := o.(cache := Put(o.cache, s.max, me.url, me.content, s.now))],
         log := s.log + [LT.PutOp(me.url, me.content, s.now)],
         threads := s.threads[t := WriteDone])
    case UnlockWriter(t) => s.(holder := None, threads := s.threads[t := Idle])
  }

  ghost predicate Runs(s: System, steps: seq<Step>)
    decreases |steps|
  {
    steps == [] || (Enabled(s, steps[0]) && Runs(Apply(s, steps[0]), steps[1..]))
  }

  ghost function After(s: System, steps: seq<Step>): System
    requires Runs(s, steps)
    decreases |steps|
  {
    if steps == [] then s else After(Apply(s, steps[0]), steps[1..])
  }

  function Start(max: nat, threads: nat, now: nat): System {
    System(max, map[0 := Shared([], 1)], 0, 1, None, seq(threads, _ => Idle), now, [], [])
  }

  // ------------------------------------------------------------------ use counts and the mutex

  function One(b: bool): nat {
    if b then 1 else 0
  }

  function Pointers(threads: seq<Stage>, o: nat): seq<nat> {
    seq(|threads|, t requires 0 <= t < |threads| => One(threads[t].RefersTo(o)))
  }

  function Holders(threads: seq<Stage>, o: nat): nat {
    Sum(Pointers(threads, o))
  }

  lemma HoldersUpdate(threads: seq<Stage>, t: nat, stage: Stage, o: nat)
    requires t < |threads|
    ensures One(threads[t].RefersTo(o)) <= Holders(threads, o)
    ensures Holders(threads[t := stage], o) ==
      Holders(threads, o) - One(threads[t].RefersTo(o)) + One(stage.RefersTo(o))
  {
    SumUpdate(Pointers(threads, o), t, One(stage.RefersTo(o)));
    assert Pointers(threads[t := stage], o) == Pointers(threads, o)[t := One(stage.RefersTo(o))];
  }

  lemma NoHolders(threads: seq<Stage>, o: nat)
    requires forall t :: 0 <= t < |threads| ==> !threads[t].RefersTo(o)
    ensures Holders(threads, o) == 0
  {
    SumOfEqual(Pointers(threads, o), 0);
  }

  /** The stored use count is the number of pointers to the object. */
  ghost predicate CountOk(s: System, o: nat) {
    o in s.heap ==>
      o < s.nextId && s.heap[o].uses == Holders(s.threads, o) + One(o == s.current) && s.heap[o].uses > 0
  }

  ghost predicate ThreadOk(s: System, t: nat)
    requires t < |s.threads|
  {
    var me := s.threads[t];
    (me.InSection() <==> s.holder == Some(t)) &&
    (me.ReadHeld? || me.Reading? || me.Finishing? ==> me.lru in s.heap) &&
    (me.ReadHeld? ==> me.lru == s.current) &&
    (me.WriteReady? ==> s.current in s.heap && s.heap[s.current].uses == 1)
  }

  ghost predicate Counted(s: System) {
    s.current in s.heap && s.current < s.nextId &&
    (forall o :: o in s.heap ==> CountOk(s, o)) &&
    (forall t :: 0 <= t < |s.threads| ==> ThreadOk(s, t))
  }

  lemma NewObjectHasNoHolder(s: System, step: Step)
    requires Counted(s) && Enabled(s, step) && step.CopyLru?
    ensures Holders(Apply(s, step).threads, s.nextId) == 0
  {
    var t := Apply(s, step);
    forall u | 0 <= u < |t.threads|
      ensures !t.threads[u].RefersTo(s.nextId)
    {
      assert ThreadOk(s, u);
    }
    NoHolders(t.threads, s.nextId);
  }

  /** How a step of one thread changes the number of pointers to an object. */
  lemma StepChangesHolders(s: System, step: Step, o: nat)
    requires Enabled(s, step) && !step.Tick?
    ensures step.t < |s.threads| == |Apply(s, step).threads|
    ensures One(s.threads[step.t].RefersTo(o)) <= Holders(s.threads, o)
    ensures var t := Apply(s, step);
      Holders(t.threads, o) == Holders(s.threads, o) - One(s.threads[step.t].RefersTo(o)) + One(t.threads[step.t].RefersTo(o))
  {
    var t := Apply(s, step);
    HoldersUpdate(s.threads, step.t, t.threads[step.t], o);
    assert t.threads == s.threads[step.t := t.threads[step.t]];
  }

  /** The count of the published object and of another, around a step of one thread. */
  lemma CountFollows(s: System, step: Step, o: nat)
    requires Enabled(s, step) && !step.Tick? && (o in s.heap ==> CountOk(s, o)) && CountOk(s, s.current)
    requires ThreadOk(s, step.t) && !(step.CopyLru? && o == s.nextId)
    ensures CountOk(Apply(s, step), o)
  {
    StepChangesHolders(s, step, o);
  }

  lemma NewObjectIsCounted(s: System, step: Step)
    requires Counted(s) && Enabled(s, step) && step.CopyLru?
    ensures CountOk(Apply(s, step), s.nextId)
  {
    NewObjectHasNoHolder(s, step);
  }

  /** The use count follows. */
  lemma StepKeepsCount(s: System, step: Step, o: nat)
    requires Counted(s) && Enabled(s, step)
    ensures CountOk(Apply(s, step), o)
  {
    assert o in s.heap ==> CountOk(s, o);
    if step.CopyLru? && o == s.nextId {
      NewObjectIsCounted(s, step);
    } else if !step.Tick? {
      assert CountOk(s, s.current) && ThreadOk(s, step.t);
      CountFollows(s, step, o);
    }
  }

  lemma StepKeepsThread(s: System, step: Step, u: nat)
    requires Counted(s) && Enabled(s, step) && u < |s.threads|
    ensures ThreadOk(Apply(s, step), u)
  {
    var t := Apply(s, step);
    assert ThreadOk(s, u);
    var me := s.threads[u];
    if !step.Tick? {
      assert ThreadOk(s, step.t);
      if u != step.t && (me.ReadHeld? || me.Reading? || me.Finishing?) {
        OthersKeepAlive(s, step, u);
      }
      if step.Release? {
        assert CountOk(s, s.current);
        HoldersUpdate(s.threads, step.t, Idle, s.current);
      }
    }
  }

  /** An object another thread points to outlives any step. */
  lemma OthersKeepAlive(s: System, step: Step, u: nat)
    requires Counted(s) && Enabled(s, step) && !step.Tick? && u < |s.threads| && u != step.t
    requires s.threads[u].ReadHeld? || s.threads[u].Reading? || s.threads[u].Finishing?
    ensures s.threads[u].lru in s.heap && s.threads[u].lru in Apply(s, step).heap
  {
    var o := s.threads[u].lru;
    assert ThreadOk(s, u) && ThreadOk(s, step.t) && CountOk(s, o) && CountOk(s, s.current);
    HoldersUpdate(s.threads, u, Idle, o);
    HoldersUpdate(s.threads, step.t, Idle, o);
    HoldersUpdate(s.threads[u := Idle], step.t, Idle, o);
  }

  lemma StepKeepsCounted(s: System, step: Step)
    requires Counted(s) && Enabled(s, step)
    ensures Counted(Apply(s, step))
  {
    var t := Apply(s, step);
    forall o | o in t.heap
      ensures CountOk(t, o)
    {
      StepKeepsCount(s, step, o);
    }
    forall u | 0 <= u < |t.threads|
      ensures ThreadOk(t, u)
    {
      StepKeepsThread(s, step, u);
    }
    assert CountOk(s, s.current);
    if step.Release? {
      assert ThreadOk(s, step.t);
      HoldersUpdate(s.threads, step.t, Idle, s.current);
    }
  }

  lemma CountedIsEnough(s: System)
    requires Counted(s)
    ensures Alive(s, s.current) && s.nextId !in s.heap
    ensures forall t :: 0 <= t < |s.threads| && s.threads[t].Reading? ==> s.threads[t].lru in s.heap
    ensures forall t :: 0 <= t < |s.threads| && s.threads[t].Finishing? ==> Alive(s, s.threads[t].lru)
  {
    assert CountOk(s, s.current);
    assert s.nextId in s.heap ==> CountOk(s, s.nextId);
    forall t | 0 <= t < |s.threads|
      ensures s.threads[t].Reading? || s.threads[t].Finishing? ==> Alive(s, s.threads[t].lru)
    {
      assert ThreadOk(s, t);
      if s.threads[t].Reading? || s.threads[t].Finishing? {
        assert CountOk(s, s.threads[t].lru);
      }
    }
  }

  // ------------------------------------------------------------------ what the objects hold

  /** Urls are distinct, the bound is kept, and no time lies in the future. */
  ghost predicate CacheOk(s: System, c: Cache) {
    Distinct(c) && |c| <= s.max && forall x :: x in c ==> x.time <= s.now
  }

  /** `c` is what is left of `snapshot` after reads: some expired items may be gone. */
  ghost predicate OnlyExpiredMissing(s: System, snapshot: Cache, c: Cache) {
    (forall x :: x in c ==> x in snapshot) &&
    (forall x :: x in snapshot && x !in c ==> Expired(s.now, x.time))
  }

  ghost predicate SnapshotOk(s: System, t: nat)
    requires t < |s.threads|
  {
    var me := s.threads[t];
    me.ReadHeld? || me.Reading? ==>
      me.lru in s.heap && CacheOk(s, me.snapshot) && OnlyExpiredMissing(s, me.snapshot, s.heap[me.lru].cache)
  }

  ghost predicate AnswerOk(s: System, r: Read) {
    r.answer == Lookup(r.snapshot, r.url, r.now) && r.now <= s.now && forall x :: x in r.snapshot ==> x.time <= r.now
  }

  ghost predicate Held(s: System) {
    s.now < WORD &&
    (forall o :: o in s.heap ==> CacheOk(s, s.heap[o].cache)) &&
    (forall t :: 0 <= t < |s.threads| ==> SnapshotOk(s, t)) &&
    (forall i :: 0 <= i < |s.answers| ==> AnswerOk(s, s.answers[i]))
  }

  lemma ExpiryIsForGood(now: nat, later: nat, time: nat)
    requires time <= now <= later < WORD && Expired(now, time)
    ensures Expired(later, time)
  {
    assert (now - time) % WORD == now - time && (later - time) % WORD == later - time;
  }

  /** A lookup in what is left answers as a lookup in the snapshot would. */
  lemma LookupAgrees(s: System, snapshot: Cache, c: Cache, url: string)
    requires Distinct(snapshot) && Distinct(c) && OnlyExpiredMissing(s, snapshot, c)
    ensures Lookup(c, url, s.now) == Lookup(snapshot, url, s.now)
  {
    if Has(c, url) {
      FindIsUnique(snapshot, Find(c, url));
    }
    if Has(snapshot, url) && Find(snapshot, url) in c {
      FindIsUnique(c, Find(snapshot, url));
    }
  }

  lemma TouchLosesOnlyExpired(s: System, snapshot: Cache, c: Cache, url: string)
    requires CacheOk(s, c) && OnlyExpiredMissing(s, snapshot, c)
    ensures CacheOk(s, Touch(c, url, s.now)) && OnlyExpiredMissing(s, snapshot, Touch(c, url, s.now))
  {
    OperationsKeepDistinct(c, s.max, url, "", s.now);
    WithoutKeeps(c, url);
    if Has(c, url) {
      forall x | x in c && x.url == url
        ensures x == Find(c, url)
      {
        FindIsUnique(c, x);
      }
    }
  }

  lemma PutKeepsCacheOk(s: System, c: Cache, url: string, content: string)
    requires CacheOk(s, c)
    ensures CacheOk(s, Put(c, s.max, url, content, s.now))
  {
    OperationsKeepDistinct(c, s.max, url, content, s.now);
    WithoutKeeps(c, url);
    forall x | x in Put(c, s.max, url, content, s.now)
      ensures x.time <= s.now
    {
      assert x in c || x == Item(url, content, s.now);
    }
  }

  lemma CopyKeepsCacheOk(s: System, c: Cache)
    requires CacheOk(s, c)
    ensures CacheOk(s, Copied(c, s.now))
  {
    OperationsKeepDistinct(c, s.max, "", "", s.now);
  }

  /** No writer changes an Lru that a reader holds: only the readers' own `get` does. */
  lemma HeldObjectIsNotWritten(s: System, step: Step, u: nat)
    requires Counted(s) && Enabled(s, step) && !step.Get? && u < |s.threads|
    requires s.threads[u].ReadHeld? || s.threads[u].Reading?
    ensures var o := s.threads[u].lru;
      o in s.heap && o in Apply(s, step).heap && Apply(s, step).heap[o].cache == s.heap[o].cache
  {
    var o := s.threads[u].lru;
    assert ThreadOk(s, u) && CountOk(s, o);
    if !step.Tick? && u != step.t {
      OthersKeepAlive(s, step, u);
      assert ThreadOk(s, step.t);
      HoldersUpdate(s.threads, u, Idle, o);
    }
  }

  lemma StepKeepsCaches(s: System, step: Step, o: nat)
    requires Held(s) && Enabled(s, step) && o in Apply(s, step).heap
    ensures CacheOk(Apply(s, step), Apply(s, step).heap[o].cache)
  {
    assert o in s.heap ==> CacheOk(s, s.heap[o].cache);
    assert CacheOk(s, s.heap[s.current].cache);
    match step
    case Get(t) =>
      var c := s.heap[s.threads[t].lru].cache;
      TouchLosesOnlyExpired(s, c, c, s.threads[t].url);
    case PutInto(t) => PutKeepsCacheOk(s, s.heap[s.current].cache, s.threads[t].url, s.threads[t].content);
    case CopyLru(t) => CopyKeepsCacheOk(s, s.heap[s.current].cache);
    case _ =>
  }

  lemma StepKeepsSnapshot(s: System, step: Step, u: nat)
    requires Counted(s) && Held(s) && Enabled(s, step) && u < |s.threads|
    ensures SnapshotOk(Apply(s, step), u)
  {
    var t := Apply(s, step);
    assert SnapshotOk(s, u) && ThreadOk(s, u);
    var me := t.threads[u];
    if me.ReadHeld? || me.Reading? {
      if step.CopyPointer? && u == step.t {
        assert CacheOk(s, s.heap[s.current].cache);
      } else {
        assert s.threads[u].ReadHeld? || s.threads[u].Reading?;
        assert me.lru == s.threads[u].lru && me.snapshot == s.threads[u].snapshot;
        if step.Get? {
          GetKeepsSnapshot(s, step.t, u);
        } else {
          HeldObjectIsNotWritten(s, step, u);
          forall x | x in me.snapshot && x !in s.heap[me.lru].cache
            ensures Expired(t.now, x.time)
          {
            ExpiryIsForGood(s.now, t.now, x.time);
          }
        }
      }
    }
  }

  lemma GetKeepsSnapshot(s: System, t: nat, u: nat)
    requires Held(s) && Enabled(s, Get(t)) && u < |s.threads| && SnapshotOk(s, u) && u != t
    ensures SnapshotOk(Apply(s, Get(t)), u)
  {
    var me := s.threads[u];
    if (me.ReadHeld? || me.Reading?) && me.lru == s.threads[t].lru {
      assert CacheOk(s, s.heap[me.lru].cache);
      TouchLosesOnlyExpired(s, me.snapshot, s.heap[me.lru].cache, s.threads[t].url);
    }
  }

  lemma StepKeepsHeld(s: System, step: Step)
    requires Counted(s) && Held(s) && Enabled(s, step)
    ensures Held(Apply(s, step))
  {
    var t := Apply(s, step);
    forall o | o in t.heap
      ensures CacheOk(t, t.heap[o].cache)
    {
      StepKeepsCaches(s, step, o);
    }
    forall u | 0 <= u < |t.threads|
      ensures SnapshotOk(t, u)
    {
      StepKeepsSnapshot(s, step, u);
    }
    if step.Get? {
      var me := s.threads[step.t];
      assert SnapshotOk(s, step.t) && CacheOk(s, s.heap[me.lru].cache);
      LookupAgrees(s, me.snapshot, s.heap[me.lru].cache, me.url);
    }
  }
}
