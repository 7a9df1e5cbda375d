/** The process mutex of Process/ProcessMutex.h at the granularity of its compare-and-swap:
    a byte in shared memory and one `owner` flag per process. */
module ProcessMutexModel {

  /** `__sync_bool_compare_and_swap`. */
  function CompareAndSwap(word: nat, expected: nat, desired: nat): (nat, bool) {
    if word == expected then (desired, true) else (word, false)
  }

  /** Where a process is: outside, past its winning CAS (or past the skipped one), holding,
      or past the first half of `unlock`. */
  datatype Place = Outside | Won | Holding | Releasing

  datatype Process = Process(owner: bool, place: Place)

  datatype State = State(word: nat, processes: seq<Process>)

  datatype Step =
    | LockSpin(p: nat)
    | TryLockCas(p: nat)
    | SetOwner(p: nat)
    | ClearOwner(p: nat)
    | ReleaseCas(p: nat)

  predicate Enabled(s: State, step: Step) {
    step.p < |s.processes| &&
    var place := s.processes[step.p].place;
    match step
    case LockSpin(_) => place == Outside || place == Holding
    case TryLockCas(_) => place == Outside || place == Holding
    case SetOwner(_) => place == Won
    case ClearOwner(_) => place == Holding
    case ReleaseCas(_) => place == Releasing
  }

  /** The assertion at the head of `unlock`. */
  predicate UnlockAssertion(s: State, p: nat)
    requires p < |s.processes|
  {
    s.processes[p].owner && s.word == 1
  }

  function Put(s: State, word: nat, p: nat, q: Process): State
    requires p < |s.processes|
  {
    State(word, s.processes[p := q])
  }

  function Apply(s: State, step: Step): State
    requires Enabled(s, step)
  {
    var me := s.processes[step.p];
    match step
    case LockSpin(p) =>
      if me.owner then Put(s, s.word, p, me.(place := Won))
      else
        var (word, ok) := CompareAndSwap(s.word, 0, 1);
        if ok then Put(s, word, p, me.(place := Won)) else s
    case TryLockCas(p) =>
      var (word, ok) := CompareAndSwap(s.word, 0, 1);
      if ok then Put(s, word, p, me.(place := Won)) else s
    case SetOwner(p) => Put(s, s.word, p, Process(true, Holding))
    case ClearOwner(p) => Put(s, s.word, p, Process(false, Releasing))
    case ReleaseCas(p) => Put(s, CompareAndSwap(s.word, 1, 0).0, p, me.(place := Outside))
  }

  ghost predicate Runs(s: State, steps: seq<Step>)
    decreases |steps|
  {
    steps == [] || (Enabled(s, steps[0]) && Runs(Apply(s, steps[0]), steps[1..]))
  }

  ghost function After(s: State, steps: seq<Step>): State
    requires Runs(s, steps)
    decreases |steps|
  {
    if steps == [] then s else After(Apply(s, steps[0]), steps[1..])
  }

  /** All processes outside, the word free, the flags as the constructors left them. */
  function Start(owners: seq<bool>): State {
    State(0, seq(|owners|, p requires 0 <= p < |owners| => Process(owners[p], Outside)))
  }

  ghost predicate Inside(s: State, p: int) {
    0 <= p < |s.processes| && s.processes[p].place != Outside
  }

  /** The word is 1 exactly while one process is between its winning and its releasing CAS. */
  ghost predicate Exclusive(s: State) {
    (s.word == 0 || s.word == 1) &&
    (s.word == 1 <==> exists p :: Inside(s, p)) &&
    (forall p, q :: Inside(s, p) && Inside(s, q) ==> p == q)
  }

  ghost predicate Inv(s: State) {
    Exclusive(s) &&
    (forall p :: 0 <= p < |s.processes| && s.processes[p].place == Holding ==> s.processes[p].owner) &&
    (forall p :: 0 <= p < |s.processes| && s.processes[p].owner ==>
      s.processes[p].place == Holding || s.processes[p].place == Won)
  }

  lemma StepKeepsInv(s: State, step: Step)
    requires Inv(s) && Enabled(s, step)
    ensures Inv(Apply(s, step))
  {
    var t := Apply(s, step);
    var p := step.p;
    assert forall q :: q != p ==> (Inside(t, q) <==> Inside(s, q));
    assert s.word == 1 ==> exists q :: Inside(s, q);
    if s.processes[p].place != Outside {
      assert Inside(s, p);
    }
    if t.processes[p].place != Outside {
      assert Inside(t, p);
    }
  }

  lemma {:induction false} RunKeepsInv(s: State, steps: seq<Step>)
    requires Inv(s) && Runs(s, steps)
    ensures Inv(After(s, steps))
    decreases |steps|
  {
    if steps != [] {
      StepKeepsInv(s, steps[0]);
      RunKeepsInv(Apply(s, steps[0]), steps[1..]);
    }
  }

  /** Whoever holds the lock may call `unlock`: its assertion holds, and its CAS frees the word. */
  lemma UnlockSucceeds(owners: seq<bool>, steps: seq<Step>, p: nat)
    requires forall q :: 0 <= q < |owners| ==> !owners[q]
    requires Runs(Start(owners), steps) && p < |After(Start(owners), steps).processes|
    ensures var s := After(Start(owners), steps);
      (s.processes[p].place == Holding ==> UnlockAssertion(s, p)) &&
      (s.processes[p].place == Releasing ==> Apply(s, ReleaseCas(p)).word == 0 && s.word == 1)
  {
    RunKeepsInv(Start(owners), steps);
    var s := After(Start(owners), steps);
    if s.processes[p].place != Outside {
      assert Inside(s, p);
    }
  }

  /** A flag that starts true lets `lock` skip the CAS: a process is inside with the word at 0. */
  lemma SetFlagBreaksExclusion(owners: seq<bool>, p: nat) returns (steps: seq<Step>)
    requires p < |owners| && owners[p]
    ensures Runs(Start(owners), steps) && !Exclusive(After(Start(owners), steps))
  {
    var s := Start(owners);
    var t := Apply(s, LockSpin(p));
    steps := [LockSpin(p)];
    assert steps[1..] == [];
    assert Runs(t, []) && After(t, []) == t;
    assert After(s, steps) == t;
    assert Inside(t, p) && t.word == 0;
  }

  /** Mutual exclusion holds on every run of `lock`, `tryLock` and `unlock` if and only if
      every `owner` flag starts false; the constructor used in worker processes leaves it unset. */
  lemma ExclusiveIffFlagsStartClear(owners: seq<bool>)
    ensures (forall steps :: Runs(Start(owners), steps) ==> Exclusive(After(Start(owners), steps)))
      <==> forall p :: 0 <= p < |owners| ==> !owners[p]
  {
    if forall p :: 0 <= p < |owners| ==> !owners[p] {
      forall steps | Runs(Start(owners), steps)
        ensures Exclusive(After(Start(owners), steps))
      {
        RunKeepsInv(Start(owners), steps);
      }
    } else {
      var p :| 0 <= p < |owners| && owners[p];
      var steps := SetFlagBreaksExclusion(owners, p);
      assert Runs(Start(owners), steps) && !Exclusive(After(Start(owners), steps));
    }
  }

  ghost predicate BothInside(s: State, p: int, q: int) {
    Inside(s, p) && Inside(s, q) && p != q
  }

  /** With an unset flag that happens to be true, `lock` returns at once and a second
      process can win the CAS beside it. */
  lemma UnsetFlagLetsTwoIn(owners: seq<bool>, p: nat, q: nat)
    requires p < |owners| && q < |owners| && p != q && owners[p]
    ensures exists steps :: Runs(Start(owners), steps) && BothInside(After(Start(owners), steps), p, q)
  {
    var s := Start(owners);
    var t := Apply(s, LockSpin(p));
    var u := Apply(t, TryLockCas(q));
    var steps := [LockSpin(p), TryLockCas(q)];
    assert steps[1..] == [TryLockCas(q)] && steps[1..][1..] == [];
    assert Runs(u, []) && After(u, []) == u;
    assert Runs(t, steps[1..]) && After(t, steps[1..]) == u;
    assert Runs(s, steps) && After(s, steps) == u;
  }

  // ------------------------------------------------------------------ calls as runs

  /** A process outside that calls `lock` or `tryLock` with the byte free, undisturbed, holds the
      lock two steps later. With its flag set `lock` does so whatever the byte is, and leaves it. */
  lemma LockCallIsARun(s: State, p: nat, trying: bool) returns (steps: seq<Step>)
    requires p < |s.processes| && s.processes[p].place == Outside && (s.word == 0 || (!trying && s.processes[p].owner))
    ensures Runs(s, steps)
    ensures After(s, steps).processes == s.processes[p := Process(true, Holding)]
    ensures After(s, steps).word == if !trying && s.processes[p].owner then s.word else 1
  {
    var first := if trying then TryLockCas(p) else LockSpin(p);
    var t := Apply(s, first);
    var u := Apply(t, SetOwner(p));
    steps := [first, SetOwner(p)];
    assert steps[1..] == [SetOwner(p)] && steps[1..][1..] == [];
    assert Runs(u, []) && After(u, []) == u;
    assert Runs(t, steps[1..]) && After(t, steps[1..]) == u;
  }

  /** With the byte taken and the flag clear, a turn of the spin and a failed try change nothing. */
  lemma TakenByteStopsCalls(s: State, p: nat)
    requires p < |s.processes| && s.processes[p].place == Outside && s.word != 0
    ensures !s.processes[p].owner ==> Apply(s, LockSpin(p)) == s
    ensures Apply(s, TryLockCas(p)) == s
  {
  }

  /** A holder that calls `unlock` is outside two steps later, its flag clear and the byte free. */
  lemma UnlockCallIsARun(s: State, p: nat) returns (steps: seq<Step>)
    requires p < |s.processes| && s.processes[p].place == Holding && s.word == 1
    ensures Runs(s, steps)
    ensures After(s, steps) == State(0, s.processes[p := Process(false, Outside)])
  {
    var t := Apply(s, ClearOwner(p));
    var u := Apply(t, ReleaseCas(p));
    steps := [ClearOwner(p), ReleaseCas(p)];
    assert steps[1..] == [ReleaseCas(p)] && steps[1..][1..] == [];
    assert Runs(u, []) && After(u, []) == u;
    assert Runs(t, steps[1..]) && After(t, steps[1..]) == u;
  }

  // ------------------------------------------------------------------ the objects

  class SharedByte {
    var value: nat

    constructor ()
      ensures value == 0
    {
      value := 0;
    }

    method Cas(expected: nat, desired: nat) returns (ok: bool)
      modifies this
      ensures (value, ok) == CompareAndSwap(old(value), expected, desired)
    {
      ok := value == expected;
      if ok {
        value := desired;
      }
    }
  }

  class ProcessMutex {
    const shm: SharedByte
    var owner: bool

    /** The constructor of worker processes: `owner` keeps whatever value the memory had. */
    constructor (shm: SharedByte, unset: bool)
      ensures this.shm == shm && owner == unset
    {
      this.shm := shm;
      owner := unset;
    }

    /** `lock`, watched for `turns` turns of its spin while nobody else touches the byte. It
        returns if the flag is set or the byte is free, and otherwise is still spinning. */
    method Lock(turns: nat) returns (won: bool)
      modifies this`owner, shm
      ensures won <==> old(owner) || (old(shm.value) == 0 && turns > 0)
      ensures won ==> owner && shm.value == if old(owner) then old(shm.value) else 1
      ensures !won ==> !owner && shm.value == old(shm.value)
    {
      won := owner;
      var left := turns;
      while !won && left > 0
        invariant owner == old(owner) && left <= turns
        invariant !won ==> !owner && shm.value == old(shm.value) && (left < turns ==> shm.value != 0)
        invariant won ==> if owner then shm.value == old(shm.value) else old(shm.value) == 0 && turns > 0 && shm.value == 1
      {
        won := shm.Cas(0, 1);
        left := left - 1;
      }
      if won {
        owner := true;
      }
    }

    method TryLock() returns (ok: bool)
      modifies this`owner, shm
      ensures ok <==> old(shm.value) == 0
      ensures ok ==> owner && shm.value == 1
      ensures !ok ==> owner == old(owner) && shm.value == old(shm.value)
    {
      ok := shm.Cas(0, 1);
      if ok {
        owner := true;
      }
    }

    /** `asserted` is the value of its assertion. Where that is compiled out, a caller without
        the flag changes nothing. */
    method Unlock() returns (asserted: bool)
      modifies this`owner, shm
      ensures asserted <==> old(owner) && old(shm.value) == 1
      ensures !owner && shm.value == if asserted then 0 else old(shm.value)
    {
      asserted := owner && shm.value == 1;
      if owner == false {
        return;
      }
      owner := false;
      var _ := shm.Cas(1, 0);
    }
  }
}
