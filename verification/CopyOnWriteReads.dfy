/** What a read returns. The published cache is at every moment what its log of puts, gets and
    copies makes of an empty cache, and a read answers as that sequential cache did when the
    read's pointer was copied. */
module CopyOnWriteReads {
  import opened RecencyCache
  import opened CopyOnWrite
  import LT = LruTrace

  /** Nothing has had to be evicted and nothing can have expired. */
  predicate Ample(s: System) {
    |LT.PutUrls(s.log)| <= s.max && s.now <= EXPIRED_TIME
  }

  /** `snapshot` is the replay of the first `version` operations of the log. */
  ghost predicate Replayed(s: System, snapshot: Cache, version: nat) {
    version <= |s.log| && snapshot == LT.Run(s.max, s.log[..version])
  }

  ghost predicate ThreadReplayed(s: System, t: nat)
    requires t < |s.threads|
  {
    var me := s.threads[t];
    me.ReadHeld? || me.Reading? ==> Replayed(s, me.snapshot, me.version)
  }

  ghost predicate Published(s: System) {
    s.current in s.heap && Replayed(s, s.heap[s.current].cache, |s.log|) &&
    (s.now <= EXPIRED_TIME ==> LT.NoExpiry(s.max, s.log))
  }

  ghost predicate Replay(s: System) {
    Published(s) &&
    (forall t :: 0 <= t < |s.threads| ==> ThreadReplayed(s, t)) &&
    (forall i :: 0 <= i < |s.answers| ==> Replayed(s, s.answers[i].snapshot, s.answers[i].version))
  }

  ghost predicate Inv(s: System) {
    Counted(s) && Held(s) && Replay(s)
  }

  lemma StartInv(max: nat, threads: nat, now: nat)
    requires now < WORD
    ensures Inv(Start(max, threads, now))
  {
    NoHolders(Start(max, threads, now).threads, 0);
  }

  lemma OneMore(max: nat, log: seq<LT.Op>, op: LT.Op)
    ensures LT.Run(max, log + [op]) == LT.Do(max, LT.Run(max, log), op)
    ensures LT.NoExpiry(max, log + [op]) <==> (LT.NoExpiry(max, log) &&
      (op.GetOp? && Has(LT.Run(max, log), op.url) ==> !Expired(op.now, Find(LT.Run(max, log), op.url).time)))
  {
    assert (log + [op])[..|log|] == log;
  }

  /** While no time can have expired, a get of the published cache meets nothing expired. */
  lemma NothingExpires(s: System, c: Cache, url: string)
    requires CacheOk(s, c) && s.now <= EXPIRED_TIME && Has(c, url)
    ensures !Expired(s.now, Find(c, url).time)
  {
    var x := Find(c, url);
    assert (s.now - x.time) % WORD == s.now - x.time;
  }

  /** The operation a step logs, if it touches the published cache. */
  function Logged(s: System, step: Step): seq<LT.Op>
    requires Enabled(s, step)
  {
    match step
    case Get(u) => if s.threads[u].lru == s.current then [LT.GetOp(s.threads[u].url, s.now)] else []
    case PutInto(u) => [LT.PutOp(s.threads[u].url, s.threads[u].content, s.now)]
    case CopyLru(u) => [LT.CopyOp(s.now)]
    case _ => []
  }

  /** What a step does to the published cache is what its logged operation does. */
  lemma StepDoesLogged(s: System, step: Step)
    requires Enabled(s, step) && Counted(Apply(s, step))
    ensures var t := Apply(s, step);
      t.log == s.log + Logged(s, step) && t.max == s.max &&
      t.heap[t.current].cache ==
        if Logged(s, step) == [] then s.heap[s.current].cache else LT.Do(s.max, s.heap[s.current].cache, Logged(s, step)[0])
  {
  }

  lemma LoggedExpiresNothing(s: System, step: Step)
    requires Held(s) && Enabled(s, step) && Logged(s, step) != [] && s.now <= EXPIRED_TIME
    ensures var op := Logged(s, step)[0];
      var c := s.heap[s.current].cache;
      op.GetOp? && Has(c, op.url) ==> !Expired(op.now, Find(c, op.url).time)
  {
    var op := Logged(s, step)[0];
    var c := s.heap[s.current].cache;
    assert CacheOk(s, c);
    if op.GetOp? && Has(c, op.url) {
      NothingExpires(s, c, op.url);
    }
  }

  lemma StepKeepsPublished(s: System, step: Step)
    requires Held(s) && Published(s) && Enabled(s, step) && Counted(Apply(s, step))
    ensures Published(Apply(s, step))
  {
    var t := Apply(s, step);
    StepDoesLogged(s, step);
    assert s.log[..|s.log|] == s.log && t.log[..|t.log|] == t.log;
    if Logged(s, step) == [] {
      assert t.log == s.log;
    } else {
      assert Logged(s, step) == [Logged(s, step)[0]];
      OneMore(s.max, s.log, Logged(s, step)[0]);
      if t.now <= EXPIRED_TIME {
        LoggedExpiresNothing(s, step);
      }
    }
  }

  lemma SnapshotStaysReplayed(s: System, step: Step, snapshot: Cache, version: nat)
    requires Enabled(s, step) && Replayed(s, snapshot, version)
    ensures Replayed(Apply(s, step), snapshot, version)
  {
    var t := Apply(s, step);
    assert s.log[..version] == t.log[..version];
  }

  lemma StepKeepsThreadReplayed(s: System, step: Step, u: nat)
    requires Published(s) && Enabled(s, step) && u < |s.threads| && ThreadReplayed(s, u)
    ensures ThreadReplayed(Apply(s, step), u)
  {
    var me := Apply(s, step).threads[u];
    if me.ReadHeld? || me.Reading? {
      SnapshotStaysReplayed(s, step, me.snapshot, me.version);
    }
  }

  lemma StepKeepsReplay(s: System, step: Step)
    requires Inv(s) && Enabled(s, step) && Counted(Apply(s, step))
    ensures Replay(Apply(s, step))
  {
    var t := Apply(s, step);
    StepKeepsPublished(s, step);
    forall u | 0 <= u < |t.threads|
      ensures ThreadReplayed(t, u)
    {
      assert ThreadReplayed(s, u);
      StepKeepsThreadReplayed(s, step, u);
    }
    forall i | 0 <= i < |t.answers|
      ensures Replayed(t, t.answers[i].snapshot, t.answers[i].version)
    {
      if i == |s.answers| {
        assert ThreadReplayed(s, step.t);
      }
      SnapshotStaysReplayed(s, step, t.answers[i].snapshot, t.answers[i].version);
    }
  }

  lemma {:induction false} RunKeepsInv(s: System, steps: seq<Step>)
    requires Inv(s) && Runs(s, steps)
    ensures Inv(After(s, steps))
    decreases |steps|
  {
    if steps != [] {
      StepKeepsCounted(s, steps[0]);
      StepKeepsHeld(s, steps[0]);
      StepKeepsReplay(s, steps[0]);
      RunKeepsInv(Apply(s, steps[0]), steps[1..]);
    }
  }

  // ------------------------------------------------------------------ the theorems

  /** Both uniqueness assertions hold whenever they are reached: a reader that has copied the
      pointer sees it shared, a writer about to put sees it unshared. */
  lemma UniquenessAssertionsHold(max: nat, threads: nat, now: nat, steps: seq<Step>, t: nat)
    requires now < WORD && Runs(Start(max, threads, now), steps) && t < |After(Start(max, threads, now), steps).threads|
    ensures var s := After(Start(max, threads, now), steps);
      Alive(s, s.current) &&
      (s.threads[t].ReadHeld? ==> s.heap[s.current].uses > 1) &&
      (s.threads[t].WriteReady? ==> s.heap[s.current].uses == 1)
  {
    StartInv(max, threads, now);
    RunKeepsInv(Start(max, threads, now), steps);
    var s := After(Start(max, threads, now), steps);
    assert ThreadOk(s, t) && CountOk(s, s.current);
    HoldersUpdate(s.threads, t, Idle, s.current);
  }

  /** While a reader holds an Lru, no step of a writer, and no release by another reader,
      changes or deletes it. */
  lemma WritersLeaveReadersAlone(max: nat, threads: nat, now: nat, steps: seq<Step>, step: Step, u: nat)
    requires now < WORD && Runs(Start(max, threads, now), steps)
    requires var s := After(Start(max, threads, now), steps);
      u < |s.threads| && Enabled(s, step) && !step.Get? && (s.threads[u].ReadHeld? || s.threads[u].Reading?)
    ensures var s := After(Start(max, threads, now), steps);
      var o := s.threads[u].lru;
      o in s.heap && o in Apply(s, step).heap && Apply(s, step).heap[o].cache == s.heap[o].cache
  {
    StartInv(max, threads, now);
    RunKeepsInv(Start(max, threads, now), steps);
    HeldObjectIsNotWritten(After(Start(max, threads, now), steps), step, u);
  }

  /** The published cache is the replay of its log, so without expiry it lists the last `max`
      distinct urls that were put, or got while it was the published one. */
  lemma PublishedIsAReplay(max: nat, threads: nat, now: nat, steps: seq<Step>)
    requires now < WORD && Runs(Start(max, threads, now), steps)
    ensures var s := After(Start(max, threads, now), steps);
      Alive(s, s.current) && s.heap[s.current].cache == LT.Run(s.max, s.log) &&
      (LT.NoExpiry(s.max, s.log) ==>
        LT.Keys(s.heap[s.current].cache) == LT.Suffix(LT.LastDistinct(LT.Touches(s.max, s.log)), s.max))
  {
    StartInv(max, threads, now);
    RunKeepsInv(Start(max, threads, now), steps);
    var s := After(Start(max, threads, now), steps);
    assert CountOk(s, s.current) && s.log[..|s.log|] == s.log;
    if LT.NoExpiry(s.max, s.log) {
      LT.ListIsLastDistinctUrls(s.max, s.log);
    }
  }

  lemma FreshLookup(c: Cache, url: string, now: nat)
    requires Has(c, url) && Find(c, url).time <= now <= EXPIRED_TIME
    ensures Lookup(c, url, now) == Find(c, url).content
  {
    assert (now - Find(c, url).time) % WORD == now - Find(c, url).time;
  }

  /** With room for every url and no expiry, a lookup finds exactly what was last put. */
  lemma AmpleLookup(max: nat, log: seq<LT.Op>, url: string, now: nat)
    requires LT.NoExpiry(max, log) && |LT.PutUrls(log)| <= max && now <= EXPIRED_TIME
    requires forall x :: x in LT.Run(max, log) ==> x.time <= now
    ensures Lookup(LT.Run(max, log), url, now) ==
      if LT.LastPut(log, url).Some? then LT.LastPut(log, url).value else ""
  {
    LT.LastPutIsSome(log, url);
    if url in LT.PutUrls(log) {
      LT.RoomKeepsAll(max, log, url);
      LT.ContentIsLastPut(max, log, Find(LT.Run(max, log), url));
      FreshLookup(LT.Run(max, log), url, now);
    } else {
      assert !Has(LT.Run(max, log), url) by {
        if Has(LT.Run(max, log), url) {
          LT.CachedWasPut(max, log, url);
        }
      }
    }
  }

  lemma AmpleSoFar(s: System, version: nat)
    requires Published(s) && Ample(s) && version <= |s.log|
    ensures LT.NoExpiry(s.max, s.log[..version]) && |LT.PutUrls(s.log[..version])| <= s.max
  {
    LT.EarlierTrace(s.max, s.log, version);
    SmallerSet(LT.PutUrls(s.log[..version]), LT.PutUrls(s.log));
  }

  lemma {:induction false} SmallerSet(a: set<string>, b: set<string>)
    requires a <= b
    ensures |a| <= |b|
  {
    if a != {} {
      var u :| u in a;
      SmallerSet(a - {u}, b - {u});
    }
  }

  lemma AnswerByAge(c: Cache, url: string, now: nat)
    requires Has(c, url) && Find(c, url).time <= now < WORD
    ensures Lookup(c, url, now) == if now - Find(c, url).time <= 0x7fff_ffff then Find(c, url).content else ""
  {
    ElapsedIsAge(now, Find(c, url).time);
  }

  /** Reads are linearizable: each completed read answered what the sequential cache, driven by
      the operations logged before its pointer was copied, answers. That is nothing, or the last
      content put for the url: that content exactly, while the url is cached, if at most
      0x7fff_ffff seconds have passed since it was put or copied, and also when there is room for
      every url and no time to expire. */
  lemma ReadsAreLinearizable(max: nat, threads: nat, now: nat, steps: seq<Step>, i: nat)
    requires now < WORD && Runs(Start(max, threads, now), steps)
    requires i < |After(Start(max, threads, now), steps).answers|
    ensures var s := After(Start(max, threads, now), steps);
      var r := s.answers[i];
      r.version <= |s.log| &&
      r.answer == Lookup(LT.Run(s.max, s.log[..r.version]), r.url, r.now) &&
      var last := LT.LastPut(s.log[..r.version], r.url);
      (r.answer == "" || last == Some(r.answer)) &&
      (Ample(s) ==> r.answer == if last.Some? then last.value else "") &&
      (Has(LT.Run(s.max, s.log[..r.version]), r.url) ==>
        last.Some? && r.answer == if r.now - LT.LastStamp(s.log[..r.version], r.url) <= 0x7fff_ffff then last.value else "")
  {
    StartInv(max, threads, now);
    RunKeepsInv(Start(max, threads, now), steps);
    var s := After(Start(max, threads, now), steps);
    var r := s.answers[i];
    assert AnswerOk(s, r) && Replayed(s, r.snapshot, r.version);
    if Has(r.snapshot, r.url) {
      var x := Find(r.snapshot, r.url);
      LT.ContentIsLastPut(s.max, s.log[..r.version], x);
      LT.TimeIsLastStamp(s.max, s.log[..r.version], x);
      AnswerByAge(r.snapshot, r.url, r.now);
    }
    if Ample(s) {
      AmpleSoFar(s, r.version);
      AmpleLookup(s.max, s.log[..r.version], r.url, r.now);
    }
  }
}
