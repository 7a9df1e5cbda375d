/** The MemoryCache object over the Lru class, one call at a time, and the runs of the
    interleaved machine its calls stand for. */
module MemoryCacheClass {
  import opened RecencyCache
  import LI = LruIndex
  import CW = CopyOnWrite
  import LT = LruTrace

  /** What `writeCache` publishes: the put is made on the Lru itself if nobody else points to
      it, and on a copy otherwise. */
  function WriteCall(c: Cache, shared: bool, max: nat, url: string, content: string, now: nat): Cache {
    Put(if shared then Copied(c, now) else c, max, url, content, now)
  }

  class MemoryCache {
    var lruCache: LI.Lru
    /** The pointers to the published Lru that readers hold, `lruCache` itself not counted. */
    var readers: nat

    constructor (n: nat)
      ensures fresh(lruCache) && lruCache.Valid() && lruCache.View() == [] && lruCache.maxSize == n && readers == 0
    {
      lruCache := new LI.Lru(n);
      readers := 0;
    }

    method ReadCache(url: string, now: nat) returns (answer: string)
      requires lruCache.Valid()
      modifies this`readers, lruCache
      ensures lruCache == old(lruCache) && lruCache.Valid() && readers == old(readers)
      ensures lruCache.View() == Touch(old(lruCache.View()), url, now)
      ensures answer == Lookup(old(lruCache.View()), url, now)
      ensures now < 0x1_0000_0000_0000_0000 ==> GotFrom(old(lruCache.View()), url, now, answer, lruCache.View())
    {
      var temp := lruCache;
      readers := readers + 1;
      assert readers > 0;
      answer := temp.Get(url, now);
      readers := readers - 1;
    }

    method WriteCache(url: string, content: string, now: nat)
      requires lruCache.Valid()
      modifies this, lruCache
      ensures lruCache.Valid() && readers == 0 && lruCache.maxSize == old(lruCache).maxSize
      ensures lruCache.View() == WriteCall(old(lruCache.View()), old(readers) > 0, lruCache.maxSize, url, content, now)
      ensures old(readers) > 0 ==> fresh(lruCache) && unchanged(old(lruCache))
      ensures old(readers) == 0 ==> lruCache == old(lruCache)
    {
      if readers != 0 {
        lruCache := new LI.Lru.Copy(lruCache, now);
        readers := 0;
      }
      assert readers == 0;
      lruCache.Put(url, content, now);
    }
  }

  lemma Prepend(s: CW.System, step: CW.Step, rest: seq<CW.Step>)
    requires CW.Enabled(s, step) && CW.Runs(CW.Apply(s, step), rest)
    ensures CW.Runs(s, [step] + rest) && CW.After(s, [step] + rest) == CW.After(CW.Apply(s, step), rest)
  {
    assert ([step] + rest)[1..] == rest;
  }

  /** A `writeCache` call that nobody interleaves with is a run of the machine. */
  lemma WriteCallIsARun(s: CW.System, t: nat, url: string, content: string) returns (steps: seq<CW.Step>)
    requires CW.Counted(s) && t < |s.threads| && s.threads[t].Idle? && s.holder == None
    ensures CW.Runs(s, steps)
    ensures var u := CW.After(s, steps);
      CW.Alive(s, s.current) && CW.Alive(u, u.current) && u.threads == s.threads && u.holder == None &&
      u.log == s.log + (if s.heap[s.current].uses > 1 then [LT.CopyOp(s.now)] else []) + [LT.PutOp(url, content, s.now)] &&
      u.heap[u.current].cache == WriteCall(s.heap[s.current].cache, s.heap[s.current].uses > 1, s.max, url, content, s.now)
  {
    CW.CountedIsEnough(s);
    var lock := CW.LockToWrite(t, url, content);
    var s1 := CW.Apply(s, lock);
    CW.StepKeepsCounted(s, lock);
    CW.CountedIsEnough(s1);
    var test := CW.TestUnique(t);
    var s2 := CW.Apply(s1, test);
    CW.StepKeepsCounted(s1, test);
    var tail;
    if s2.threads[t].WriteReady? {
      tail := PutAndUnlock(s2, t);
    } else {
      tail := CopyPutAndUnlock(s2, t);
    }
    Prepend(s1, test, tail);
    Prepend(s, lock, [test] + tail);
    steps := [lock] + ([test] + tail);
    assert CW.After(s, steps).threads == s.threads;
  }

  lemma PutAndUnlock(s: CW.System, t: nat) returns (steps: seq<CW.Step>)
    requires CW.Counted(s) && t < |s.threads| && s.threads[t].WriteReady?
    ensures CW.Alive(s, s.current) && CW.Runs(s, steps)
    ensures var u := CW.After(s, steps); var me := s.threads[t];
      CW.Alive(u, u.current) && u.threads == s.threads[t := CW.Idle] && u.holder == None &&
      u.log == s.log + [LT.PutOp(me.url, me.content, s.now)] &&
      u.heap[u.current].cache == Put(s.heap[s.current].cache, s.max, me.url, me.content, s.now)
  {
    CW.CountedIsEnough(s);
    var put := CW.PutInto(t);
    var s1 := CW.Apply(s, put);
    CW.StepKeepsCounted(s, put);
    CW.CountedIsEnough(s1);
    var unlock := CW.UnlockWriter(t);
    CW.StepKeepsCounted(s1, unlock);
    CW.CountedIsEnough(CW.Apply(s1, unlock));
    Prepend(s1, unlock, []);
    Prepend(s, put, [unlock] + []);
    steps := [put] + ([unlock] + []);
  }

  lemma CopyPutAndUnlock(s: CW.System, t: nat) returns (steps: seq<CW.Step>)
    requires CW.Counted(s) && t < |s.threads| && s.threads[t].WriteCopying?
    ensures CW.Alive(s, s.current) && CW.Runs(s, steps)
    ensures var u := CW.After(s, steps); var me := s.threads[t];
      CW.Alive(u, u.current) && u.threads == s.threads[t := CW.Idle] && u.holder == None &&
      u.log == s.log + [LT.CopyOp(s.now)] + [LT.PutOp(me.url, me.content, s.now)] &&
      u.heap[u.current].cache == Put(Copied(s.heap[s.current].cache, s.now), s.max, me.url, me.content, s.now)
  {
    CW.CountedIsEnough(s);
    var copy := CW.CopyLru(t);
    var s1 := CW.Apply(s, copy);
    CW.StepKeepsCounted(s, copy);
    var tail := PutAndUnlock(s1, t);
    Prepend(s, copy, tail);
    steps := [copy] + tail;
  }

  /** A `readCache` call that nobody interleaves with is a run of the machine: it answers and
      reorders as `ReadCache` does, and gives its pointer back. */
  lemma ReadCallIsARun(s: CW.System, t: nat, url: string) returns (steps: seq<CW.Step>)
    requires CW.Counted(s) && t < |s.threads| && s.threads[t].Idle? && s.holder == None
    ensures CW.Runs(s, steps)
    ensures var u := CW.After(s, steps);
      CW.Alive(s, s.current) && CW.Alive(u, u.current) && u.threads == s.threads && u.holder == None &&
      u.current == s.current && u.heap[u.current] == s.heap[s.current].(cache := Touch(s.heap[s.current].cache, url, s.now)) &&
      u.log == s.log + [LT.GetOp(url, s.now)] && |u.answers| == |s.answers| + 1 &&
      u.answers[|s.answers|].answer == Lookup(s.heap[s.current].cache, url, s.now)
  {
    CW.CountedIsEnough(s);
    var lock := CW.LockToRead(t, url);
    var s1 := CW.Apply(s, lock);
    CW.StepKeepsCounted(s, lock);
    CW.CountedIsEnough(s1);
    var copy := CW.CopyPointer(t);
    var s2 := CW.Apply(s1, copy);
    CW.StepKeepsCounted(s1, copy);
    var tail := GetAndRelease(s2, t);
    Prepend(s1, copy, tail);
    Prepend(s, lock, [copy] + tail);
    steps := [lock] + ([copy] + tail);
    assert CW.After(s, steps).threads == s.threads;
  }

  lemma GetAndRelease(s: CW.System, t: nat) returns (steps: seq<CW.Step>)
    requires CW.Counted(s) && t < |s.threads| && s.threads[t].ReadHeld?
    requires s.threads[t].lru == s.current && CW.Alive(s, s.current) && s.heap[s.current].uses > 1
    ensures CW.Runs(s, steps)
    ensures var u := CW.After(s, steps); var me := s.threads[t]; var o := s.heap[s.current];
      CW.Alive(u, u.current) && u.threads == s.threads[t := CW.Idle] && u.holder == None && u.current == s.current &&
      u.heap[u.current] == CW.Shared(Touch(o.cache, me.url, s.now), o.uses - 1) &&
      u.log == s.log + [LT.GetOp(me.url, s.now)] && |u.answers| == |s.answers| + 1 &&
      u.answers[|s.answers|].answer == Lookup(o.cache, me.url, s.now)
  {
    CW.CountedIsEnough(s);
    var unlock := CW.UnlockReader(t);
    var s1 := CW.Apply(s, unlock);
    CW.StepKeepsCounted(s, unlock);
    CW.CountedIsEnough(s1);
    var get := CW.Get(t);
    var s2 := CW.Apply(s1, get);
    CW.StepKeepsCounted(s1, get);
    CW.CountedIsEnough(s2);
    var release := CW.Release(t);
    var s3 := CW.Apply(s2, release);
    assert s3.threads == s.threads[t := CW.Idle];
    Prepend(s2, release, []);
    Prepend(s1, get, [release] + []);
    Prepend(s, unlock, [get] + ([release] + []));
    steps := [unlock] + ([get] + ([release] + []));
    assert CW.After(s2, [release] + []) == s3;
  }
}
