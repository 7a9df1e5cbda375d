/** The cache as a plain recency sequence, least recently touched first. The list and position
    map of cache/LRU.h are proved to behave like this (LruIndex), and the wrapper of
    cache/memoryCache.h publishes values of this type (CopyOnWrite). */
module RecencyCache {

  datatype Item = Item(url: string, content: string, time: nat)

  type Cache = seq<Item>

  /** `expiredTime_`, the largest `int`. */
  const EXPIRED_TIME: nat := 0x7fff_ffff

  const WORD: nat := 0x1_0000_0000_0000_0000

  /** The subtraction of two 64-bit unsigned times. */
  function Elapsed(now: nat, then_: nat): nat {
    (now - then_) % WORD
  }

  predicate Expired(now: nat, time: nat) {
    Elapsed(now, time) > EXPIRED_TIME
  }

  predicate Has(c: Cache, url: string) {
    exists x :: x in c && x.url == url
  }

  /** The first item for `url`. */
  function Find(c: Cache, url: string): (x: Item)
    requires Has(c, url)
    ensures x in c && x.url == url
  {
    if c[0].url == url then c[0] else Find(c[1..], url)
  }

  function Without(c: Cache, url: string): Cache {
    if c == [] then [] else if c[0].url == url then c[1..] else [c[0]] + Without(c[1..], url)
  }

  /** Drop from the front until at most `max` remain. */
  function Evict(c: Cache, max: nat): Cache {
    if |c| <= max then c else c[|c| - max..]
  }

  function Put(c: Cache, max: nat, url: string, content: string, now: nat): Cache {
    if Has(c, url) then Without(c, url) + [Item(url, content, now)]
    else Evict(c + [Item(url, content, now)], max)
  }

  predicate Hits(c: Cache, url: string, now: nat) {
    Has(c, url) && !Expired(now, Find(c, url).time)
  }

  /** What `get` answers: nothing for a miss, and nothing for an item that has expired. */
  function Lookup(c: Cache, url: string, now: nat): string {
    if Hits(c, url, now) then Find(c, url).content else ""
  }

  /** What `get` leaves: a hit moves to the end, an expired item is gone. */
  function Touch(c: Cache, url: string, now: nat): Cache {
    if !Has(c, url) then c
    else if Expired(now, Find(c, url).time) then Without(c, url)
    else Without(c, url) + [Find(c, url)]
  }

  /** The copy constructor stamps every item with the current time. */
  function Copied(c: Cache, now: nat): Cache {
    seq(|c|, i requires 0 <= i < |c| => c[i].(time := now))
  }

  ghost predicate Distinct(c: Cache) {
    forall i, j :: 0 <= i < j < |c| ==> c[i].url != c[j].url
  }

  // ------------------------------------------------------------------ basic facts

  lemma {:induction false} WithoutAt(c: Cache, i: nat)
    requires Distinct(c) && i < |c|
    ensures Without(c, c[i].url) == c[..i] + c[i + 1..] && Has(c, c[i].url) && Find(c, c[i].url) == c[i]
  {
    assert c[i] in c;
    if i > 0 {
      var rest := c[1..];
      assert rest[i - 1] == c[i] && c[0].url != c[i].url;
      WithoutAt(rest, i - 1);
      AroundLater(c, i);
    }
  }

  lemma AroundLater(c: Cache, i: nat)
    requires 0 < i < |c|
    ensures c[..i] + c[i + 1..] == [c[0]] + (c[1..][..i - 1] + c[1..][i..])
  {
  }

  lemma {:induction false} WithoutMembers(c: Cache, url: string, x: Item)
    requires Distinct(c)
    ensures x in Without(c, url) <==> x in c && x.url != url
  {
    if c != [] {
      assert c == [c[0]] + c[1..];
      if c[0].url != url {
        WithoutMembers(c[1..], url, x);
      } else if x in c[1..] {
        var i :| 0 <= i < |c[1..]| && c[1..][i] == x;
        assert c[i + 1] == x;
      }
    }
  }

  lemma {:induction false} WithoutLength(c: Cache, url: string)
    ensures |Without(c, url)| == if Has(c, url) then |c| - 1 else |c|
    ensures !Has(c, url) ==> Without(c, url) == c
  {
    if c != [] {
      assert c[0] in c;
      assert c == [c[0]] + c[1..];
      WithoutLength(c[1..], url);
      assert c[0].url != url ==> (Has(c, url) <==> Has(c[1..], url));
    }
  }

  lemma DistinctCons(x: Item, c: Cache)
    requires Distinct(c) && !Has(c, x.url)
    ensures Distinct([x] + c) && Distinct(c + [x])
  {
    forall i | 0 <= i < |c|
      ensures c[i].url != x.url
    {
      assert c[i] in c;
    }
  }

  lemma {:induction false} WithoutDistinct(c: Cache, url: string)
    requires Distinct(c)
    ensures Distinct(Without(c, url))
  {
    if c != [] && c[0].url != url {
      WithoutDistinct(c[1..], url);
      forall x | x in Without(c[1..], url)
        ensures x.url != c[0].url
      {
        WithoutMembers(c[1..], url, x);
        var i :| 0 <= i < |c[1..]| && c[1..][i] == x;
        assert c[i + 1] == x;
      }
      DistinctCons(c[0], Without(c[1..], url));
    }
  }

  lemma WithoutKeeps(c: Cache, url: string)
    requires Distinct(c)
    ensures Distinct(Without(c, url)) && !Has(Without(c, url), url)
    ensures |Without(c, url)| == if Has(c, url) then |c| - 1 else |c|
    ensures forall x :: x in Without(c, url) <==> x in c && x.url != url
  {
    WithoutDistinct(c, url);
    WithoutLength(c, url);
    forall x
      ensures x in Without(c, url) <==> x in c && x.url != url
    {
      WithoutMembers(c, url, x);
    }
  }

  lemma FindIsUnique(c: Cache, x: Item)
    requires Distinct(c) && x in c
    ensures Has(c, x.url) && Find(c, x.url) == x
  {
    var i :| 0 <= i < |c| && c[i] == x;
    WithoutAt(c, i);
  }

  lemma EvictKeepsDistinct(c: Cache, max: nat)
    requires Distinct(c)
    ensures Distinct(Evict(c, max)) && |Evict(c, max)| <= max
  {
  }

  /** Every operation keeps urls distinct and, apart from copying, the size within the bound. */
  lemma OperationsKeepDistinct(c: Cache, max: nat, url: string, content: string, now: nat)
    requires Distinct(c) && |c| <= max
    ensures Distinct(Put(c, max, url, content, now)) && |Put(c, max, url, content, now)| <= max
    ensures Distinct(Touch(c, url, now)) && |Touch(c, url, now)| <= max
    ensures Distinct(Copied(c, now)) && |Copied(c, now)| == |c|
  {
    WithoutKeeps(c, url);
    DistinctCons(Item(url, content, now), Without(c, url));
    if Has(c, url) {
      DistinctCons(Find(c, url), Without(c, url));
    } else {
      DistinctCons(Item(url, content, now), c);
      EvictKeepsDistinct(c + [Item(url, content, now)], max);
    }
  }

  /** After a put the url holds the new content, and everything else that is left is unchanged. */
  lemma PutStores(c: Cache, max: nat, url: string, content: string, now: nat)
    requires Distinct(c) && |c| <= max && 0 < max
    ensures var d := Put(c, max, url, content, now);
      Has(d, url) && Find(d, url) == Item(url, content, now) &&
      (forall x :: x in d && x.url != url ==> x in c) &&
      (|c| < max ==> forall x :: x in c && x.url != url ==> x in d)
  {
    OperationsKeepDistinct(c, max, url, content, now);
    WithoutKeeps(c, url);
    var d := Put(c, max, url, content, now);
    assert d[|d| - 1] == Item(url, content, now);
    FindIsUnique(d, Item(url, content, now));
    forall x | x in d && x.url != url
      ensures x in c
    {
      if !Has(c, url) {
        assert x in c + [Item(url, content, now)];
      }
    }
  }

  // ------------------------------------------------------------------ what a get does

  /** How old an item is on a clock of 64 bits. */
  function Age(now: nat, time: nat): int {
    if time <= now then now - time else now + 0x1_0000_0000_0000_0000 - time
  }

  /** What a get of `url` answers and leaves: an item of at most 0x7fff_ffff seconds is answered
      and becomes the last, an older one is gone, a url that is not there changes nothing. */
  ghost predicate GotFrom(before: Cache, url: string, now: nat, answer: string, after: Cache) {
    ((forall x :: x in before ==> x.url != url) ==> answer == "" && after == before) &&
    forall i :: 0 <= i < |before| && before[i].url == url && before[i].time < 0x1_0000_0000_0000_0000 ==>
      if Age(now, before[i].time) <= 0x7fff_ffff
      then answer == before[i].content && after == before[..i] + before[i + 1..] + [before[i]]
      else answer == "" && after == before[..i] + before[i + 1..]
  }

  lemma ElapsedIsAge(now: nat, time: nat)
    requires now < 0x1_0000_0000_0000_0000 && time < 0x1_0000_0000_0000_0000
    ensures Elapsed(now, time) == Age(now, time)
  {
  }

  lemma GetOfItem(c: Cache, i: nat, now: nat)
    requires Distinct(c) && i < |c| && now < 0x1_0000_0000_0000_0000 && c[i].time < 0x1_0000_0000_0000_0000
    ensures var url := c[i].url;
      if Age(now, c[i].time) <= 0x7fff_ffff
      then Lookup(c, url, now) == c[i].content && Touch(c, url, now) == c[..i] + c[i + 1..] + [c[i]]
      else Lookup(c, url, now) == "" && Touch(c, url, now) == c[..i] + c[i + 1..]
  {
    WithoutAt(c, i);
    ElapsedIsAge(now, c[i].time);
  }

  /** The answer and the order that `get` leaves, by the ages of the items. */
  lemma GetLaw(c: Cache, url: string, now: nat)
    requires Distinct(c) && now < 0x1_0000_0000_0000_0000
    ensures GotFrom(c, url, now, Lookup(c, url, now), Touch(c, url, now))
  {
    forall i | 0 <= i < |c| && c[i].url == url && c[i].time < 0x1_0000_0000_0000_0000
      ensures if Age(now, c[i].time) <= 0x7fff_ffff
        then Lookup(c, url, now) == c[i].content && Touch(c, url, now) == c[..i] + c[i + 1..] + [c[i]]
        else Lookup(c, url, now) == "" && Touch(c, url, now) == c[..i] + c[i + 1..]
    {
      GetOfItem(c, i, now);
    }
  }

  /** A get after a put answers the content up to that age, and nothing after it. */
  lemma PutThenGet(c: Cache, max: nat, url: string, content: string, time: nat, now: nat)
    requires Distinct(c) && |c| <= max && 0 < max && time <= now < 0x1_0000_0000_0000_0000
    ensures Lookup(Put(c, max, url, content, time), url, now) == if now - time <= 0x7fff_ffff then content else ""
  {
    var d := Put(c, max, url, content, time);
    OperationsKeepDistinct(c, max, url, content, time);
    PutStores(c, max, url, content, time);
    var i :| 0 <= i < |d| && d[i] == Item(url, content, time);
    GetOfItem(d, i, now);
  }

  // ------------------------------------------------------------------ the eviction loop

  /** The loop as written: the size is read once, so the test never changes. `None` is the
      dereference of `begin()` of an empty list. */
  datatype Option<T> = None | Some(value: T)

  function EvictAsWritten(c: Cache, sizeNow: nat, max: nat): Option<Cache>
    decreases |c|
  {
    if sizeNow > max then
      if c == [] then None else EvictAsWritten(c[1..], sizeNow, max)
    else Some(c)
  }

  /** `put` as written. */
  function PutAsWritten(c: Cache, max: nat, url: string, content: string, now: nat): Option<Cache> {
    if Has(c, url) then Some(Without(c, url) + [Item(url, content, now)])
    else EvictAsWritten(c + [Item(url, content, now)], |c| + 1, max)
  }

  lemma {:induction false} EvictAsWrittenNeverStops(c: Cache, sizeNow: nat, max: nat)
    requires sizeNow > max
    ensures EvictAsWritten(c, sizeNow, max) == None
    decreases |c|
  {
    if c != [] {
      EvictAsWrittenNeverStops(c[1..], sizeNow, max);
    }
  }

  /** `put` as written returns if and only if nothing has to be evicted, and then it does what
      the loop with the decrement does. */
  lemma PutAsWrittenIffNoEviction(c: Cache, max: nat, url: string, content: string, now: nat)
    ensures PutAsWritten(c, max, url, content, now).Some? <==> Has(c, url) || |c| < max
    ensures PutAsWritten(c, max, url, content, now).Some?
      ==> PutAsWritten(c, max, url, content, now).value == Put(c, max, url, content, now)
  {
    if !Has(c, url) && |c| >= max {
      EvictAsWrittenNeverStops(c + [Item(url, content, now)], |c| + 1, max);
    }
  }
}
