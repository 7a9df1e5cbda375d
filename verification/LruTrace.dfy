/** Whole traces of `put`, `get` and copying on one cache without expiry: what the list holds,
    and how caches of different capacity driven by the same trace compare. */
module LruTrace {
  import opened RecencyCache

  datatype Op =
    | PutOp(url: string, content: string, now: nat)
    | GetOp(url: string, now: nat)
    | CopyOp(now: nat)

  function Do(max: nat, c: Cache, op: Op): Cache {
    match op
    case PutOp(url, content, now) => Put(c, max, url, content, now)
    case GetOp(url, now) => Touch(c, url, now)
    case CopyOp(now) => Copied(c, now)
  }

  function Run(max: nat, ops: seq<Op>): Cache {
    if ops == [] then []
    else Do(max, Run(max, ops[..|ops| - 1]), ops[|ops| - 1])
  }

  /** No `get` of the trace meets an expired item. */
  predicate NoExpiry(max: nat, ops: seq<Op>) {
    ops == [] ||
    (NoExpiry(max, ops[..|ops| - 1]) &&
     var c := Run(max, ops[..|ops| - 1]);
     var op := ops[|ops| - 1];
     op.GetOp? && Has(c, op.url) ==> !Expired(op.now, Find(c, op.url).time))
  }

  lemma {:induction false} RunIsDistinct(max: nat, ops: seq<Op>)
    ensures Distinct(Run(max, ops)) && |Run(max, ops)| <= max
  {
    if ops != [] {
      RunIsDistinct(max, ops[..|ops| - 1]);
      var op := ops[|ops| - 1];
      var url := if op.CopyOp? then "" else op.url;
      OperationsKeepDistinct(Run(max, ops[..|ops| - 1]), max, url, if op.PutOp? then op.content else "", op.now);
    }
  }

  // ------------------------------------------------------------------ the last distinct urls

  /** The urls of the trace that count as a use: those put, and those got while cached. */
  function Touches(max: nat, ops: seq<Op>): seq<string> {
    if ops == [] then []
    else
      var before := ops[..|ops| - 1];
      var op := ops[|ops| - 1];
      Touches(max, before) + (if op.PutOp? || (op.GetOp? && Has(Run(max, before), op.url)) then [op.url] else [])
  }

  /** The distinct urls of a trace in the order of their last occurrence. */
  function LastDistinct(trace: seq<string>): seq<string> {
    if trace == [] then []
    else if trace[0] in trace[1..] then LastDistinct(trace[1..])
    else [trace[0]] + LastDistinct(trace[1..])
  }

  function Keys(c: Cache): seq<string> {
    seq(|c|, i requires 0 <= i < |c| => c[i].url)
  }

  function Suffix<T>(s: seq<T>, n: nat): seq<T> {
    if |s| <= n then s else s[|s| - n..]
  }

  function Remove(s: seq<string>, u: string): seq<string> {
    if s == [] then [] else if s[0] == u then s[1..] else [s[0]] + Remove(s[1..], u)
  }

  lemma {:induction false} KeysWithout(c: Cache, url: string)
    ensures Keys(Without(c, url)) == Remove(Keys(c), url)
  {
    if c != [] {
      KeysWithout(c[1..], url);
      assert Keys(c)[1..] == Keys(c[1..]);
      assert c[0].url != url ==> Keys(Without(c, url)) == [c[0].url] + Keys(Without(c[1..], url));
    }
  }

  lemma HasIsKey(c: Cache, url: string)
    ensures Has(c, url) <==> url in Keys(c)
  {
    if Has(c, url) {
      var x :| x in c && x.url == url;
      var i :| 0 <= i < |c| && c[i] == x;
      assert Keys(c)[i] == url;
    }
    if url in Keys(c) {
      var i :| 0 <= i < |c| && Keys(c)[i] == url;
      assert c[i] in c;
    }
  }

  lemma {:induction false} RemoveMissing(s: seq<string>, u: string)
    requires u !in s
    ensures Remove(s, u) == s
  {
    if s != [] {
      RemoveMissing(s[1..], u);
    }
  }

  lemma RemoveHead(h: string, rest: seq<string>, u: string)
    ensures Remove([h] + rest, u) == if h == u then rest else [h] + Remove(rest, u)
  {
    assert ([h] + rest)[1..] == rest;
  }

  lemma Regroup<T>(a: seq<T>, b: seq<T>, c: seq<T>)
    ensures (a + b) + c == a + (b + c)
  {
  }

  lemma {:induction false} RemoveFromConcat(a: seq<string>, b: seq<string>, u: string)
    ensures Remove(a + b, u) == if u in a then Remove(a, u) + b else a + Remove(b, u)
  {
    if a == [] {
      assert a + b == b;
    } else {
      var h, rest := a[0], a[1..];
      assert a == [h] + rest;
      Regroup([h], rest, b);
      RemoveHead(h, rest, u);
      RemoveHead(h, rest + b, u);
      if h != u {
        RemoveFromConcat(rest, b, u);
        Regroup([h], Remove(rest, u), b);
        Regroup([h], rest, Remove(b, u));
      }
    }
  }

  lemma {:induction false} RemoveLength(s: seq<string>, u: string)
    ensures |Remove(s, u)| == if u in s then |s| - 1 else |s|
  {
    if s != [] {
      RemoveLength(s[1..], u);
    }
  }

  lemma {:induction false} LastDistinctMembers(trace: seq<string>, u: string)
    ensures u in LastDistinct(trace) <==> u in trace
  {
    if trace != [] {
      LastDistinctMembers(trace[1..], u);
    }
  }

  ghost predicate NoRepeats(s: seq<string>) {
    forall i, j :: 0 <= i < j < |s| ==> s[i] != s[j]
  }

  lemma {:induction false} LastDistinctNoRepeats(trace: seq<string>)
    ensures NoRepeats(LastDistinct(trace))
  {
    if trace != [] {
      LastDistinctNoRepeats(trace[1..]);
      LastDistinctMembers(trace[1..], trace[0]);
    }
  }

  /** One more use moves its url to the end. */
  lemma {:induction false} LastDistinctAppend(trace: seq<string>, u: string)
    ensures LastDistinct(trace + [u]) == Remove(LastDistinct(trace), u) + [u]
  {
    if trace != [] {
      var h, t := trace[0], trace[1..];
      assert (trace + [u])[1..] == t + [u];
      LastDistinctAppend(t, u);
      LastDistinctMembers(t, u);
      if h == u && h !in t {
        RemoveMissing(LastDistinct(t), u);
      }
    }
  }

  lemma SuffixOfConcat<T>(a: seq<T>, b: seq<T>, n: nat)
    requires n <= |b|
    ensures Suffix(a + b, n) == Suffix(b, n)
  {
    assert (a + b)[|a| + |b| - n..] == b[|b| - n..];
  }

  lemma UseOfCached(p: seq<string>, k: seq<string>, max: nat, u: string)
    requires |k| <= max && (p == [] || |k| == max) && u in k && u !in p
    ensures Suffix(Remove(p + k, u) + [u], max) == Remove(k, u) + [u]
  {
    RemoveFromConcat(p, k, u);
    RemoveMissing(p, u);
    RemoveLength(k, u);
    Regroup(p, Remove(k, u), [u]);
    if p == [] {
      assert p + (Remove(k, u) + [u]) == Remove(k, u) + [u];
    } else {
      SuffixOfConcat(p, Remove(k, u) + [u], max);
    }
  }

  lemma UseOfUncached(p: seq<string>, k: seq<string>, max: nat, u: string)
    requires |k| <= max && (p == [] || |k| == max) && u !in k
    ensures Suffix(Remove(p + k, u) + [u], max) == Suffix(k + [u], max)
  {
    RemoveFromConcat(p, k, u);
    RemoveMissing(k, u);
    var q := if u in p then Remove(p, u) else p;
    Regroup(q, k, [u]);
    if p == [] {
      assert q + (k + [u]) == k + [u];
    } else {
      SuffixOfConcat(q, k + [u], max);
    }
  }

  /** A use keeps the suffix property: of a cached url, and of one that is not. */
  lemma UseKeepsSuffix(d: seq<string>, max: nat, u: string)
    requires NoRepeats(d)
    ensures var k := Suffix(d, max);
      Suffix(Remove(d, u) + [u], max) == if u in k then Remove(k, u) + [u] else Suffix(k + [u], max)
  {
    var k := Suffix(d, max);
    var p := d[..|d| - |k|];
    assert d == p + k;
    if u in k {
      assert u !in p;
      UseOfCached(p, k, max, u);
    } else {
      UseOfUncached(p, k, max, u);
    }
  }

  lemma KeysOfPut(c: Cache, max: nat, url: string, content: string, now: nat)
    ensures Keys(Put(c, max, url, content, now)) ==
      if url in Keys(c) then Remove(Keys(c), url) + [url] else Suffix(Keys(c) + [url], max)
  {
    HasIsKey(c, url);
    KeysWithout(c, url);
    var x := Item(url, content, now);
    KeysAppend(Without(c, url), x);
    KeysAppend(c, x);
    assert Keys(Evict(c + [x], max)) == Suffix(Keys(c + [x]), max);
  }

  lemma KeysAppend(c: Cache, x: Item)
    ensures Keys(c + [x]) == Keys(c) + [x.url]
  {
  }

  lemma KeysOfHit(c: Cache, url: string, now: nat)
    requires Hits(c, url, now)
    ensures Keys(Touch(c, url, now)) == Remove(Keys(c), url) + [url]
  {
    KeysWithout(c, url);
    assert Keys(Without(c, url) + [Find(c, url)]) == Keys(Without(c, url)) + [url];
  }

  /** Without expiry the list always holds the last `max` distinct urls that were used. */
  lemma {:induction false} ListIsLastDistinctUrls(max: nat, ops: seq<Op>)
    requires NoExpiry(max, ops)
    ensures Keys(Run(max, ops)) == Suffix(LastDistinct(Touches(max, ops)), max)
  {
    if ops != [] {
      var before := ops[..|ops| - 1];
      var op := ops[|ops| - 1];
      var c := Run(max, before);
      ListIsLastDistinctUrls(max, before);
      if op.CopyOp? {
        assert Keys(Copied(c, op.now)) == Keys(c);
        assert Touches(max, ops) == Touches(max, before);
      } else {
        LastDistinctNoRepeats(Touches(max, before));
        HasIsKey(c, op.url);
        UseKeepsSuffix(LastDistinct(Touches(max, before)), max, op.url);
        LastDistinctAppend(Touches(max, before), op.url);
        if op.PutOp? {
          KeysOfPut(c, max, op.url, op.content, op.now);
        } else if Has(c, op.url) {
          KeysOfHit(c, op.url, op.now);
        } else {
          assert Touches(max, ops) == Touches(max, before);
        }
      }
    }
  }

  /** The content of the last `put` of a url. */
  function LastPut(ops: seq<Op>, url: string): Option<string> {
    if ops == [] then None
    else if ops[|ops| - 1].PutOp? && ops[|ops| - 1].url == url then Some(ops[|ops| - 1].content)
    else LastPut(ops[..|ops| - 1], url)
  }

  /** Whatever the cache holds for a url is what was last put for it, with or without expiry. */
  lemma {:induction false} ContentIsLastPut(max: nat, ops: seq<Op>, x: Item)
    requires x in Run(max, ops)
    ensures LastPut(ops, x.url) == Some(x.content)
    decreases |ops|
  {
    var before := ops[..|ops| - 1];
    var op := ops[|ops| - 1];
    var c := Run(max, before);
    RunIsDistinct(max, before);
    if op.CopyOp? {
      var i :| 0 <= i < |c| && Copied(c, op.now)[i] == x;
      assert c[i] in c;
      ContentIsLastPut(max, before, c[i]);
    } else if op.PutOp? {
      WithoutKeeps(c, op.url);
      var y := Item(op.url, op.content, op.now);
      assert x == y || (x in c && x.url != op.url) by {
        if !Has(c, op.url) {
          assert x in c + [y];
        }
      }
      if x in c && x.url != op.url {
        ContentIsLastPut(max, before, x);
      }
    } else {
      WithoutKeeps(c, op.url);
      assert x in c;
      ContentIsLastPut(max, before, x);
    }
  }

  /** When `url` was last put or, with the whole cache, copied. */
  function LastStamp(ops: seq<Op>, url: string): nat {
    if ops == [] then 0
    else
      var op := ops[|ops| - 1];
      if op.CopyOp? || (op.PutOp? && op.url == url) then op.now else LastStamp(ops[..|ops| - 1], url)
  }

  /** That is the time a cached item carries, with or without expiry. */
  lemma {:induction false} TimeIsLastStamp(max: nat, ops: seq<Op>, x: Item)
    requires x in Run(max, ops)
    ensures x.time == LastStamp(ops, x.url)
    decreases |ops|
  {
    var before := ops[..|ops| - 1];
    var op := ops[|ops| - 1];
    var c := Run(max, before);
    RunIsDistinct(max, before);
    if op.CopyOp? {
      var i :| 0 <= i < |c| && Copied(c, op.now)[i] == x;
    } else {
      WithoutKeeps(c, op.url);
      if op.GetOp? {
        assert x in c;
        TimeIsLastStamp(max, before, x);
      } else if x != Item(op.url, op.content, op.now) {
        PutKeepsOthers(c, max, op, x);
        TimeIsLastStamp(max, before, x);
      }
    }
  }

  lemma PutKeepsOthers(c: Cache, max: nat, op: Op, x: Item)
    requires Distinct(c) && op.PutOp? && x in Do(max, c, op) && x != Item(op.url, op.content, op.now)
    ensures x in c && x.url != op.url
  {
    WithoutKeeps(c, op.url);
    if !Has(c, op.url) {
      assert x in c + [Item(op.url, op.content, op.now)];
    }
  }

  // ------------------------------------------------------------------ room for every url

  function PutUrls(ops: seq<Op>): set<string> {
    if ops == [] then {}
    else PutUrls(ops[..|ops| - 1]) + (if ops[|ops| - 1].PutOp? then {ops[|ops| - 1].url} else {})
  }

  lemma {:induction false} LastPutIsSome(ops: seq<Op>, url: string)
    ensures LastPut(ops, url).Some? <==> url in PutUrls(ops)
  {
    if ops != [] {
      LastPutIsSome(ops[..|ops| - 1], url);
    }
  }

  lemma CachedWasPut(max: nat, ops: seq<Op>, url: string)
    requires Has(Run(max, ops), url)
    ensures url in PutUrls(ops)
  {
    ContentIsLastPut(max, ops, Find(Run(max, ops), url));
    LastPutIsSome(ops, url);
  }

  lemma {:induction false} TouchesAreThePuts(max: nat, ops: seq<Op>, url: string)
    ensures url in Touches(max, ops) <==> url in PutUrls(ops)
  {
    if ops != [] {
      var before := ops[..|ops| - 1];
      var op := ops[|ops| - 1];
      TouchesAreThePuts(max, before, url);
      if op.GetOp? && Has(Run(max, before), op.url) {
        CachedWasPut(max, before, op.url);
      }
    }
  }

  lemma {:induction false} NoRepeatsFit(s: seq<string>, urls: set<string>)
    requires NoRepeats(s) && forall u :: u in s ==> u in urls
    ensures |s| <= |urls|
  {
    if s != [] {
      var last := |s| - 1;
      assert s[last] in urls && forall i :: 0 <= i < last ==> s[i] in urls;
      assert forall u :: u in s[..last] ==> u in urls - {s[last]};
      NoRepeatsFit(s[..last], urls - {s[last]});
    }
  }

  /** With room for every url that was put, and without expiry, each of them is cached. */
  lemma RoomKeepsAll(max: nat, ops: seq<Op>, url: string)
    requires NoExpiry(max, ops) && |PutUrls(ops)| <= max && url in PutUrls(ops)
    ensures Has(Run(max, ops), url)
  {
    var d := LastDistinct(Touches(max, ops));
    ListIsLastDistinctUrls(max, ops);
    LastDistinctNoRepeats(Touches(max, ops));
    forall u | u in d
      ensures u in PutUrls(ops)
    {
      LastDistinctMembers(Touches(max, ops), u);
      TouchesAreThePuts(max, ops, u);
    }
    NoRepeatsFit(d, PutUrls(ops));
    TouchesAreThePuts(max, ops, url);
    LastDistinctMembers(Touches(max, ops), url);
    HasIsKey(Run(max, ops), url);
  }

  lemma {:induction false} EarlierTrace(max: nat, ops: seq<Op>, k: nat)
    requires k <= |ops|
    ensures NoExpiry(max, ops) ==> NoExpiry(max, ops[..k])
    ensures PutUrls(ops[..k]) <= PutUrls(ops)
  {
    if k == |ops| {
      assert ops[..k] == ops;
    } else {
      EarlierTrace(max, ops[..|ops| - 1], k);
      assert ops[..|ops| - 1][..k] == ops[..k];
    }
  }

  // ------------------------------------------------------------------ the code as written

  /** A trace of the code as written, while it is defined: its `put` has the loop that never stops. */
  function RunAsWritten(max: nat, ops: seq<Op>): Option<Cache> {
    if ops == [] then Some([])
    else
      match RunAsWritten(max, ops[..|ops| - 1])
      case None => None
      case Some(c) => DoAsWritten(max, c, ops[|ops| - 1])
  }

  function DoAsWritten(max: nat, c: Cache, op: Op): Option<Cache> {
    if op.PutOp? then PutAsWritten(c, max, op.url, op.content, op.now) else Some(Do(max, c, op))
  }

  lemma {:induction false} AllAmong(urls: set<string>, s: seq<string>)
    requires forall u :: u in urls ==> u in s
    ensures |urls| <= |s|
  {
    if s != [] {
      var last := |s| - 1;
      forall u | u in urls - {s[last]}
        ensures u in s[..last]
      {
        var i :| 0 <= i < |s| && s[i] == u;
        assert s[..last][i] == u;
      }
      AllAmong(urls - {s[last]}, s[..last]);
    }
  }

  /** With room for every url that was put, and without expiry, the cache holds as many items. */
  lemma RoomIsExact(max: nat, ops: seq<Op>)
    requires NoExpiry(max, ops) && |PutUrls(ops)| <= max
    ensures |Run(max, ops)| == |PutUrls(ops)|
  {
    var keys := Keys(Run(max, ops));
    RunIsDistinct(max, ops);
    forall u
      ensures u in keys <==> u in PutUrls(ops)
    {
      HasIsKey(Run(max, ops), u);
      if u in keys {
        CachedWasPut(max, ops, u);
      }
      if u in PutUrls(ops) {
        RoomKeepsAll(max, ops, u);
      }
    }
    NoRepeatsFit(keys, PutUrls(ops));
    AllAmong(PutUrls(ops), keys);
  }

  /** One more operation of the code as written, on a cache with room so far. */
  lemma OneAsWritten(max: nat, before: seq<Op>, op: Op)
    requires NoExpiry(max, before) && |PutUrls(before)| <= max
    ensures var c := DoAsWritten(max, Run(max, before), op);
      (c.Some? <==> (op.PutOp? ==> |PutUrls(before) + {op.url}| <= max)) && (c.Some? ==> c.value == Do(max, Run(max, before), op))
  {
    var c := Run(max, before);
    if op.PutOp? {
      PutAsWrittenIffNoEviction(c, max, op.url, op.content, op.now);
      RoomIsExact(max, before);
      if op.url in PutUrls(before) {
        RoomKeepsAll(max, before, op.url);
        assert PutUrls(before) + {op.url} == PutUrls(before);
      } else if Has(c, op.url) {
        CachedWasPut(max, before, op.url);
      }
    }
  }

  /** Without expiry a trace of the code as written is defined if and only if there is room for
      every url that is put, and then it leaves what the counted loop leaves. */
  lemma {:induction false} TraceAsWrittenIffRoom(max: nat, ops: seq<Op>)
    requires NoExpiry(max, ops)
    ensures RunAsWritten(max, ops).Some? <==> |PutUrls(ops)| <= max
    ensures RunAsWritten(max, ops).Some? ==> RunAsWritten(max, ops).value == Run(max, ops)
  {
    if ops != [] {
      var before, op := ops[..|ops| - 1], ops[|ops| - 1];
      TraceAsWrittenIffRoom(max, before);
      MorePuts(before, op);
      if |PutUrls(before)| <= max {
        OneAsWritten(max, before, op);
      }
    }
  }

  lemma MorePuts(before: seq<Op>, op: Op)
    ensures PutUrls(before + [op]) == PutUrls(before) + (if op.PutOp? then {op.url} else {})
    ensures |PutUrls(before)| <= |PutUrls(before + [op])|
  {
    assert (before + [op])[..|before|] == before;
    if op.PutOp? && op.url in PutUrls(before) {
      assert PutUrls(before) + {op.url} == PutUrls(before);
    }
  }

  // ------------------------------------------------------------------ caches of different capacity

  ghost function Urls(c: Cache): set<string> {
    set x | x in c :: x.url
  }

  /** The items of `c` whose url is in `keep`, in order. */
  ghost function Only(c: Cache, keep: set<string>): Cache {
    if c == [] then []
    else if c[0].url in keep then [c[0]] + Only(c[1..], keep)
    else Only(c[1..], keep)
  }

  /** `a` is obtained from `b` by leaving items out. */
  ghost predicate Subsequence(a: Cache, b: Cache) {
    a == [] || (b != [] && ((a[0] == b[0] && Subsequence(a[1..], b[1..])) || Subsequence(a, b[1..])))
  }

  lemma {:induction false} OnlyIsSubsequence(c: Cache, keep: set<string>)
    ensures Subsequence(Only(c, keep), c)
  {
    if c != [] {
      OnlyIsSubsequence(c[1..], keep);
      assert c[0].url in keep ==> Only(c, keep)[1..] == Only(c[1..], keep);
    }
  }

  lemma {:induction false} SubsequenceMembers(a: Cache, b: Cache, x: Item)
    requires Subsequence(a, b) && x in a
    ensures x in b
    decreases |b|
  {
    if a[0] == b[0] && Subsequence(a[1..], b[1..]) {
      if x != a[0] {
        SubsequenceMembers(a[1..], b[1..], x);
      }
    } else {
      SubsequenceMembers(a, b[1..], x);
    }
  }

  lemma {:induction false} OnlyConcat(a: Cache, b: Cache, keep: set<string>)
    ensures Only(a + b, keep) == Only(a, keep) + Only(b, keep)
  {
    if a == [] {
      assert a + b == b;
    } else {
      assert (a + b)[1..] == a[1..] + b;
      OnlyConcat(a[1..], b, keep);
    }
  }

  lemma {:induction false} OnlyMembers(c: Cache, keep: set<string>, x: Item)
    ensures x in Only(c, keep) <==> x in c && x.url in keep
  {
    if c != [] {
      OnlyMembers(c[1..], keep, x);
    }
  }

  lemma {:induction false} OnlySame(c: Cache, keep: set<string>, other: set<string>)
    requires forall x :: x in c ==> (x.url in keep <==> x.url in other)
    ensures Only(c, keep) == Only(c, other)
  {
    if c != [] {
      OnlySame(c[1..], keep, other);
    }
  }

  lemma {:induction false} OnlyLength(c: Cache, keep: set<string>)
    ensures |Only(c, keep)| <= |c|
    ensures |Only(c, keep)| == |c| ==> Only(c, keep) == c
  {
    if c != [] {
      OnlyLength(c[1..], keep);
    }
  }

  lemma {:induction false} OnlyWithout(c: Cache, keep: set<string>, url: string)
    requires url in keep
    ensures Without(Only(c, keep), url) == Only(Without(c, url), keep)
  {
    if c != [] {
      OnlyWithout(c[1..], keep, url);
      if c[0].url != url {
        assert ([c[0]] + Without(c[1..], url))[1..] == Without(c[1..], url);
        assert ([c[0]] + Only(c[1..], keep))[1..] == Only(c[1..], keep);
      } else {
        assert Only(c, keep)[1..] == Only(c[1..], keep);
      }
    }
  }

  lemma {:induction false} OnlyDropsHead(c: Cache, keep: set<string>)
    requires Distinct(c) && Only(c, keep) != []
    ensures var h := Only(c, keep)[0]; h in c && Only(c, keep)[1..] == Only(c, keep - {h.url})
  {
    var h := Only(c, keep)[0];
    if c[0].url in keep {
      assert h == c[0] && Only(c, keep)[1..] == Only(c[1..], keep);
      forall x | x in c[1..]
        ensures x.url != h.url
      {
        var i :| 0 <= i < |c[1..]| && c[1..][i] == x;
        assert c[i + 1] == x;
      }
      OnlySame(c[1..], keep, keep - {h.url});
    } else {
      OnlyDropsHead(c[1..], keep);
    }
  }

  /** The smaller cache is the larger one restricted to its own urls, and it is full unless
      it holds as much as the larger. */
  ghost predicate Included(small: Cache, large: Cache, k: nat) {
    Distinct(small) && Distinct(large) && |small| <= k &&
    small == Only(large, Urls(small)) && (|small| == k || |small| == |large|)
  }

  /** Evicting the oldest item of a restriction. */
  lemma EvictHead(small: Cache, large: Cache)
    requires Distinct(small) && Distinct(large) && small != [] && small == Only(large, Urls(small))
    ensures small[1..] == Only(large, Urls(small[1..]))
  {
    OnlyDropsHead(large, Urls(small));
    var h := small[0];
    assert small == [h] + small[1..];
    LaterUrlsDiffer(small);
    assert Urls(small[1..]) == Urls(small) - {h.url};
  }

  /** If the larger cache loses its oldest item as well, the restriction does not notice. */
  lemma EvictBothHeads(small: Cache, large: Cache)
    requires Distinct(small) && Distinct(large) && small != [] && small == Only(large, Urls(small))
    ensures large != [] && small[1..] == Only(large[1..], Urls(small[1..]))
  {
    EvictHead(small, large);
    OnlyLength(large, Urls(small));
    LaterUrlsDiffer(small);
    assert large[0].url in Urls(small) ==> small[0] == large[0];
    assert Urls(small[1..]) <= Urls(small);
    assert large[0].url !in Urls(small[1..]);
  }

  lemma LaterUrlsDiffer(c: Cache)
    requires Distinct(c) && c != []
    ensures c[0].url !in Urls(c[1..])
  {
    forall x | x in c[1..]
      ensures x.url != c[0].url
    {
      var i :| 0 <= i < |c[1..]| && c[1..][i] == x;
      assert c[i + 1] == x;
    }
  }

  lemma AppendToBoth(small: Cache, large: Cache, x: Item)
    requires small == Only(large, Urls(small)) && !Has(large, x.url)
    ensures small + [x] == Only(large + [x], Urls(small + [x]))
  {
    assert Urls(small + [x]) == Urls(small) + {x.url} by {
      forall u
        ensures u in Urls(small + [x]) <==> u in Urls(small) + {x.url}
      {
        if u in Urls(small) {
          var y :| y in small && y.url == u;
          assert y in small + [x];
        }
        assert x in small + [x];
      }
    }
    OnlyConcat(large, [x], Urls(small + [x]));
    OnlySame(large, Urls(small), Urls(small + [x]));
    assert Only([x], Urls(small + [x])) == [x] by {
      assert [x][1..] == [];
    }
  }

  /** Removing a url that only the larger cache need hold, and appending it to both. */
  lemma MoveInBoth(small: Cache, large: Cache, x: Item)
    requires Distinct(small) && Distinct(large) && small == Only(large, Urls(small))
    ensures Without(small, x.url) + [x] == Only(Without(large, x.url) + [x], Urls(Without(small, x.url) + [x]))
  {
    WithoutKeeps(small, x.url);
    WithoutKeeps(large, x.url);
    WithoutLength(small, x.url);
    var s, l := Without(small, x.url), Without(large, x.url);
    assert s == Only(l, Urls(s)) by {
      if x.url !in Urls(small) {
        assert s == small;
        OnlySkips(large, Urls(small), x.url);
      } else {
        OnlyWithout(large, Urls(small), x.url);
        OnlySame(l, Urls(small), Urls(s));
      }
    }
    AppendToBoth(s, l, x);
  }

  lemma {:induction false} OnlySkips(c: Cache, keep: set<string>, url: string)
    requires url !in keep
    ensures Only(Without(c, url), keep) == Only(c, keep)
  {
    if c != [] && c[0].url != url {
      OnlySkips(c[1..], keep, url);
      assert ([c[0]] + Without(c[1..], url))[1..] == Without(c[1..], url);
    }
  }

  lemma SmallerHasLess(small: Cache, large: Cache, url: string)
    requires small == Only(large, Urls(small)) && Has(small, url)
    ensures Has(large, url)
  {
    var x :| x in small && x.url == url;
    OnlyMembers(large, Urls(small), x);
  }

  /** Moving or appending a url in both caches, before either evicts. */
  lemma AppendKeepsOnly(small: Cache, large: Cache, k: nat, x: Item)
    requires Included(small, large, k)
    ensures var s, l := Without(small, x.url) + [x], Without(large, x.url) + [x];
      Distinct(s) && Distinct(l) && s == Only(l, Urls(s))
    ensures Has(small, x.url) ==> Has(large, x.url)
    ensures |small| < k && !Has(small, x.url) ==> !Has(large, x.url)
  {
    WithoutKeeps(small, x.url);
    WithoutKeeps(large, x.url);
    MoveInBoth(small, large, x);
    DistinctCons(x, Without(small, x.url));
    DistinctCons(x, Without(large, x.url));
    if Has(small, x.url) {
      SmallerHasLess(small, large, x.url);
    }
    OnlyLength(large, Urls(small));
  }

  lemma PutOf(c: Cache, max: nat, url: string, content: string, now: nat)
    requires |c| <= max
    ensures var d := Without(c, url) + [Item(url, content, now)];
      Put(c, max, url, content, now) == if |d| <= max then d else d[1..]
  {
    WithoutLength(c, url);
    var d := Without(c, url) + [Item(url, content, now)];
    assert |d| == |Without(c, url)| + 1;
    assert |d| > max ==> |d| - max == 1;
  }

  lemma PutKeepsIncluded(small: Cache, large: Cache, k: nat, K: nat, url: string, content: string, now: nat)
    requires Included(small, large, k) && k <= K && |large| <= K
    ensures Included(Put(small, k, url, content, now), Put(large, K, url, content, now), k)
  {
    var x := Item(url, content, now);
    var s, l := Without(small, url) + [x], Without(large, url) + [x];
    AppendKeepsOnly(small, large, k, x);
    WithoutLength(small, url);
    WithoutLength(large, url);
    PutOf(small, k, url, content, now);
    PutOf(large, K, url, content, now);
    if |s| > k {
      EvictHead(s, l);
      EvictBothHeads(s, l);
    }
  }

  lemma TouchKeepsIncluded(small: Cache, large: Cache, k: nat, url: string, now: nat)
    requires Included(small, large, k) && (Has(large, url) ==> !Expired(now, Find(large, url).time))
    ensures Included(Touch(small, url, now), Touch(large, url, now), k)
    ensures Hits(small, url, now) ==> Hits(large, url, now) && Lookup(large, url, now) == Lookup(small, url, now)
  {
    OperationsKeepDistinct(small, k, url, "", now);
    OperationsKeepDistinct(large, |large|, url, "", now);
    WithoutKeeps(small, url);
    WithoutKeeps(large, url);
    if Has(small, url) {
      OnlyMembers(large, Urls(small), Find(small, url));
      FindIsUnique(large, Find(small, url));
      MoveInBoth(small, large, Find(small, url));
    } else if Has(large, url) {
      var x := Find(large, url);
      OnlySkips(large, Urls(small), url);
      OnlyConcat(Without(large, url), [x], Urls(small));
      assert Only([x], Urls(small)) == [] by {
        assert [x][1..] == [];
      }
    }
  }

  lemma {:induction false} OnlyCopied(c: Cache, keep: set<string>, now: nat)
    ensures Only(Copied(c, now), keep) == Copied(Only(c, keep), now)
  {
    if c != [] {
      OnlyCopied(c[1..], keep, now);
      assert Copied(c, now) == [c[0].(time := now)] + Copied(c[1..], now);
      assert Copied(c, now)[1..] == Copied(c[1..], now);
      if c[0].url in keep {
        assert Copied([c[0]] + Only(c[1..], keep), now) == [c[0].(time := now)] + Copied(Only(c[1..], keep), now);
      }
    }
  }

  lemma CopiedUrls(c: Cache, now: nat)
    ensures Urls(Copied(c, now)) == Urls(c)
  {
    forall u
      ensures u in Urls(Copied(c, now)) <==> u in Urls(c)
    {
      if u in Urls(c) {
        var x :| x in c && x.url == u;
        var i :| 0 <= i < |c| && c[i] == x;
        assert Copied(c, now)[i] in Copied(c, now);
      }
      if u in Urls(Copied(c, now)) {
        var x :| x in Copied(c, now) && x.url == u;
        var i :| 0 <= i < |c| && Copied(c, now)[i] == x;
        assert c[i] in c;
      }
    }
  }

  lemma CopyKeepsIncluded(small: Cache, large: Cache, k: nat, now: nat)
    requires Included(small, large, k)
    ensures Included(Copied(small, now), Copied(large, now), k)
  {
    OnlyCopied(large, Urls(small), now);
    CopiedUrls(small, now);
  }

  lemma {:induction false} RunsAreIncluded(k: nat, K: nat, ops: seq<Op>)
    requires k <= K && NoExpiry(K, ops)
    ensures Included(Run(k, ops), Run(K, ops), k)
  {
    if ops != [] {
      var before := ops[..|ops| - 1];
      var op := ops[|ops| - 1];
      RunsAreIncluded(k, K, before);
      RunIsDistinct(K, before);
      match op
      case PutOp(url, content, now) =>
        PutKeepsIncluded(Run(k, before), Run(K, before), k, K, url, content, now);
      case GetOp(url, now) =>
        TouchKeepsIncluded(Run(k, before), Run(K, before), k, url, now);
      case CopyOp(now) =>
        CopyKeepsIncluded(Run(k, before), Run(K, before), k, now);
    }
  }

  /** Driven by the same trace without expiry, a cache is at every point a subsequence of any
      larger one, so every hit of the smaller is a hit of the larger with the same content. */
  lemma LargerCacheHitsMore(k: nat, K: nat, ops: seq<Op>, url: string, now: nat)
    requires k <= K && NoExpiry(K, ops + [GetOp(url, now)])
    ensures Subsequence(Run(k, ops), Run(K, ops))
    ensures Hits(Run(k, ops), url, now) ==>
      Hits(Run(K, ops), url, now) && Lookup(Run(K, ops), url, now) == Lookup(Run(k, ops), url, now)
  {
    var longer := ops + [GetOp(url, now)];
    assert longer[..|longer| - 1] == ops;
    RunsAreIncluded(k, K, ops);
    OnlyIsSubsequence(Run(K, ops), Urls(Run(k, ops)));
    TouchKeepsIncluded(Run(k, ops), Run(K, ops), k, url, now);
  }
}
