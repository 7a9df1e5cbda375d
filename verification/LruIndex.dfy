/** The Lru class of cache/LRU.h: a list of entries, and a map from url to a time and the
    position of its entry. List nodes keep their identity when they are spliced, so a position
    is the identity of a node and stays valid until the node is erased. */
module LruIndex {
  import opened RecencyCache

  datatype Entry = Entry(id: nat, url: string, content: string)

  datatype Node = Node(time: nat, position: nat)

  /** A list node's url leads back to it through the map. */
  ghost predicate NodeOk(list: seq<Entry>, index: map<string, Node>, nextId: nat, i: nat)
    requires i < |list|
  {
    list[i].id < nextId && list[i].url in index && index[list[i].url].position == list[i].id
  }

  ghost predicate Listed(list: seq<Entry>, url: string) {
    exists i :: 0 <= i < |list| && list[i].url == url
  }

  ghost predicate DistinctIds(list: seq<Entry>) {
    forall i, j :: 0 <= i < j < |list| ==> list[i].id != list[j].id
  }

  /** Positions and list nodes correspond one to one. */
  ghost predicate Agree(list: seq<Entry>, index: map<string, Node>, nextId: nat) {
    (forall i :: 0 <= i < |list| ==> NodeOk(list, index, nextId, i)) && DistinctIds(list) &&
    (forall url :: url in index ==> Listed(list, url))
  }

  /** What the pair of structures stands for. */
  ghost function Contents(list: seq<Entry>, index: map<string, Node>): Cache {
    seq(|list|, i requires 0 <= i < |list| =>
      Item(list[i].url, list[i].content, if list[i].url in index then index[list[i].url].time else 0))
  }

  lemma UrlsDiffer(list: seq<Entry>, index: map<string, Node>, nextId: nat, i: nat, j: nat)
    requires i < |list| && j < |list| && i != j && DistinctIds(list)
    requires NodeOk(list, index, nextId, i) && NodeOk(list, index, nextId, j)
    ensures list[i].url != list[j].url
  {
  }

  lemma AgreeMeansDistinct(list: seq<Entry>, index: map<string, Node>, nextId: nat)
    requires Agree(list, index, nextId)
    ensures Distinct(Contents(list, index))
  {
    forall i, j | 0 <= i < j < |list|
      ensures list[i].url != list[j].url
    {
      UrlsDiffer(list, index, nextId, i, j);
    }
  }

  lemma MappedIffCached(list: seq<Entry>, index: map<string, Node>, nextId: nat, url: string)
    requires Agree(list, index, nextId)
    ensures url in index <==> Has(Contents(list, index), url)
  {
    var c := Contents(list, index);
    if url in index {
      assert Listed(list, url);
      var i :| 0 <= i < |list| && list[i].url == url;
      assert c[i] in c;
    }
    if Has(c, url) {
      var x :| x in c && x.url == url;
      var i :| 0 <= i < |c| && c[i] == x;
      assert NodeOk(list, index, nextId, i);
    }
  }

  /** `kept` lists nodes of `list`, each at most once; `from[k]` is where its k-th one was. */
  ghost predicate Picks(list: seq<Entry>, kept: seq<Entry>, from: seq<nat>) {
    |from| == |kept| &&
    (forall k :: 0 <= k < |from| ==> from[k] < |list| && kept[k] == list[from[k]]) &&
    (forall j, k :: 0 <= j < k < |from| ==> from[j] != from[k])
  }

  lemma PickingKeepsIds(list: seq<Entry>, kept: seq<Entry>, from: seq<nat>)
    requires DistinctIds(list) && Picks(list, kept, from)
    ensures DistinctIds(kept)
  {
    forall j, k | 0 <= j < k < |kept|
      ensures kept[j].id != kept[k].id
    {
      assert kept[j] == list[from[j]] && kept[k] == list[from[k]] && from[j] != from[k];
    }
  }

  /** Dereferencing a position: where the node is in the list. */
  function Locate(list: seq<Entry>, id: nat): (i: nat)
    requires exists k :: 0 <= k < |list| && list[k].id == id
    ensures i < |list| && list[i].id == id
  {
    if list[0].id == id then 0
    else
      assert exists k :: 0 <= k < |list[1..]| && list[1..][k].id == id by {
        var k :| 0 <= k < |list| && list[k].id == id;
        assert list[1..][k - 1].id == id;
      }
      1 + Locate(list[1..], id)
  }

  lemma SameNode(list: seq<Entry>, i: nat, k: nat)
    requires DistinctIds(list) && i < |list| && k < |list| && list[i].id == list[k].id
    ensures i == k
  {
  }

  /** `list_.splice(list_.end(), list_, position)`. */
  function Splice(list: seq<Entry>, i: nat): seq<Entry>
    requires i < |list|
  {
    list[..i] + list[i + 1..] + [list[i]]
  }

  class Lru {
    const maxSize: nat
    var list: seq<Entry>
    var index: map<string, Node>
    var nextId: nat

    ghost predicate Valid()
      reads this
    {
      Agree(list, index, nextId)
    }

    ghost function View(): Cache
      requires Valid()
      reads this
    {
      Contents(list, index)
    }

    constructor (maxSize: nat)
      ensures Valid() && this.maxSize == maxSize && View() == []
    {
      this.maxSize := maxSize;
      list, index, nextId := [], map[], 0;
    }

    /** The copy constructor: copy the list, then walk it and rebuild the map. */
    constructor Copy(lru: Lru, now: nat)
      requires lru.Valid()
      ensures Valid() && maxSize == lru.maxSize && View() == Copied(lru.View(), now)
    {
      maxSize, list, index, nextId := lru.maxSize, lru.list, map[], lru.nextId;
      new;
      ghost var original := lru.index;
      assert Agree(list, original, nextId);
      var it := 0;
      while it < |list|
        invariant 0 <= it <= |list| && list == lru.list && nextId == lru.nextId && Agree(list, original, nextId)
        invariant lru.index == original
        invariant forall url :: url in index ==> Listed(list, url)
        invariant forall i :: 0 <= i < it ==> list[i].url in index && index[list[i].url] == Node(now, list[i].id)
        modifies this
      {
        forall i | 0 <= i < it
          ensures list[i].url != list[it].url
        {
          assert NodeOk(list, original, nextId, i) && NodeOk(list, original, nextId, it);
          UrlsDiffer(list, original, nextId, i, it);
        }
        index := index[list[it].url := Node(now, list[it].id)];
        it := it + 1;
      }
      forall i | 0 <= i < |list|
        ensures NodeOk(list, index, nextId, i)
      {
        assert NodeOk(list, original, nextId, i);
      }
      assert View() == Copied(lru.View(), now);
    }

    method Erase(url: string)
      requires Valid()
      modifies this`list, this`index
      ensures Valid() && View() == Without(old(View()), url)
    {
      AgreeMeansDistinct(list, index, nextId);
      MappedIffCached(list, index, nextId, url);
      if url !in index {
        WithoutLength(View(), url);
        return;
      }
      var i := Position(url);
      WithoutAt(View(), i);
      list := list[..i] + list[i + 1..];
      index := index - {url};
      EraseAgrees(old(list), old(index), nextId, i);
    }

    /** `map_[url].position`, dereferenced. */
    method Position(url: string) returns (i: nat)
      requires Valid() && url in index
      ensures i < |list| && list[i].url == url
    {
      assert Listed(list, url);
      ghost var k :| 0 <= k < |list| && list[k].url == url;
      assert NodeOk(list, index, nextId, k);
      i := Locate(list, index[url].position);
      SameNode(list, i, k);
    }

    method Get(url: string, now: nat) returns (content: string)
      requires Valid()
      modifies this`list, this`index
      ensures Valid() && View() == Touch(old(View()), url, now) && content == Lookup(old(View()), url, now)
      ensures now < 0x1_0000_0000_0000_0000 ==> GotFrom(old(View()), url, now, content, View())
    {
      AgreeMeansDistinct(list, index, nextId);
      ghost var before := View();
      content := Fetch(url, now);
      if now < 0x1_0000_0000_0000_0000 {
        GetLaw(before, url, now);
      }
    }

    /** The steps of `get`. */
    method Fetch(url: string, now: nat) returns (content: string)
      requires Valid()
      modifies this`list, this`index
      ensures Valid() && View() == Touch(old(View()), url, now) && content == Lookup(old(View()), url, now)
    {
      AgreeMeansDistinct(list, index, nextId);
      MappedIffCached(list, index, nextId, url);
      if url !in index {
        return "";
      }
      var i := Position(url);
      assert NodeOk(list, index, nextId, i);
      WithoutAt(View(), i);
      if Elapsed(now, index[url].time) > EXPIRED_TIME {
        Erase(url);
        return "";
      }
      SpliceAgrees(list, index, nextId, i);
      list := Splice(list, i);
      content := list[|list| - 1].content;
    }

    /** The branch of `put` for a url that is in the map. */
    method Overwrite(url: string, content: string, now: nat)
      requires Valid() && url in index
      modifies this`list, this`index
      ensures Valid() && View() == Without(old(View()), url) + [Item(url, content, now)]
    {
      AgreeMeansDistinct(list, index, nextId);
      var i := Position(url);
      WithoutAt(View(), i);
      UpdateAgrees(list, index, nextId, i, content, now);
      list := list[i := list[i].(content := content)];
      index := index[url := index[url].(time := now)];
      list := Splice(list, i);
    }

    /** `push_back` and the two map writes. */
    method PushBack(url: string, content: string, now: nat)
      requires Valid() && url !in index
      modifies this`list, this`index, this`nextId
      ensures Valid() && View() == old(View()) + [Item(url, content, now)]
    {
      PushAgrees(list, index, nextId, url, content, now);
      list := list + [Entry(nextId, url, content)];
      index := index[url := Node(now, nextId)];
      nextId := nextId + 1;
    }

    /** One turn of the eviction loop. */
    method PopFront()
      requires Valid() && list != []
      modifies this`list, this`index
      ensures Valid() && View() == old(View())[1..] && |list| == |old(list)| - 1
    {
      EraseAgrees(list, index, nextId, 0);
      assert list[..0] + list[0 + 1..] == list[1..];
      assert View()[..0] + View()[0 + 1..] == View()[1..];
      index := index - {list[0].url};
      list := list[1..];
    }

    /** The eviction loop, counting down. */
    method EvictOldest()
      requires Valid()
      modifies this`list, this`index
      ensures Valid() && View() == Evict(old(View()), maxSize)
    {
      ghost var pushed := View();
      var sizeNow := |list|;
      while sizeNow > maxSize
        invariant Valid() && sizeNow == |list| <= |pushed|
        invariant sizeNow == |pushed| || sizeNow >= maxSize
        invariant View() == pushed[|pushed| - sizeNow..]
      {
        PopFront();
        sizeNow := sizeNow - 1;
      }
    }

    /** `put` with the eviction loop counting down. */
    method Put(url: string, content: string, now: nat)
      requires Valid()
      modifies this`list, this`index, this`nextId
      ensures Valid() && View() == RecencyCache.Put(old(View()), maxSize, url, content, now)
    {
      MappedIffCached(list, index, nextId, url);
      if url !in index {
        PushBack(url, content, now);
        EvictOldest();
        return;
      }
      Overwrite(url, content, now);
    }

    /** `put` as written: the loop test never changes, so once it is entered the list is
        emptied, and the next turn would dereference `begin()` of an empty list. */
    method PutAsWritten(url: string, content: string, now: nat) returns (defined: bool)
      requires Valid()
      modifies this`list, this`index, this`nextId
      ensures Valid() && defined == RecencyCache.PutAsWritten(old(View()), maxSize, url, content, now).Some?
      ensures defined ==> View() == RecencyCache.PutAsWritten(old(View()), maxSize, url, content, now).value
      ensures !defined ==> View() == []
    {
      MappedIffCached(list, index, nextId, url);
      if url !in index {
        PushBack(url, content, now);
        var sizeNow := |list|;
        ghost var pushed := View();
        while sizeNow > maxSize
          invariant Valid() && sizeNow == |pushed|
          invariant EvictAsWritten(View(), sizeNow, maxSize) == EvictAsWritten(pushed, sizeNow, maxSize)
          decreases |list|
        {
          if list == [] {
            return false;
          }
          PopFront();
        }
        return true;
      }
      Overwrite(url, content, now);
      defined := true;
    }
  }

  function Skip(i: nat, k: nat): nat {
    if k < i then k else k + 1
  }

  lemma ErasedNodes(list: seq<Entry>, index: map<string, Node>, nextId: nat, i: nat)
    requires Agree(list, index, nextId) && i < |list|
    ensures var rest := list[..i] + list[i + 1..];
      DistinctIds(rest) && forall k :: 0 <= k < |rest| ==> NodeOk(rest, index - {list[i].url}, nextId, k)
  {
    var rest := list[..i] + list[i + 1..];
    var from: seq<nat> := seq(|rest|, k requires 0 <= k < |rest| => Skip(i, k));
    PickingKeepsIds(list, rest, from);
    forall k | 0 <= k < |rest|
      ensures NodeOk(rest, index - {list[i].url}, nextId, k)
    {
      assert rest[k] == list[from[k]];
      assert NodeOk(list, index, nextId, from[k]) && NodeOk(list, index, nextId, i);
      UrlsDiffer(list, index, nextId, from[k], i);
    }
  }

  lemma ErasedContents(list: seq<Entry>, index: map<string, Node>, nextId: nat, i: nat)
    requires Agree(list, index, nextId) && i < |list|
    ensures Contents(list[..i] + list[i + 1..], index - {list[i].url}) ==
      Contents(list, index)[..i] + Contents(list, index)[i + 1..]
  {
    var rest := list[..i] + list[i + 1..];
    ErasedNodes(list, index, nextId, i);
    forall k | 0 <= k < |rest|
      ensures Contents(rest, index - {list[i].url})[k] == Contents(list, index)[Skip(i, k)]
    {
      assert NodeOk(rest, index - {list[i].url}, nextId, k) && rest[k] == list[Skip(i, k)];
    }
  }

  lemma EraseAgrees(list: seq<Entry>, index: map<string, Node>, nextId: nat, i: nat)
    requires Agree(list, index, nextId) && i < |list|
    ensures var rest := list[..i] + list[i + 1..];
      Agree(rest, index - {list[i].url}, nextId) &&
      Contents(rest, index - {list[i].url}) == Contents(list, index)[..i] + Contents(list, index)[i + 1..]
  {
    var rest := list[..i] + list[i + 1..];
    ErasedNodes(list, index, nextId, i);
    ErasedContents(list, index, nextId, i);
    forall url | url in index - {list[i].url}
      ensures Listed(rest, url)
    {
      assert Listed(list, url);
      var k :| 0 <= k < |list| && list[k].url == url;
      assert rest[if k < i then k else k - 1].url == url;
    }
  }

  /** Where the k-th node of a spliced list was. */
  function SplicedFrom(n: nat, i: nat): (from: seq<nat>)
    requires i < n
    ensures |from| == n && forall j, k :: 0 <= j < k < n ==> from[j] != from[k]
  {
    seq(n, k => if k < i then k else if k < n - 1 then k + 1 else i)
  }

  lemma SpliceMoves<T>(xs: seq<T>, i: nat)
    requires i < |xs|
    ensures var ys := xs[..i] + xs[i + 1..] + [xs[i]];
      |ys| == |xs| && forall k :: 0 <= k < |xs| ==> SplicedFrom(|xs|, i)[k] < |xs| && ys[k] == xs[SplicedFrom(|xs|, i)[k]]
  {
  }

  lemma SpliceAgrees(list: seq<Entry>, index: map<string, Node>, nextId: nat, i: nat)
    requires Agree(list, index, nextId) && i < |list|
    ensures var moved := Splice(list, i);
      Agree(moved, index, nextId) &&
      Contents(moved, index) == Contents(list, index)[..i] + Contents(list, index)[i + 1..] + [Contents(list, index)[i]]
  {
    var moved := Splice(list, i);
    var from := SplicedFrom(|list|, i);
    SpliceMoves(list, i);
    SpliceMoves(Contents(list, index), i);
    PickingKeepsIds(list, moved, from);
    forall k | 0 <= k < |moved|
      ensures NodeOk(moved, index, nextId, k)
    {
      assert moved[k] == list[from[k]];
      assert NodeOk(list, index, nextId, from[k]);
    }
    forall url | url in index
      ensures Listed(moved, url)
    {
      assert Listed(list, url);
      var k :| 0 <= k < |list| && list[k].url == url;
      assert moved[if k < i then k else if k == i then |list| - 1 else k - 1].url == url;
    }
  }

  lemma PushAgrees(list: seq<Entry>, index: map<string, Node>, nextId: nat, url: string, content: string, now: nat)
    requires Agree(list, index, nextId) && url !in index
    ensures var longer := list + [Entry(nextId, url, content)];
      var more := index[url := Node(now, nextId)];
      Agree(longer, more, nextId + 1) &&
      Contents(longer, more) == Contents(list, index) + [Item(url, content, now)]
  {
    var longer := list + [Entry(nextId, url, content)];
    var more := index[url := Node(now, nextId)];
    forall k | 0 <= k < |list|
      ensures list[k].id < nextId && NodeOk(longer, more, nextId + 1, k)
    {
      assert NodeOk(list, index, nextId, k);
    }
    forall u | u in more
      ensures Listed(longer, u)
    {
      if u == url {
        assert longer[|list|].url == u;
      } else {
        assert Listed(list, u);
        var k :| 0 <= k < |list| && list[k].url == u;
        assert longer[k].url == u;
      }
    }
    forall k | 0 <= k < |list|
      ensures Contents(longer, more)[k] == Contents(list, index)[k]
    {
      assert NodeOk(list, index, nextId, k);
    }
  }

  lemma RestampAgrees(list: seq<Entry>, index: map<string, Node>, nextId: nat, i: nat, content: string, now: nat)
    requires Agree(list, index, nextId) && i < |list|
    ensures var written := list[i := list[i].(content := content)];
      list[i].url in index &&
      var restamped := index[list[i].url := index[list[i].url].(time := now)];
      Agree(written, restamped, nextId) &&
      Contents(written, restamped) == Contents(list, index)[i := Item(list[i].url, content, now)]
  {
    assert NodeOk(list, index, nextId, i);
    var written := list[i := list[i].(content := content)];
    var restamped := index[list[i].url := index[list[i].url].(time := now)];
    forall k | 0 <= k < |list|
      ensures NodeOk(written, restamped, nextId, k)
      ensures k != i ==> Contents(written, restamped)[k] == Contents(list, index)[k]
    {
      assert NodeOk(list, index, nextId, k);
      if k != i {
        UrlsDiffer(list, index, nextId, k, i);
      }
    }
    forall url | url in restamped
      ensures Listed(written, url)
    {
      assert Listed(list, url);
      var k :| 0 <= k < |list| && list[k].url == url;
      assert written[k].url == url;
    }
  }

  /** Overwrite a node's content and time, then splice it to the end. */
  lemma UpdateAgrees(list: seq<Entry>, index: map<string, Node>, nextId: nat, i: nat, content: string, now: nat)
    requires Agree(list, index, nextId) && i < |list|
    ensures list[i].url in index &&
      var updated := Splice(list[i := list[i].(content := content)], i);
      var restamped := index[list[i].url := index[list[i].url].(time := now)];
      Agree(updated, restamped, nextId) &&
      Contents(updated, restamped) ==
        Contents(list, index)[..i] + Contents(list, index)[i + 1..] + [Item(list[i].url, content, now)]
  {
    RestampAgrees(list, index, nextId, i, content, now);
    SpliceAgrees(list[i := list[i].(content := content)],
                 index[list[i].url := index[list[i].url].(time := now)], nextId, i);
  }
}
