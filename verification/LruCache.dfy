/** The cache of broker/quto/lru_cache.go: a list of nodes, most recent first, and a map into it. */
module LruCache {
  import opened Base

  datatype Entry<K, V> = Entry(key: K, value: V)

  // ---------------------------------------------------------------- the list as a value

  /** The position of a key, or the length. */
  function Rank<K(==), V>(e: seq<Entry<K, V>>, k: K): (i: nat)
    ensures i <= |e|
    ensures forall j :: 0 <= j < i ==> e[j].key != k
    ensures i < |e| ==> e[i].key == k
  {
    if e == [] || e[0].key == k then 0 else 1 + Rank(e[1..], k)
  }

  predicate Has<K(==), V>(e: seq<Entry<K, V>>, k: K) { Rank(e, k) < |e| }

  predicate Distinct<K(==), V>(e: seq<Entry<K, V>>) {
    forall i, j :: 0 <= i < j < |e| ==> e[i].key != e[j].key
  }

  function CutAt<T>(e: seq<T>, i: nat): (r: seq<T>)
    ensures i < |e| ==> |r| == |e| - 1 && forall j :: 0 <= j < |r| ==> r[j] == e[if j < i then j else j + 1]
  {
    if i < |e| then e[..i] + e[i + 1..] else e
  }

  function FrontIndex(i: nat, j: nat): nat { if j == 0 then i else if j <= i then j - 1 else j }

  /** The i-th element moved to the front. */
  function ToFront<T>(e: seq<T>, i: nat): (r: seq<T>)
    requires i < |e|
    ensures |r| == |e| && forall j :: 0 <= j < |r| ==> r[j] == e[FrontIndex(i, j)]
  {
    [e[i]] + CutAt(e, i)
  }

  function Drop<K(==), V>(e: seq<Entry<K, V>>, k: K): seq<Entry<K, V>> { CutAt(e, Rank(e, k)) }

  function AfterSet<K(==), V>(e: seq<Entry<K, V>>, capacity: int, k: K, v: V): seq<Entry<K, V>> {
    var full := [Entry(k, v)] + Drop(e, k);
    if !Has(e, k) && |full| > capacity then full[..|full| - 1] else full
  }

  function AfterGet<K(==), V>(e: seq<Entry<K, V>>, k: K): seq<Entry<K, V>> {
    if Has(e, k) then [e[Rank(e, k)]] + Drop(e, k) else e
  }

  // ---------------------------------------------------------------- the object

  class CacheNode<K, V> {
    const key: K
    var value: V

    constructor (key: K, value: V)
      ensures this.key == key && this.value == value
    {
      this.key, this.value := key, value;
    }
  }

  /** Map and list agree one to one. */
  ghost predicate Agree<K, V>(list: seq<CacheNode<K, V>>, m: map<K, CacheNode<K, V>>) {
    && (forall i :: 0 <= i < |list| ==> list[i].key in m && m[list[i].key] == list[i])
    && (forall i, j :: 0 <= i < j < |list| ==> list[i] != list[j])
    && (forall k :: k in m ==> Listed(list, m[k]) && m[k].key == k)
  }

  ghost predicate Listed<K, V>(list: seq<CacheNode<K, V>>, n: CacheNode<K, V>) {
    exists i :: 0 <= i < |list| && list[i] == n
  }

  lemma FrontDistinctNodes<K, V>(list: seq<CacheNode<K, V>>, i: nat, a: nat, b: nat)
    requires forall x, y :: 0 <= x < y < |list| ==> list[x] != list[y]
    requires i < |list| && a < b < |list|
    ensures ToFront(list, i)[a] != ToFront(list, i)[b]
  {
    var x, y := FrontIndex(i, a), FrontIndex(i, b);
    assert list[if x < y then x else y] != list[if x < y then y else x];
  }

  lemma FrontListed<K, V>(list: seq<CacheNode<K, V>>, i: nat, n: CacheNode<K, V>)
    requires i < |list| && Listed(list, n)
    ensures Listed(ToFront(list, i), n)
  {
    var j :| 0 <= j < |list| && list[j] == n;
    assert ToFront(list, i)[if j == i then 0 else if j < i then j + 1 else j] == n;
  }

  lemma AgreeFront<K, V>(list: seq<CacheNode<K, V>>, m: map<K, CacheNode<K, V>>, i: nat)
    requires Agree(list, m) && i < |list|
    ensures Agree(ToFront(list, i), m)
  {
    var r := ToFront(list, i);
    forall a, b | 0 <= a < b < |r|
      ensures r[a] != r[b]
    {
      FrontDistinctNodes(list, i, a, b);
    }
    forall k | k in m
      ensures Listed(r, m[k])
    {
      FrontListed(list, i, m[k]);
    }
  }

  lemma AgreePush<K, V>(list: seq<CacheNode<K, V>>, m: map<K, CacheNode<K, V>>, n: CacheNode<K, V>)
    requires Agree(list, m) && n.key !in m
    ensures Agree([n] + list, m[n.key := n])
  {
    var r, m' := [n] + list, m[n.key := n];
    forall k | k in m'
      ensures Listed(r, m'[k])
    {
      if k == n.key {
        assert r[0] == n;
      } else {
        var j :| 0 <= j < |list| && list[j] == m[k];
        assert r[j + 1] == m[k];
      }
    }
  }

  lemma AgreeCut<K, V>(list: seq<CacheNode<K, V>>, m: map<K, CacheNode<K, V>>, i: nat)
    requires Agree(list, m) && i < |list|
    ensures Agree(CutAt(list, i), m - {list[i].key})
  {
    var r := CutAt(list, i);
    forall k | k in m - {list[i].key}
      ensures Listed(r, m[k])
    {
      var j :| 0 <= j < |list| && list[j] == m[k];
      assert r[if j < i then j else j - 1] == m[k];
    }
  }

  /** The i-th entry is what the i-th node holds. */
  ghost predicate EntryOk<K, V>(list: seq<CacheNode<K, V>>, entries: seq<Entry<K, V>>, i: nat)
    reads list
  {
    i < |list| ==> i < |entries| && entries[i] == Entry(list[i].key, list[i].value)
  }

  ghost predicate Synced<K, V>(list: seq<CacheNode<K, V>>, entries: seq<Entry<K, V>>)
    reads list
  {
    |entries| == |list| && forall i: nat {:trigger EntryOk(list, entries, i)} :: EntryOk(list, entries, i)
  }

  lemma SyncedFront<K, V>(list: seq<CacheNode<K, V>>, entries: seq<Entry<K, V>>, i: nat)
    requires i < |list| && Synced(list, entries)
    ensures Synced(ToFront(list, i), ToFront(entries, i))
  {
    forall j: nat | j < |list|
      ensures EntryOk(ToFront(list, i), ToFront(entries, i), j)
    {
      assert EntryOk(list, entries, FrontIndex(i, j));
    }
  }

  class Cache<K(==), V> {
    const capacity: int
    var dlist: seq<CacheNode<K, V>>
    var cacheMap: map<K, CacheNode<K, V>>
    ghost var entries: seq<Entry<K, V>>

    ghost predicate Linked()
      reads this, dlist
    {
      Agree(dlist, cacheMap) && Synced(dlist, entries)
    }

    ghost predicate Valid()
      reads this, dlist
    {
      Linked() && (|dlist| == 0 || |dlist| <= capacity)
    }

    constructor (capacity: int)
      ensures Valid() && this.capacity == capacity && entries == []
    {
      this.capacity := capacity;
      dlist, cacheMap, entries := [], map[], [];
    }

    /** Where the map's node for this key sits in the list. */
    method Locate(k: K) returns (i: nat)
      requires Linked() && k in cacheMap
      ensures i < |dlist| && dlist[i] == cacheMap[k] && i == Rank(entries, k)
    {
      i := 0;
      ghost var at :| 0 <= at < |dlist| && dlist[at] == cacheMap[k];
      assert EntryOk(dlist, entries, 0);
      while dlist[i] != cacheMap[k]
        invariant 0 <= i <= at && EntryOk(dlist, entries, i)
        invariant forall j :: 0 <= j < i ==> entries[j].key != k
        decreases at - i
      {
        i := i + 1;
        assert EntryOk(dlist, entries, i);
      }
      RankIs(entries, k, i);
    }

    lemma Hit(k: K)
      requires Linked()
      ensures k in cacheMap <==> Has(entries, k)
    {
      if k in cacheMap {
        var i: nat :| 0 <= i < |dlist| && dlist[i] == cacheMap[k];
        assert EntryOk(dlist, entries, i);
      }
      if Has(entries, k) {
        assert EntryOk(dlist, entries, Rank(entries, k));
      }
    }

    method MoveToFront(i: nat)
      requires Linked() && i < |dlist|
      modifies this`dlist, this`entries
      ensures Linked() && dlist == ToFront(old(dlist), i) && entries == ToFront(old(entries), i)
    {
      AgreeFront(dlist, cacheMap, i);
      SyncedFront(dlist, entries, i);
      SetList(ToFront(dlist, i), ToFront(entries, i));
    }

    method SetList(list: seq<CacheNode<K, V>>, ghost all: seq<Entry<K, V>>)
      requires Agree(list, cacheMap) && Synced(list, all)
      modifies this`dlist, this`entries
      ensures Linked() && dlist == list && entries == all
    {
      dlist := list;
      entries := all;
    }

    /** Takes the i-th node out of the list and its key out of the map. */
    method Unlink(i: nat)
      requires Linked() && i < |dlist|
      modifies this`dlist, this`cacheMap, this`entries
      ensures Linked() && dlist == CutAt(old(dlist), i) && entries == CutAt(old(entries), i)
    {
      AgreeCut(dlist, cacheMap, i);
      cacheMap := cacheMap - {dlist[i].key};
      dlist := CutAt(dlist, i);
      entries := CutAt(entries, i);
      forall j: nat
        ensures EntryOk(dlist, entries, j)
      {
        assert old(EntryOk(dlist, entries, if j < i then j else j + 1));
      }
    }

    method Set(k: K, v: V)
      requires Valid()
      modifies this`dlist, this`cacheMap, this`entries, dlist
      ensures Valid() && entries == AfterSet(old(entries), capacity, k, v)
    {
      Hit(k);
      if k in cacheMap {
        Overwrite(k, v);
      } else {
        Insert(k, v);
      }
    }

    /** A known key: moved to the front and given the new value. */
    method Overwrite(k: K, v: V)
      requires Valid() && k in cacheMap && Has(entries, k)
      modifies this`dlist, this`entries, dlist
      ensures Valid() && entries == [Entry(k, v)] + Drop(old(entries), k)
    {
      var i := Locate(k);
      var node := dlist[i];
      MoveToFront(i);
      SetValue(node, v);
    }

    method SetValue(node: CacheNode<K, V>, v: V)
      requires Linked() && dlist != [] && dlist[0] == node
      modifies node`value, this`entries
      ensures Linked() && entries == [Entry(node.key, v)] + old(entries)[1..]
    {
      node.value := v;
      entries := [Entry(node.key, v)] + entries[1..];
      forall j: nat
        ensures EntryOk(dlist, entries, j)
      {
        assert old(EntryOk(dlist, entries, j));
      }
    }

    /** A new key: pushed to the front, and the last one out if the list is now too long. */
    method Insert(k: K, v: V)
      requires Valid() && k !in cacheMap && !Has(entries, k)
      modifies this`dlist, this`cacheMap, this`entries
      ensures Valid() && entries == AfterSet(old(entries), capacity, k, v)
    {
      PushFront(k, v);
      if |dlist| > capacity {
        Unlink(|dlist| - 1);
      }
    }

    method PushFront(k: K, v: V)
      requires Linked() && k !in cacheMap
      modifies this`dlist, this`cacheMap, this`entries
      ensures Linked() && |dlist| == |old(dlist)| + 1 && entries == [Entry(k, v)] + old(entries)
    {
      var node := new CacheNode(k, v);
      AgreePush(dlist, cacheMap, node);
      dlist := [node] + dlist;
      cacheMap := cacheMap[k := node];
      entries := [Entry(k, v)] + entries;
      forall j: nat
        ensures EntryOk(dlist, entries, j)
      {
        if j > 0 { assert old(EntryOk(dlist, entries, j - 1)); }
      }
    }

    method Get(k: K) returns (v: Option<V>)
      requires Valid()
      modifies this`dlist, this`entries
      ensures Valid() && entries == AfterGet(old(entries), k)
      ensures v == if Has(old(entries), k) then Some(old(entries)[Rank(old(entries), k)].value) else None
    {
      Hit(k);
      if k !in cacheMap {
        return None;
      }
      var i := Locate(k);
      assert EntryOk(dlist, entries, i);
      v := Some(dlist[i].value);
      MoveToFront(i);
    }

    method Remove(k: K) returns (found: bool)
      requires Valid()
      modifies this`dlist, this`cacheMap, this`entries
      ensures Valid() && entries == Drop(old(entries), k)
      ensures found <==> Has(old(entries), k)
    {
      Hit(k);
      if k !in cacheMap {
        return false;
      }
      var i := Locate(k);
      Unlink(i);
      return true;
    }
  }

  lemma RankIs<K, V>(e: seq<Entry<K, V>>, k: K, i: nat)
    requires i <= |e| && (i < |e| ==> e[i].key == k)
    requires forall j :: 0 <= j < i ==> e[j].key != k
    ensures Rank(e, k) == i
  {
  }
}
