/** What the cache of broker/quto/lru_cache.go holds after a history of operations. */
module LruHistory {
  import opened Base
  import opened LruCache

  // ---------------------------------------------------------------- histories of Sets

  /** A cache of the given capacity after the Sets in `h`. */
  function Cached<K(==), V>(capacity: nat, h: seq<Entry<K, V>>): seq<Entry<K, V>> {
    if h == [] then []
    else AfterSet(Cached(capacity, h[..|h| - 1]), capacity, h[|h| - 1].key, h[|h| - 1].value)
  }

  /** The keys in order of their last Set, latest first, with their last values: a cache without bound. */
  function Recent<K(==), V>(h: seq<Entry<K, V>>): seq<Entry<K, V>> {
    if h == [] then [] else [h[|h| - 1]] + Drop(Recent(h[..|h| - 1]), h[|h| - 1].key)
  }

  function Take<T>(s: seq<T>, n: nat): (r: seq<T>)
    ensures |r| == Min(n, |s|)
    ensures forall i :: 0 <= i < |r| ==> r[i] == s[i]
  {
    s[..Min(n, |s|)]
  }

  lemma {:induction false} RecentDistinct<K, V>(h: seq<Entry<K, V>>)
    ensures Distinct(Recent(h))
  {
    if h != [] {
      var n := |h| - 1;
      RecentDistinct(h[..n]);
      DropGone(Recent(h[..n]), h[n].key);
      FrontDistinct(h[n], Drop(Recent(h[..n]), h[n].key));
    }
  }

  lemma FrontDistinct<K, V>(x: Entry<K, V>, e: seq<Entry<K, V>>)
    requires Distinct(e) && forall i :: 0 <= i < |e| ==> e[i].key != x.key
    ensures Distinct([x] + e)
  {
  }

  lemma DropGone<K, V>(e: seq<Entry<K, V>>, k: K)
    requires Distinct(e)
    ensures Distinct(Drop(e, k)) && !Has(Drop(e, k), k)
    ensures forall i :: 0 <= i < |Drop(e, k)| ==> Drop(e, k)[i].key != k
  {
    var r := Drop(e, k);
    assert forall i :: 0 <= i < |r| ==> r[i].key != k;
  }

  lemma RankTake<K, V>(e: seq<Entry<K, V>>, n: nat, k: K)
    ensures Has(Take(e, n), k) <==> Rank(e, k) < Min(n, |e|)
    ensures Has(Take(e, n), k) ==> Rank(Take(e, n), k) == Rank(e, k)
  {
    var t := Take(e, n);
    var i := Rank(e, k);
    if i < |t| {
      RankIs(t, k, i);
    }
  }

  lemma SetOnPrefix<K, V>(e: seq<Entry<K, V>>, c: nat, k: K, v: V)
    ensures AfterSet(Take(e, c), c, k, v) == Take([Entry(k, v)] + Drop(e, k), c)
  {
    RankTake(e, c, k);
  }

  /** The cache of capacity c holds the c most recently set distinct keys, with their last values. */
  lemma {:induction false} CachedIsRecent<K, V>(capacity: nat, h: seq<Entry<K, V>>)
    ensures Cached(capacity, h) == Take(Recent(h), capacity)
  {
    if h != [] {
      var n := |h| - 1;
      CachedIsRecent(capacity, h[..n]);
      SetOnPrefix(Recent(h[..n]), capacity, h[n].key, h[n].value);
    }
  }

  /** LRU inclusion: the smaller cache holds the first entries of the larger one. */
  lemma Inclusion<K, V>(c: nat, d: nat, h: seq<Entry<K, V>>)
    requires c <= d
    ensures Cached(c, h) == Take(Cached(d, h), c)
  {
    CachedIsRecent(c, h);
    CachedIsRecent(d, h);
  }

  // ---------------------------------------------------------------- reuse distance

  function LastValue<K(==), V>(h: seq<Entry<K, V>>, k: K): Option<V> {
    if h == [] then None
    else if h[|h| - 1].key == k then Some(h[|h| - 1].value)
    else LastValue(h[..|h| - 1], k)
  }

  /** The distinct keys set after the last Set of `k`. */
  function SetSince<K(==), V>(h: seq<Entry<K, V>>, k: K): set<K> {
    if h == [] || h[|h| - 1].key == k then {} else SetSince(h[..|h| - 1], k) + {h[|h| - 1].key}
  }

  function KeysBefore<K(==), V>(e: seq<Entry<K, V>>, k: K): set<K> {
    if e == [] || e[0].key == k then {} else {e[0].key} + KeysBefore(e[1..], k)
  }

  lemma {:induction false} KeysBeforeIn<K, V>(e: seq<Entry<K, V>>, k: K)
    ensures forall x :: x in KeysBefore(e, k) ==> x != k && exists i :: 0 <= i < |e| && e[i].key == x
  {
    if e != [] && e[0].key != k {
      KeysBeforeIn(e[1..], k);
      forall x | x in KeysBefore(e, k)
        ensures x != k && exists i :: 0 <= i < |e| && e[i].key == x
      {
        if x in KeysBefore(e[1..], k) {
          var i :| 0 <= i < |e[1..]| && e[1..][i].key == x;
          assert e[i + 1].key == x;
        } else {
          assert e[0].key == x;
        }
      }
    }
  }

  lemma {:induction false} KeysBeforeSize<K, V>(e: seq<Entry<K, V>>, k: K)
    requires Distinct(e)
    ensures |KeysBefore(e, k)| == Rank(e, k)
  {
    if e != [] && e[0].key != k {
      KeysBeforeSize(e[1..], k);
      KeysBeforeIn(e[1..], k);
      assert e[0].key !in KeysBefore(e[1..], k);
    }
  }

  lemma Cons<K, V>(x: Entry<K, V>, e: seq<Entry<K, V>>, k: K)
    ensures x.key == k ==> Has([x] + e, k) && Rank([x] + e, k) == 0 && KeysBefore([x] + e, k) == {}
    ensures x.key != k ==> (Has([x] + e, k) <==> Has(e, k)) && Rank([x] + e, k) == 1 + Rank(e, k)
    ensures x.key != k ==> KeysBefore([x] + e, k) == {x.key} + KeysBefore(e, k)
  {
    assert ([x] + e)[1..] == e;
  }

  lemma DropTail<K, V>(x: Entry<K, V>, e: seq<Entry<K, V>>, k: K)
    ensures Drop([x] + e, k) == if x.key == k then e else [x] + Drop(e, k)
  {
    Cons(x, e, k);
  }

  lemma {:induction false} DropBefore<K, V>(e: seq<Entry<K, V>>, x: K, k: K)
    requires x != k && Distinct(e)
    ensures KeysBefore(Drop(e, x), k) == KeysBefore(e, k) - {x}
  {
    if e != [] {
      var first, rest := e[0], e[1..];
      assert e == [first] + rest;
      DropTail(first, rest, x);
      Cons(first, rest, k);
      if first.key == x {
        KeysBeforeIn(rest, k);
        assert x !in KeysBefore(rest, k);
      } else {
        DropBefore(rest, x, k);
        Cons(first, Drop(rest, x), k);
      }
    }
  }

  lemma DropFinds<K, V>(e: seq<Entry<K, V>>, x: K, k: K)
    requires x != k
    ensures Has(Drop(e, x), k) <==> Has(e, k)
    ensures Has(e, k) ==> Drop(e, x)[Rank(Drop(e, x), k)] == e[Rank(e, k)]
  {
    var i, j, r := Rank(e, x), Rank(e, k), Drop(e, x);
    if j < |e| {
      RankIs(r, k, if j < i || i == |e| then j else j - 1);
    } else {
      RankIs(r, k, |r|);
    }
  }

  /** Where `k` stands in the list, if it is there at all. */
  predicate Stands<K(==), V(==)>(e: seq<Entry<K, V>>, k: K, last: Option<V>, since: set<K>) {
    && (Has(e, k) <==> last.Some?)
    && (Has(e, k) ==> e[Rank(e, k)].value == last.value && KeysBefore(e, k) == since)
  }

  lemma StandsBehind<K, V>(x: Entry<K, V>, e: seq<Entry<K, V>>, k: K, last: Option<V>, since: set<K>)
    requires Distinct(e) && x.key != k && Stands(e, k, last, since)
    ensures Stands([x] + Drop(e, x.key), k, last, since + {x.key})
  {
    DropFinds(e, x.key, k);
    DropBefore(e, x.key, k);
    Cons(x, Drop(e, x.key), k);
  }

  lemma {:induction false} RecentPosition<K, V>(h: seq<Entry<K, V>>, k: K)
    ensures Stands(Recent(h), k, LastValue(h, k), SetSince(h, k))
  {
    if h != [] {
      var n := |h| - 1;
      var before := Recent(h[..n]);
      if h[n].key == k {
        Cons(h[n], Drop(before, k), k);
      } else {
        RecentPosition(h[..n], k);
        RecentDistinct(h[..n]);
        StandsBehind(h[n], before, k, LastValue(h[..n], k), SetSince(h[..n], k));
      }
    }
  }

  /** A key is in the cache if and only if it was ever set and fewer than `capacity` distinct keys have
      been set since; its value is the last one. */
  lemma ResidentIff<K, V>(capacity: nat, h: seq<Entry<K, V>>, k: K)
    ensures Has(Cached(capacity, h), k) <==> LastValue(h, k).Some? && |SetSince(h, k)| < capacity
    ensures Has(Cached(capacity, h), k) ==>
              Cached(capacity, h)[Rank(Cached(capacity, h), k)].value == LastValue(h, k).value
  {
    CachedIsRecent(capacity, h);
    RecentPosition(h, k);
    RecentDistinct(h);
    KeysBeforeSize(Recent(h), k);
    RankTake(Recent(h), capacity, k);
  }

  // ---------------------------------------------------------------- all operations

  datatype CacheOp<K, V> = SetOp(key: K, value: V) | GetOp(key: K) | RemoveOp(key: K)

  function Step<K(==), V>(e: seq<Entry<K, V>>, capacity: int, op: CacheOp<K, V>): seq<Entry<K, V>> {
    match op
    case SetOp(k, v) => AfterSet(e, capacity, k, v)
    case GetOp(k) => AfterGet(e, k)
    case RemoveOp(k) => Drop(e, k)
  }

  function Run<K(==), V>(capacity: int, ops: seq<CacheOp<K, V>>): seq<Entry<K, V>> {
    if ops == [] then [] else Step(Run(capacity, ops[..|ops| - 1]), capacity, ops[|ops| - 1])
  }

  lemma StepKeeps<K, V>(e: seq<Entry<K, V>>, capacity: int, op: CacheOp<K, V>)
    requires Distinct(e) && (|e| == 0 || |e| <= capacity)
    ensures var r := Step(e, capacity, op); Distinct(r) && (|r| == 0 || |r| <= capacity)
  {
    var d := Drop(e, op.key);
    DropGone(e, op.key);
    match op
    case SetOp(k, v) => FrontDistinct(Entry(k, v), d);
    case GetOp(k) => if Has(e, k) { FrontDistinct(e[Rank(e, k)], d); }
    case RemoveOp(k) =>
  }

  /** In every reachable state the keys are distinct and the size is within the capacity. */
  lemma {:induction false} RunBounded<K, V>(capacity: int, ops: seq<CacheOp<K, V>>)
    ensures Distinct(Run(capacity, ops)) && (|Run(capacity, ops)| == 0 || |Run(capacity, ops)| <= capacity)
  {
    if ops != [] {
      RunBounded(capacity, ops[..|ops| - 1]);
      StepKeeps(Run(capacity, ops[..|ops| - 1]), capacity, ops[|ops| - 1]);
    }
  }

  predicate IsPrefix<T(==)>(s: seq<T>, l: seq<T>) { |s| <= |l| && s == l[..|s|] }

  lemma SetPrefix<K, V>(s: seq<Entry<K, V>>, l: seq<Entry<K, V>>, c: nat, d: nat, k: K, v: V)
    requires IsPrefix(s, l) && c <= d && |s| <= c && |l| <= d && Distinct(l)
    ensures IsPrefix(AfterSet(s, c, k, v), AfterSet(l, d, k, v))
  {
    assert s == Take(l, |s|);
    RankTake(l, |s|, k);
  }

  lemma DropPrefix<K, V>(s: seq<Entry<K, V>>, l: seq<Entry<K, V>>, k: K)
    requires IsPrefix(s, l)
    ensures IsPrefix(Drop(s, k), Drop(l, k))
  {
    assert s == Take(l, |s|);
    RankTake(l, |s|, k);
  }

  lemma StepPrefix<K, V>(s: seq<Entry<K, V>>, l: seq<Entry<K, V>>, c: nat, d: nat, op: CacheOp<K, V>)
    requires IsPrefix(s, l) && c <= d && |s| <= c && |l| <= d && Distinct(l) && !op.GetOp?
    ensures IsPrefix(Step(s, c, op), Step(l, d, op))
  {
    match op
    case SetOp(k, v) => SetPrefix(s, l, c, d, k, v);
    case RemoveOp(k) => DropPrefix(s, l, k);
  }

  /** Removals keep the smaller cache a prefix of the larger one too. */
  lemma {:induction false} InclusionWithRemovals<K, V>(c: nat, d: nat, ops: seq<CacheOp<K, V>>)
    requires c <= d && forall i :: 0 <= i < |ops| ==> !ops[i].GetOp?
    ensures IsPrefix(Run(c, ops), Run(d, ops))
  {
    if ops != [] {
      var n := |ops| - 1;
      InclusionWithRemovals(c, d, ops[..n]);
      RunBounded(c, ops[..n]);
      RunBounded(d, ops[..n]);
      StepPrefix(Run(c, ops[..n]), Run(d, ops[..n]), c, d, ops[n]);
    }
  }

  /** A Get breaks the inclusion exactly when it hits the larger cache and misses a non-empty smaller one. */
  lemma GetKeepsInclusionIff<K, V>(s: seq<Entry<K, V>>, l: seq<Entry<K, V>>, k: K)
    requires IsPrefix(s, l) && Distinct(l)
    ensures IsPrefix(AfterGet(s, k), AfterGet(l, k)) <==> !(Has(l, k) && !Has(s, k) && s != [])
  {
    assert s == Take(l, |s|);
    RankTake(l, |s|, k);
    DropPrefix(s, l, k);
    if Has(l, k) && !Has(s, k) && s != [] {
      assert AfterGet(l, k)[0].key == k && s[0].key != k;
    }
  }
}
