/** A least-recently-used map of bounded size: the behaviour assumed of the `lru`
    crate that the client's caches are made of. */
module Lru {
  import opened Types

  /** `order` lists the keys, the most recently used first. */
  datatype LruCache<!K(==), V> = LruCache(capacity: nat, order: seq<K>, entries: map<K, V>) {
    predicate Valid() {
      0 < capacity && |order| <= capacity && Distinct(order) && Elements(order) == entries.Keys
    }

    /** A lookup makes the key the most recent one. */
    function Get(k: K): (LruCache<K, V>, Option<V>) {
      if k in entries then (this.(order := Front(order, k)), Some(entries[k])) else (this, None)
    }

    /** Every entry satisfies `truth`. */
    ghost predicate Holds(truth: (K, V) -> bool) {
      Valid() && forall k <- entries.Keys :: truth(k, entries[k])
    }

    /** Looks without touching the order. */
    predicate Contains(k: K) {
      k in entries
    }

    /** Inserts or replaces; a new key in a full cache pushes out the oldest one. */
    function Put(k: K, v: V): LruCache<K, V> {
      if k in entries then LruCache(capacity, Front(order, k), entries[k := v])
      else if |order| < capacity || order == [] then LruCache(capacity, [k] + order, entries[k := v])
      else LruCache(capacity, [k] + order[..|order| - 1], (entries - {order[|order| - 1]})[k := v])
    }
  }

  function New<K, V>(capacity: nat): LruCache<K, V> {
    LruCache(capacity, [], map[])
  }

  function PutAll<K(==), V>(c: LruCache<K, V>, xs: seq<(K, V)>): LruCache<K, V> {
    if xs == [] then c
    else PutAll(c, xs[..|xs| - 1]).Put(xs[|xs| - 1].0, xs[|xs| - 1].1)
  }

  function Elements<K(==)>(order: seq<K>): set<K> {
    if order == [] then {} else {order[0]} + Elements(order[1..])
  }

  predicate Distinct<K(==)>(order: seq<K>) {
    order == [] || (order[0] !in Elements(order[1..]) && Distinct(order[1..]))
  }

  function Without<K(==)>(order: seq<K>, k: K): seq<K> {
    if order == [] then []
    else if order[0] == k then order[1..]
    else [order[0]] + Without(order[1..], k)
  }

  function Front<K(==)>(order: seq<K>, k: K): seq<K> {
    [k] + Without(order, k)
  }

  lemma ConsIs<K>(k: K, rest: seq<K>)
    ensures Elements([k] + rest) == {k} + Elements(rest)
    ensures Distinct([k] + rest) <==> k !in Elements(rest) && Distinct(rest)
  {
    assert ([k] + rest)[1..] == rest;
  }

  lemma {:induction false} WithoutKeeps<K>(order: seq<K>, k: K)
    requires Distinct(order) && k in Elements(order)
    ensures |Without(order, k)| == |order| - 1 && Distinct(Without(order, k))
    ensures Elements(Without(order, k)) == Elements(order) - {k}
  {
    if order[0] != k {
      WithoutKeeps(order[1..], k);
      ConsIs(order[0], Without(order[1..], k));
    }
  }

  lemma FrontKeeps<K>(order: seq<K>, k: K)
    requires Distinct(order) && k in Elements(order)
    ensures |Front(order, k)| == |order| && Distinct(Front(order, k)) && Elements(Front(order, k)) == Elements(order)
  {
    WithoutKeeps(order, k);
    ConsIs(k, Without(order, k));
  }

  lemma {:induction false} PushOut<K>(order: seq<K>)
    requires order != [] && Distinct(order)
    ensures Distinct(order[..|order| - 1])
    ensures Elements(order[..|order| - 1]) == Elements(order) - {order[|order| - 1]}
  {
    if |order| > 1 {
      PushOut(order[1..]);
      var init := order[1..][..|order| - 2];
      assert order[..|order| - 1] == [order[0]] + init;
      ConsIs(order[0], init);
      LastIn(order[1..]);
    }
  }

  lemma {:induction false} LastIn<K>(order: seq<K>)
    requires order != []
    ensures order[|order| - 1] in Elements(order)
  {
    if |order| > 1 { LastIn(order[1..]); }
  }

  lemma GetValid<K, V>(c: LruCache<K, V>, k: K)
    requires c.Valid()
    ensures c.Get(k).0.Valid() && c.Get(k).0.entries == c.entries && c.Get(k).0.capacity == c.capacity
    ensures c.Get(k).1 == Lookup(c.entries, k)
  {
    if k in c.entries { FrontKeeps(c.order, k); }
  }

  /** After a put the key is there; everything else that is there was there before. */
  lemma PutValid<K, V>(c: LruCache<K, V>, k: K, v: V)
    requires c.Valid()
    ensures c.Put(k, v).Valid() && c.Put(k, v).capacity == c.capacity
    ensures k in c.Put(k, v).entries && c.Put(k, v).entries[k] == v
    ensures forall x :: x in c.Put(k, v).entries && x != k ==> x in c.entries && c.Put(k, v).entries[x] == c.entries[x]
  {
    if k in c.entries {
      FrontKeeps(c.order, k);
    } else if |c.order| < c.capacity {
      ConsIs(k, c.order);
    } else {
      PushOut(c.order);
      ConsIs(k, c.order[..|c.order| - 1]);
    }
  }

  lemma GetHolds<K, V>(c: LruCache<K, V>, k: K, truth: (K, V) -> bool)
    requires c.Holds(truth)
    ensures c.Get(k).0.Holds(truth) && (c.Get(k).1.Some? ==> truth(k, c.Get(k).1.value))
  {
    GetValid(c, k);
  }

  lemma PutHolds<K, V>(c: LruCache<K, V>, k: K, v: V, truth: (K, V) -> bool)
    requires c.Holds(truth) && truth(k, v)
    ensures c.Put(k, v).Holds(truth)
  {
    PutValid(c, k, v);
  }

  lemma {:induction false} PutAllValid<K, V>(c: LruCache<K, V>, xs: seq<(K, V)>)
    requires c.Valid()
    ensures PutAll(c, xs).Valid() && PutAll(c, xs).capacity == c.capacity
  {
    if xs != [] {
      PutAllValid(c, xs[..|xs| - 1]);
      PutValid(PutAll(c, xs[..|xs| - 1]), xs[|xs| - 1].0, xs[|xs| - 1].1);
    }
  }

  lemma {:induction false} PutAllHolds<K, V>(c: LruCache<K, V>, xs: seq<(K, V)>, truth: (K, V) -> bool)
    requires c.Holds(truth) && forall i :: 0 <= i < |xs| ==> truth(xs[i].0, xs[i].1)
    ensures PutAll(c, xs).Holds(truth)
  {
    if xs != [] {
      PutAllHolds(c, xs[..|xs| - 1], truth);
      PutHolds(PutAll(c, xs[..|xs| - 1]), xs[|xs| - 1].0, xs[|xs| - 1].1, truth);
    }
  }

  lemma {:induction false} DistinctCount<K>(order: seq<K>)
    requires Distinct(order)
    ensures |Elements(order)| == |order|
  {
    if order != [] { DistinctCount(order[1..]); }
  }

  lemma SubsetCount<K>(small: set<K>, large: set<K>)
    requires small <= large
    ensures |small| <= |large|
  {
    assert large == small + (large - small);
  }

  /** As long as at most `capacity` different keys are in play, nothing is pushed out. */
  lemma PutWithin<K, V>(c: LruCache<K, V>, k: K, v: V, keys: set<K>)
    requires c.Valid() && c.entries.Keys <= keys && k in keys && |keys| <= c.capacity
    ensures c.Put(k, v).entries == c.entries[k := v]
  {
    if k !in c.entries && |c.order| == c.capacity {
      DistinctCount(c.order);
      SubsetCount(c.entries.Keys + {k}, keys);
    }
  }

  /** ...nor by a series of puts, after which each of their keys is there. */
  lemma {:induction false} PutAllWithin<K, V>(c: LruCache<K, V>, xs: seq<(K, V)>, keys: set<K>)
    requires c.Valid() && c.entries.Keys <= keys && |keys| <= c.capacity
    requires forall i :: 0 <= i < |xs| ==> xs[i].0 in keys
    ensures PutAll(c, xs).Valid() && PutAll(c, xs).capacity == c.capacity && PutAll(c, xs).entries.Keys <= keys
    ensures forall k :: k in c.entries ==> k in PutAll(c, xs).entries
    ensures forall i :: 0 <= i < |xs| ==> xs[i].0 in PutAll(c, xs).entries
  {
    if xs != [] {
      var init, last := xs[..|xs| - 1], xs[|xs| - 1];
      PutAllWithin(c, init, keys);
      PutValid(PutAll(c, init), last.0, last.1);
      PutWithin(PutAll(c, init), last.0, last.1, keys);
      forall i | 0 <= i < |xs| ensures xs[i].0 in PutAll(c, xs).entries {
        if i < |init| { assert init[i] == xs[i]; }
      }
    }
  }

  /** A new key in a full cache pushes out the least recently used key and no other. */
  lemma OldestGoes<K, V>(c: LruCache<K, V>, k: K, v: V)
    requires c.Valid() && k !in c.entries && |c.order| == c.capacity
    ensures c.Put(k, v).entries.Keys == c.entries.Keys - {c.order[|c.order| - 1]} + {k}
  {
  }

  /** With room for two, a key that was just looked up survives the next put. */
  lemma RecentStays<K, V>(c: LruCache<K, V>, k: K, l: K, v: V)
    requires c.Valid() && k in c.entries && 2 <= c.capacity
    ensures k in c.Get(k).0.Put(l, v).entries
  {
    FrontKeeps(c.order, k);
    var rest := Without(c.order, k);
    assert c.Get(k).0.order == [k] + rest;
    WithoutKeeps(c.order, k);
    if rest != [] { LastIn(rest); }
  }

  // ---- exactly when a key is pushed out ----

  datatype Use<K, V> = Got(key: K) | Stored(key: K, value: V)

  function Using<K(==), V>(c: LruCache<K, V>, u: Use<K, V>): LruCache<K, V> {
    match u
    case Got(k) => c.Get(k).0
    case Stored(k, v) => c.Put(k, v)
  }

  function AfterUses<K(==), V>(c: LruCache<K, V>, uses: seq<Use<K, V>>): LruCache<K, V> {
    if uses == [] then c else Using(AfterUses(c, uses[..|uses| - 1]), uses[|uses| - 1])
  }

  /** A put uses its key; a lookup, only one that is there. */
  function KeyUsed<K(==), V>(c: LruCache<K, V>, u: Use<K, V>): set<K> {
    if u.Stored? || u.key in c.entries then {u.key} else {}
  }

  lemma UnionMore<K>(a: set<K>, b: set<K>, more: set<K>, c: set<K>)
    requires c == b + more
    ensures a + c == a + b + more
  {
  }

  /** The keys used in the course of `uses`. */
  function UsedKeys<K(==), V>(c: LruCache<K, V>, uses: seq<Use<K, V>>): set<K> {
    if uses == [] then {}
    else
      var init, u := uses[..|uses| - 1], uses[|uses| - 1];
      UsedKeys(c, init) + KeyUsed(AfterUses(c, init), u)
  }

  /** The keys used more recently than `k`. */
  function Newer<K(==)>(order: seq<K>, k: K): set<K> {
    if order == [] || order[0] == k then {} else {order[0]} + Newer(order[1..], k)
  }

  lemma {:induction false} NewerWithin<K>(order: seq<K>, k: K)
    ensures Newer(order, k) <= Elements(order) - {k}
  {
    if order != [] && order[0] != k { NewerWithin(order[1..], k); }
  }

  lemma {:induction false} NewerWithout<K>(order: seq<K>, k: K, x: K)
    requires Distinct(order) && k in Elements(order) && x in Elements(order) && x != k
    ensures Newer(Without(order, x), k) == Newer(order, k) - {x}
  {
    if order[0] == x {
      NewerWithin(order[1..], k);
    } else if order[0] != k {
      NewerWithout(order[1..], k, x);
      assert ([order[0]] + Without(order[1..], x))[1..] == Without(order[1..], x);
    }
  }

  lemma {:induction false} NewerInit<K>(order: seq<K>, k: K)
    requires Distinct(order) && k in Elements(order)
    ensures var last := order[|order| - 1];
      Newer(order, k) == if k == last then Elements(order) - {k} else Newer(order[..|order| - 1], k)
  {
    var n := |order| - 1;
    if n > 0 && order[0] != k {
      NewerInit(order[1..], k);
      assert order[..n][1..] == order[1..][..n - 1];
    } else if n > 0 {
      LastIn(order[1..]);
    }
  }

  lemma NewerFront<K>(x: K, order: seq<K>, k: K)
    requires x != k
    ensures Newer([x] + order, k) == {x} + Newer(order, k)
  {
    assert ([x] + order)[1..] == order;
  }

  lemma NewerCount<K, V>(c: LruCache<K, V>, k: K)
    requires c.Valid() && k in c.entries
    ensures |Newer(c.order, k)| < c.capacity
  {
    NewerWithin(c.order, k);
    DistinctCount(c.order);
    SubsetCount(Newer(c.order, k), Elements(c.order) - {k});
  }

  lemma UsingValid<K, V>(c: LruCache<K, V>, u: Use<K, V>)
    requires c.Valid()
    ensures Using(c, u).Valid() && Using(c, u).capacity == c.capacity
  {
    match u
    case Got(k) => GetValid(c, k);
    case Stored(k, v) => PutValid(c, k, v);
  }

  lemma UsingGone<K, V>(c: LruCache<K, V>, u: Use<K, V>, k: K)
    requires c.Valid() && u.key != k && k !in c.entries
    ensures k !in Using(c, u).entries
  {
    match u
    case Got(x) => GetValid(c, x);
    case Stored(x, v) => PutValid(c, x, v);
  }

  /** A use of another key that the cache already has. */
  lemma UsingFront<K, V>(c: LruCache<K, V>, u: Use<K, V>, k: K)
    requires c.Valid() && u.key != k && k in c.entries && u.key in c.entries
    ensures k in Using(c, u).entries && Newer(Using(c, u).order, k) == Newer(c.order, k) + {u.key}
  {
    NewerWithout(c.order, k, u.key);
    NewerFront(u.key, Without(c.order, u.key), k);
  }

  /** A put of a new key where there is room... */
  lemma StoringRoom<K, V>(c: LruCache<K, V>, x: K, v: V, k: K)
    requires c.Valid() && x != k && k in c.entries && x !in c.entries && |c.order| < c.capacity
    ensures k in c.Put(x, v).entries && Newer(c.Put(x, v).order, k) == Newer(c.order, k) + {x}
  {
    NewerFront(x, c.order, k);
  }

  /** ...where `k` is not the oldest... */
  lemma StoringFull<K, V>(c: LruCache<K, V>, x: K, v: V, k: K)
    requires c.Valid() && x != k && k in c.entries && x !in c.entries && |c.order| == c.capacity
    requires k != c.order[|c.order| - 1]
    ensures k in c.Put(x, v).entries && Newer(c.Put(x, v).order, k) == Newer(c.order, k) + {x}
  {
    OldestGoes(c, x, v);
    NewerInit(c.order, k);
    NewerFront(x, c.order[..|c.order| - 1], k);
  }

  /** ...and where it is. */
  lemma StoringOver<K, V>(c: LruCache<K, V>, x: K, v: V, k: K)
    requires c.Valid() && x != k && k in c.entries && x !in c.entries && |c.order| == c.capacity
    requires k == c.order[|c.order| - 1]
    ensures k !in c.Put(x, v).entries && |Newer(c.order, k) + {x}| == c.capacity
  {
    OldestGoes(c, x, v);
    NewerInit(c.order, k);
    DistinctCount(c.order);
    assert Newer(c.order, k) + {x} == Elements(c.order) - {k} + {x};
  }

  lemma StoringNew<K, V>(c: LruCache<K, V>, x: K, v: V, k: K)
    requires c.Valid() && x != k && k in c.entries && x !in c.entries
    ensures if |Newer(c.order, k) + {x}| < c.capacity
      then k in c.Put(x, v).entries && Newer(c.Put(x, v).order, k) == Newer(c.order, k) + {x}
      else k !in c.Put(x, v).entries
  {
    if |c.order| == c.capacity && k == c.order[|c.order| - 1] {
      StoringOver(c, x, v, k);
    } else {
      if |c.order| < c.capacity { StoringRoom(c, x, v, k); } else { StoringFull(c, x, v, k); }
      PutValid(c, x, v);
      NewerCount(c.Put(x, v), k);
    }
  }

  /** What one more use of another key does to `k`. */
  lemma UsingNext<K, V>(c: LruCache<K, V>, u: Use<K, V>, k: K)
    requires c.Valid() && u.key != k && k in c.entries
    ensures var newer := Newer(c.order, k) + KeyUsed(c, u);
      if |newer| < c.capacity then k in Using(c, u).entries && Newer(Using(c, u).order, k) == newer
      else k !in Using(c, u).entries
  {
    if u.key in c.entries {
      UsingFront(c, u, k);
      UsingValid(c, u);
      NewerCount(Using(c, u), k);
    } else if u.Stored? {
      StoringNew(c, u.key, u.value, k);
    } else {
      NewerCount(c, k);
      assert Newer(c.order, k) + {} == Newer(c.order, k);
    }
  }

  lemma SurvivesNext<K, V>(c: LruCache<K, V>, u: Use<K, V>, k: K, before: set<K>, after: set<K>)
    requires c.Valid() && u.key != k
    requires after == before + KeyUsed(c, u)
    requires k in c.entries <==> |before| < c.capacity
    requires k in c.entries ==> Newer(c.order, k) == before
    ensures k in Using(c, u).entries <==> |after| < c.capacity
    ensures k in Using(c, u).entries ==> Newer(Using(c, u).order, k) == after
  {
    if k in c.entries {
      UsingNext(c, u, k);
    } else {
      UsingGone(c, u, k);
      SubsetCount(before, after);
    }
  }

  /** The exact condition: a cached key is still there after uses of other keys exactly
      when those used more recently, before and since, are fewer than the capacity. */
  lemma {:induction false} SurvivesIff<K, V>(c: LruCache<K, V>, uses: seq<Use<K, V>>, k: K)
    requires c.Valid() && k in c.entries && forall i :: 0 <= i < |uses| ==> uses[i].key != k
    ensures AfterUses(c, uses).Valid() && AfterUses(c, uses).capacity == c.capacity
    ensures var newer := Newer(c.order, k) + UsedKeys(c, uses);
      && (k in AfterUses(c, uses).entries <==> |newer| < c.capacity)
      && (k in AfterUses(c, uses).entries ==> Newer(AfterUses(c, uses).order, k) == newer)
  {
    if uses == [] {
      NewerCount(c, k);
      assert Newer(c.order, k) + {} == Newer(c.order, k);
    } else {
      var init, u := uses[..|uses| - 1], uses[|uses| - 1];
      SurvivesIff(c, init, k);
      UsingValid(AfterUses(c, init), u);
      UnionMore(Newer(c.order, k), UsedKeys(c, init), KeyUsed(AfterUses(c, init), u), UsedKeys(c, uses));
      SurvivesNext(
        AfterUses(c, init), u, k, Newer(c.order, k) + UsedKeys(c, init), Newer(c.order, k) + UsedKeys(c, uses));
    }
  }
}
