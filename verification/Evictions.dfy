/** When the native client's code cache still holds a bytecode: exactly until as many
    other bytecodes as it has room for have been used since (crates/client). */
module Evictions {
  import opened Types
  import opened StateTables
  import opened Overlay
  import opened Lru
  import opened ClientCache

  /** The uses of the code cache a thread's next step makes. A containment check is none. */
  function CodeUses(l: Local): seq<Use<Word, Bytes>> {
    match l
    case ReadCode(h) => [Got(h)]
    case PutCode(_, info, code) => [Stored(info.codeHash, code)]
    case Pour(slice) => Stores(slice.code)
    case _ => []
  }

  function Stores<K, V>(xs: seq<(K, V)>): seq<Use<K, V>> {
    seq(|xs|, i requires 0 <= i < |xs| => Stored(xs[i].0, xs[i].1))
  }

  lemma {:induction false} StoresPut<K, V>(c: LruCache<K, V>, xs: seq<(K, V)>)
    ensures AfterUses(c, Stores(xs)) == PutAll(c, xs)
  {
    if xs != [] {
      var n := |xs| - 1;
      StoresPut(c, xs[..n]);
      assert Stores(xs)[..n] == Stores(xs[..n]);
    }
  }

  lemma OneUse<K, V>(c: LruCache<K, V>, u: Use<K, V>)
    ensures AfterUses(c, [u]) == Using(c, u)
  {
    assert [u][..0] == [];
  }

  lemma MoveUses(t: Tables, c: Caches, l: Local, up: bool)
    ensures Move(t, c, l, up).0.code == AfterUses(c.code, CodeUses(l))
  {
    match l
    case ReadCode(h) => OneUse(c.code, Got(h));
    case PutCode(_, info, code) => OneUse(c.code, Stored(info.codeHash, code));
    case Pour(slice) => StoresPut(c.code, slice.code);
    case _ =>
  }

  // ---- over a run ----

  function Play(t: Tables, s: System, events: seq<Event>): System {
    if events == [] then s else Happen(t, Play(t, s, events[..|events| - 1]), events[|events| - 1])
  }

  lemma {:induction false} PlayOn(t: Tables, capacity: nat, events: seq<Event>, later: seq<Event>)
    ensures After(t, capacity, events + later) == Play(t, After(t, capacity, events), later)
  {
    if later == [] {
      assert events + later == events;
    } else {
      var init := later[..|later| - 1];
      PlayOn(t, capacity, events, init);
      assert (events + later)[..|events + later| - 1] == events + init;
    }
  }

  function EventUses(s: System, e: Event): seq<Use<Word, Bytes>> {
    if e.Advance? && e.thread in s.threads then CodeUses(s.threads[e.thread]) else []
  }

  /** The uses of the code cache over a run, in order. */
  function RunUses(t: Tables, s: System, events: seq<Event>): seq<Use<Word, Bytes>> {
    if events == [] then []
    else
      var init := events[..|events| - 1];
      RunUses(t, s, init) + EventUses(Play(t, s, init), events[|events| - 1])
  }

  lemma {:induction false} UsesConcat<K, V>(c: LruCache<K, V>, a: seq<Use<K, V>>, b: seq<Use<K, V>>)
    ensures AfterUses(c, a + b) == AfterUses(AfterUses(c, a), b)
  {
    if b == [] {
      assert a + b == a;
    } else {
      UsesConcat(c, a, b[..|b| - 1]);
      assert (a + b)[..|a + b| - 1] == a + b[..|b| - 1];
    }
  }

  lemma HappenUses(t: Tables, s: System, e: Event)
    ensures Happen(t, s, e).caches.code == AfterUses(s.caches.code, EventUses(s, e))
  {
    if e.Advance? && e.thread in s.threads { MoveUses(t, s.caches, s.threads[e.thread], e.up); }
  }

  lemma {:induction false} PlayUses(t: Tables, s: System, events: seq<Event>)
    ensures Play(t, s, events).caches.code == AfterUses(s.caches.code, RunUses(t, s, events))
  {
    if events != [] {
      var init, e := events[..|events| - 1], events[|events| - 1];
      PlayUses(t, s, init);
      HappenUses(t, Play(t, s, init), e);
      UsesConcat(s.caches.code, RunUses(t, s, init), EventUses(Play(t, s, init), e));
    }
  }

  lemma {:induction false} UsesValid<K, V>(c: LruCache<K, V>, uses: seq<Use<K, V>>)
    requires c.Valid()
    ensures AfterUses(c, uses).Valid() && AfterUses(c, uses).capacity == c.capacity
  {
    if uses != [] {
      UsesValid(c, uses[..|uses| - 1]);
      UsingValid(AfterUses(c, uses[..|uses| - 1]), uses[|uses| - 1]);
    }
  }

  lemma CodeCacheValid(t: Tables, capacity: nat, events: seq<Event>)
    requires 0 < capacity
    ensures var code := After(t, capacity, events).caches.code; code.Valid() && code.capacity == capacity
  {
    PlayOn(t, capacity, [], events);
    assert [] + events == events;
    PlayUses(t, ClientCache.New(capacity), events);
    UsesValid(ClientCache.New(capacity).caches.code, RunUses(t, ClientCache.New(capacity), events));
  }

  /** The hashes used more recently than `h`: those before it in the cache's order, and
      those used in the course of `later`. */
  function UsedSince(t: Tables, s: System, later: seq<Event>, h: Word): set<Word> {
    Newer(s.caches.code.order, h) + UsedKeys(s.caches.code, RunUses(t, s, later))
  }

  lemma StillHeldIff(t: Tables, capacity: nat, events: seq<Event>, later: seq<Event>, h: Word)
    requires 0 < capacity && h in After(t, capacity, events).caches.code.entries
    requires var s := After(t, capacity, events);
      forall i :: 0 <= i < |RunUses(t, s, later)| ==> RunUses(t, s, later)[i].key != h
    ensures h in After(t, capacity, events + later).caches.code.entries <==>
      |UsedSince(t, After(t, capacity, events), later, h)| < capacity
  {
    var s := After(t, capacity, events);
    CodeCacheValid(t, capacity, events);
    PlayOn(t, capacity, events, later);
    PlayUses(t, s, later);
    SurvivesIff(s.caches.code, RunUses(t, s, later), h);
  }

  lemma CodeRead(t: Tables, c: Caches, h: Word)
    requires TrueCaches(t, c)
    ensures Move(t, c, ReadCode(h), true).1 ==
      Returned(AskCode(h), CodeAnswer(if h in c.code.entries then CodeByHashRef(t, h) else []))
  {
    GetHolds(c.code, h, CodeTruth(t));
    GetValid(c.code, h);
  }

  /** The exact answer of a code read, in any run of any number of threads: the server's
      bytecode while fewer other bytecodes than the capacity have been used since `h`
      was, and no code from then on. */
  lemma CodeReadIs(t: Tables, capacity: nat, events: seq<Event>, later: seq<Event>, h: Word)
    requires 0 < capacity && Honest(t, events + later) && h in After(t, capacity, events).caches.code.entries
    requires var s := After(t, capacity, events);
      forall i :: 0 <= i < |RunUses(t, s, later)| ==> RunUses(t, s, later)[i].key != h
    ensures Move(t, After(t, capacity, events + later).caches, ReadCode(h), true).1 ==
      Returned(AskCode(h), CodeAnswer(
        if |UsedSince(t, After(t, capacity, events), later, h)| < capacity then CodeByHashRef(t, h) else []))
  {
    CacheTransparent(t, capacity, events + later);
    StillHeldIff(t, capacity, events, later, h);
    CodeRead(t, After(t, capacity, events + later).caches, h);
  }
}
