/** When the native client's code reads can be relied on: as long as no more code
    hashes are touched than its code cache holds (crates/client). */
module CodeCache {
  import opened Types
  import opened StateTables
  import opened Overlay
  import opened Lru
  import opened ClientCache

  /** A code read of `h` cannot miss code that the server has. The zero hash and the
      hash of no code are never fetched. */
  predicate Available(t: Tables, code: LruCache<Word, Bytes>, h: Word) {
    h in code.entries || h !in t.code || NoCodeHash(h)
  }

  predicate Covered(t: Tables, code: LruCache<Word, Bytes>, a: Address) {
    a in t.accounts ==> Available(t, code, t.accounts[a].codeHash)
  }

  function HashAt(t: Tables, a: Address): set<Word> {
    if a in t.accounts && Contract(t.accounts[a]) then {t.accounts[a].codeHash} else {}
  }

  /** The code hashes a thread may put in the cache before it comes to rest. */
  function Hashes(t: Tables, l: Local): set<Word> {
    match l
    case ReadAccount(a) => HashAt(t, a)
    case FetchAccount(a) => HashAt(t, a)
    case CheckCode(_, info) => {info.codeHash}
    case FetchCode(_, info) => {info.codeHash}
    case PutCode(_, info, _) => {info.codeHash}
    case Prefetch(slice) => set i | 0 <= i < |slice.code| :: slice.code[i].0
    case Pour(slice) => set i | 0 <= i < |slice.code| :: slice.code[i].0
    case _ => {}
  }

  /** A slice carries the code of every contract in it that the server has code for. */
  ghost predicate CodeComplete(t: Tables, slice: Slice) {
    forall i :: 0 <= i < |slice.accounts| && slice.accounts[i].0 in t.accounts ==>
      var info := t.accounts[slice.accounts[i].0];
      Contract(info) && info.codeHash in t.code ==> HasCodeFor(slice, info.codeHash)
  }

  ghost predicate HasCodeFor(slice: Slice, h: Word) {
    exists j :: 0 <= j < |slice.code| && slice.code[j].0 == h
  }

  /** The address whose code a thread in this state vouches for, if there is one. */
  function VouchedFor(l: Local): Option<Address> {
    match l
    case PutAccount(a, _) => Some(a)
    case Returned(request, _) => if request.AskAccount? then Some(request.address) else None
    case _ => None
  }

  ghost predicate LocalCovered(t: Tables, keys: set<Word>, code: LruCache<Word, Bytes>, l: Local) {
    && Hashes(t, l) <= keys
    && (VouchedFor(l).Some? ==> Covered(t, code, VouchedFor(l).value))
    && (l.Prefetch? || l.Pour? ==> CodeComplete(t, l.slice))
  }

  ghost predicate CachesCovered(t: Tables, keys: set<Word>, c: Caches) {
    && TrueCaches(t, c) && |keys| <= c.code.capacity && c.code.entries.Keys <= keys
    && forall a :: a in c.accounts.entries ==> Covered(t, c.code, a)
  }

  lemma {:induction false} PutAllFrom(
    c: LruCache<Address, Option<AccountInfo>>, xs: seq<(Address, Option<AccountInfo>)>, a: Address)
    requires c.Valid() && a in PutAll(c, xs).entries
    ensures PutAll(c, xs).Valid()
    ensures a in c.entries || exists i :: 0 <= i < |xs| && xs[i].0 == a
  {
    PutAllValid(c, xs);
    if xs != [] {
      var init, last := xs[..|xs| - 1], xs[|xs| - 1];
      PutAllValid(c, init);
      PutValid(PutAll(c, init), last.0, last.1);
      if a == last.0 {
        assert xs[|xs| - 1].0 == a;
      } else {
        PutAllFrom(c, init, a);
        if a !in c.entries {
          var i :| 0 <= i < |init| && init[i].0 == a;
          assert xs[i].0 == a;
        }
      }
    }
  }

  /** More code in the cache takes nothing away. */
  lemma CoveredGrows(t: Tables, code: LruCache<Word, Bytes>, code': LruCache<Word, Bytes>, a: Address)
    requires forall h :: h in code.entries ==> h in code'.entries
    requires Covered(t, code, a)
    ensures Covered(t, code', a)
  {
  }

  ghost predicate CodeGrows(c: Caches, c': Caches) {
    forall h :: h in c.code.entries ==> h in c'.code.entries
  }

  lemma CachesGrow(t: Tables, keys: set<Word>, c: Caches, c': Caches)
    requires CachesCovered(t, keys, c) && TrueCaches(t, c') && CodeGrows(c, c')
    requires c'.code.capacity == c.code.capacity && c'.code.entries.Keys <= keys
    requires c'.accounts.entries.Keys <= c.accounts.entries.Keys
    ensures CachesCovered(t, keys, c')
  {
    forall a | a in c'.accounts.entries ensures Covered(t, c'.code, a) {
      assert a in c.accounts.entries;
      CoveredGrows(t, c.code, c'.code, a);
    }
  }

  /** A step's effect on what the caches cover. */
  ghost predicate Keeps(t: Tables, keys: set<Word>, c: Caches, c': Caches, l': Local) {
    CachesCovered(t, keys, c') && CodeGrows(c, c') && LocalCovered(t, keys, c'.code, l')
  }

  lemma ReadAccountKeeps(t: Tables, keys: set<Word>, c: Caches, a: Address, up: bool)
    requires CachesCovered(t, keys, c) && HashAt(t, a) <= keys
    ensures Keeps(t, keys, c, Move(t, c, ReadAccount(a), up).0, Move(t, c, ReadAccount(a), up).1)
  {
    GetHolds(c.accounts, a, AccountTruth(t));
    GetValid(c.accounts, a);
    CachesGrow(t, keys, c, c.(accounts := c.accounts.Get(a).0));
  }

  lemma ReadSlotKeeps(t: Tables, keys: set<Word>, c: Caches, a: Address, s: Word, up: bool)
    requires CachesCovered(t, keys, c)
    ensures Keeps(t, keys, c, Move(t, c, ReadSlot(a, s), up).0, Move(t, c, ReadSlot(a, s), up).1)
  {
    GetHolds(c.storage, (a, s), SlotTruth(t));
    CachesGrow(t, keys, c, c.(storage := c.storage.Get((a, s)).0));
  }

  lemma ReadCodeKeeps(t: Tables, keys: set<Word>, c: Caches, h: Word, up: bool)
    requires CachesCovered(t, keys, c)
    ensures Keeps(t, keys, c, Move(t, c, ReadCode(h), up).0, Move(t, c, ReadCode(h), up).1)
  {
    GetHolds(c.code, h, CodeTruth(t));
    GetValid(c.code, h);
    CachesGrow(t, keys, c, c.(code := c.code.Get(h).0));
  }

  /** A step that leaves the caches alone. */
  lemma SameCachesKeep(t: Tables, keys: set<Word>, c: Caches, l: Local, up: bool)
    requires CachesCovered(t, keys, c) && Move(t, c, l, up).0 == c
    requires LocalCovered(t, keys, c.code, Move(t, c, l, up).1)
    ensures Keeps(t, keys, c, Move(t, c, l, up).0, Move(t, c, l, up).1)
  {
  }

  lemma FetchedCovered(t: Tables, keys: set<Word>, c: Caches, l: Local, up: bool)
    requires LocalCovered(t, keys, c.code, l) && TrueLocal(t, l)
    requires l.FetchAccount? || l.CheckCode? || l.FetchCode? || l.FetchSlot? || l.Prefetch?
    ensures Move(t, c, l, up).0 == c && LocalCovered(t, keys, c.code, Move(t, c, l, up).1)
  {
  }

  lemma FetchKeeps(t: Tables, keys: set<Word>, c: Caches, l: Local, up: bool)
    requires CachesCovered(t, keys, c) && LocalCovered(t, keys, c.code, l) && TrueLocal(t, l)
    requires l.FetchAccount? || l.CheckCode? || l.FetchCode? || l.FetchSlot? || l.Prefetch?
    ensures Keeps(t, keys, c, Move(t, c, l, up).0, Move(t, c, l, up).1)
  {
    FetchedCovered(t, keys, c, l, up);
    SameCachesKeep(t, keys, c, l, up);
  }

  lemma PutCodeKeeps(t: Tables, keys: set<Word>, c: Caches, l: Local, up: bool)
    requires CachesCovered(t, keys, c) && LocalCovered(t, keys, c.code, l) && TrueLocal(t, l) && l.PutCode?
    ensures Keeps(t, keys, c, Move(t, c, l, up).0, Move(t, c, l, up).1)
  {
    PutHolds(c.code, l.info.codeHash, l.code, CodeTruth(t));
    PutValid(c.code, l.info.codeHash, l.code);
    PutWithin(c.code, l.info.codeHash, l.code, keys);
    CachesGrow(t, keys, c, Move(t, c, l, up).0);
  }

  lemma PutKeeps(t: Tables, keys: set<Word>, c: Caches, l: Local, up: bool)
    requires CachesCovered(t, keys, c) && LocalCovered(t, keys, c.code, l) && TrueLocal(t, l)
    requires l.PutAccount? || l.PutSlot?
    ensures Keeps(t, keys, c, Move(t, c, l, up).0, Move(t, c, l, up).1)
  {
    MoveTrue(t, c, l, up);
    if l.PutAccount? { PutValid(c.accounts, l.a, l.account); }
  }

  lemma PouredCovered(t: Tables, c: Caches, slice: Slice, code: LruCache<Word, Bytes>, a: Address)
    requires c.accounts.Valid() && a in PutAll(c.accounts, slice.accounts).entries && CodeComplete(t, slice)
    requires forall j :: 0 <= j < |slice.code| ==> slice.code[j].0 in code.entries
    requires a in c.accounts.entries ==> Covered(t, code, a)
    ensures Covered(t, code, a)
  {
    PutAllFrom(c.accounts, slice.accounts, a);
    if a !in c.accounts.entries && a in t.accounts {
      var i :| 0 <= i < |slice.accounts| && slice.accounts[i].0 == a;
      var info := t.accounts[a];
      if Contract(info) && info.codeHash in t.code {
        assert HasCodeFor(slice, info.codeHash);
        var j :| 0 <= j < |slice.code| && slice.code[j].0 == info.codeHash;
      }
    }
  }

  lemma PourCodeWithin(t: Tables, keys: set<Word>, code: LruCache<Word, Bytes>, slice: Slice)
    requires code.Valid() && code.entries.Keys <= keys && |keys| <= code.capacity && Hashes(t, Pour(slice)) <= keys
    ensures var code' := PutAll(code, slice.code);
      && code'.capacity == code.capacity && code'.entries.Keys <= keys
      && (forall h :: h in code.entries ==> h in code'.entries)
      && (forall j :: 0 <= j < |slice.code| ==> slice.code[j].0 in code'.entries)
  {
    forall i | 0 <= i < |slice.code| ensures slice.code[i].0 in keys {
      assert slice.code[i].0 in Hashes(t, Pour(slice));
    }
    PutAllWithin(code, slice.code, keys);
  }

  lemma AllPouredCovered(t: Tables, c: Caches, slice: Slice, code: LruCache<Word, Bytes>)
    requires c.accounts.Valid() && CodeComplete(t, slice)
    requires forall j :: 0 <= j < |slice.code| ==> slice.code[j].0 in code.entries
    requires forall h :: h in c.code.entries ==> h in code.entries
    requires forall a :: a in c.accounts.entries ==> Covered(t, c.code, a)
    ensures forall a :: a in PutAll(c.accounts, slice.accounts).entries ==> Covered(t, code, a)
  {
    forall a | a in PutAll(c.accounts, slice.accounts).entries ensures Covered(t, code, a) {
      if a in c.accounts.entries { CoveredGrows(t, c.code, code, a); }
      PouredCovered(t, c, slice, code, a);
    }
  }

  lemma PourCovered(t: Tables, keys: set<Word>, c: Caches, slice: Slice)
    requires CachesCovered(t, keys, c) && TrueSlice(t, slice) && CodeComplete(t, slice)
    requires Hashes(t, Pour(slice)) <= keys
    ensures CachesCovered(t, keys, PourInto(c, slice)) && CodeGrows(c, PourInto(c, slice))
  {
    ClientCache.PourTrue(t, c, slice);
    PourCodeWithin(t, keys, c.code, slice);
    AllPouredCovered(t, c, slice, PutAll(c.code, slice.code));
  }

  lemma EndKeeps(t: Tables, keys: set<Word>, c: Caches, c': Caches)
    requires CachesCovered(t, keys, c') && CodeGrows(c, c')
    ensures Keeps(t, keys, c, c', Prefetched)
  {
  }

  lemma PourKeeps(t: Tables, keys: set<Word>, c: Caches, slice: Slice)
    requires CachesCovered(t, keys, c) && TrueSlice(t, slice) && CodeComplete(t, slice)
    requires Hashes(t, Pour(slice)) <= keys
    ensures Keeps(t, keys, c, PourInto(c, slice), Prefetched)
  {
    PourCovered(t, keys, c, slice);
    EndKeeps(t, keys, c, PourInto(c, slice));
  }

  lemma MoveKeeps(t: Tables, keys: set<Word>, c: Caches, l: Local, up: bool)
    requires CachesCovered(t, keys, c) && LocalCovered(t, keys, c.code, l) && TrueLocal(t, l)
    ensures Keeps(t, keys, c, Move(t, c, l, up).0, Move(t, c, l, up).1)
  {
    if l.ReadAccount? {
      ReadAccountKeeps(t, keys, c, l.a, up);
    } else if l.ReadSlot? {
      ReadSlotKeeps(t, keys, c, l.a, l.s, up);
    } else if l.ReadCode? {
      ReadCodeKeeps(t, keys, c, l.h, up);
    } else if l.FetchAccount? || l.CheckCode? || l.FetchCode? || l.FetchSlot? || l.Prefetch? {
      FetchKeeps(t, keys, c, l, up);
    } else if l.PutCode? {
      PutCodeKeeps(t, keys, c, l, up);
    } else if l.PutAccount? || l.PutSlot? {
      PutKeeps(t, keys, c, l, up);
    } else if l.Pour? {
      PourKeeps(t, keys, c, l.slice);
    }
  }

  // ---- any interleaving ----

  /** Every operation begun touches only code hashes in `keys`, and slices are complete. */
  ghost predicate Within(t: Tables, keys: set<Word>, events: seq<Event>) {
    forall i :: 0 <= i < |events| && events[i].Begin? ==> WithinOp(t, keys, events[i].op)
  }

  ghost predicate WithinOp(t: Tables, keys: set<Word>, op: Local) {
    Hashes(t, op) <= keys && (op.Prefetch? ==> TrueSlice(t, op.slice) && CodeComplete(t, op.slice))
  }

  ghost predicate SystemCovered(t: Tables, keys: set<Word>, s: System) {
    && CachesCovered(t, keys, s.caches)
    && (forall i :: i in s.threads ==> ThreadCovered(t, keys, s.caches.code, s.threads[i]))
    && (forall h :: h in s.known ==> Available(t, s.caches.code, h))
  }

  ghost predicate ThreadCovered(t: Tables, keys: set<Word>, code: LruCache<Word, Bytes>, l: Local) {
    TrueLocal(t, l) && LocalCovered(t, keys, code, l)
  }

  lemma ThreadGrows(t: Tables, keys: set<Word>, c: Caches, c': Caches, l: Local)
    requires ThreadCovered(t, keys, c.code, l) && CodeGrows(c, c')
    ensures ThreadCovered(t, keys, c'.code, l)
  {
    if VouchedFor(l).Some? { CoveredGrows(t, c.code, c'.code, VouchedFor(l).value); }
  }

  lemma LearnedAvailable(t: Tables, keys: set<Word>, code: LruCache<Word, Bytes>, l: Local, h: Word)
    requires ThreadCovered(t, keys, code, l) && h in Learned(l)
    ensures Available(t, code, h)
  {
    assert l.request.AskAccount?;
  }

  lemma AdvanceCovered(t: Tables, keys: set<Word>, s: System, i: nat, up: bool)
    requires SystemCovered(t, keys, s) && i in s.threads
    ensures SystemCovered(t, keys, Happen(t, s, Advance(i, up)))
  {
    var l := s.threads[i];
    assert ThreadCovered(t, keys, s.caches.code, l);
    MoveKeeps(t, keys, s.caches, l, up);
    MoveTrue(t, s.caches, l, up);
    var (c', l') := Move(t, s.caches, l, up);
    forall j | j in s.threads ensures ThreadCovered(t, keys, c'.code, s.threads[j]) {
      ThreadGrows(t, keys, s.caches, c', s.threads[j]);
    }
    forall h | h in s.known + Learned(l') ensures Available(t, c'.code, h) {
      if h in Learned(l') { LearnedAvailable(t, keys, c'.code, l', h); }
    }
  }

  lemma BeginCovered(t: Tables, keys: set<Word>, s: System, i: nat, op: Local)
    requires SystemCovered(t, keys, s) && WithinOp(t, keys, op)
    ensures SystemCovered(t, keys, Happen(t, s, Begin(i, op)))
  {
  }

  lemma NewCovered(t: Tables, keys: set<Word>, capacity: nat)
    requires 0 < capacity && |keys| <= capacity
    ensures CachesCovered(t, keys, ClientCache.New(capacity).caches)
  {
    NewTrue(t, capacity);
  }

  lemma {:induction false} RunCovered(t: Tables, keys: set<Word>, capacity: nat, events: seq<Event>)
    requires 0 < capacity && |keys| <= capacity && Within(t, keys, events)
    ensures SystemCovered(t, keys, After(t, capacity, events))
  {
    if events == [] {
      NewCovered(t, keys, capacity);
    } else {
      var init, e := events[..|events| - 1], events[|events| - 1];
      RunCovered(t, keys, capacity, init);
      var s := After(t, capacity, init);
      match e
      case Begin(i, op) => BeginCovered(t, keys, s, i, op);
      case Advance(i, up) => if i in s.threads { AdvanceCovered(t, keys, s, i, up); }
    }
  }

  /** In any run that touches at most `capacity` code hashes, once an account has been
      read its code read returns the server's bytecode. */
  lemma CodeAfterAccount(t: Tables, keys: set<Word>, capacity: nat, events: seq<Event>, h: Word)
    requires 0 < capacity && |keys| <= capacity && Within(t, keys, events)
    requires h in After(t, capacity, events).known && !NoCodeHash(h)
    ensures var c := After(t, capacity, events).caches;
      Move(t, c, ReadCode(h), true).1 == Returned(AskCode(h), CodeAnswer(CodeByHashRef(t, h)))
  {
    RunCovered(t, keys, capacity, events);
    var c := After(t, capacity, events).caches;
    assert Available(t, c.code, h);
    GetValid(c.code, h);
  }

  // ---- the bound is needed ----

  const TWO_CONTRACTS := Tables(
    map[1 := AccountInfo(1, 0, 11), 2 := AccountInfo(1, 0, 22)], map[], map[11 := [0xaa], 22 := [0xbb]], None)

  lemma AfterNext(t: Tables, capacity: nat, events: seq<Event>, e: Event)
    ensures After(t, capacity, events + [e]) == Happen(t, After(t, capacity, events), e)
  {
    assert (events + [e])[..|events|] == events;
  }

  /** The steps of one contract read that the caches miss. */
  lemma OneRead(c: Caches, a: Address, info: AccountInfo, code: Bytes)
    requires a in TWO_CONTRACTS.accounts && info == TWO_CONTRACTS.accounts[a] && a !in c.accounts.entries
    requires info.codeHash !in c.code.entries && TWO_CONTRACTS.code[info.codeHash] == code
    ensures var t := TWO_CONTRACTS;
      var c' := c.(code := c.code.Put(info.codeHash, code));
      && Move(t, c, ReadAccount(a), true) == (c, FetchAccount(a))
      && Move(t, c, FetchAccount(a), true) == (c, CheckCode(a, info))
      && Move(t, c, CheckCode(a, info), true) == (c, FetchCode(a, info))
      && Move(t, c, FetchCode(a, info), true) == (c, PutCode(a, info, code))
      && Move(t, c, PutCode(a, info, code), true) == (c', PutAccount(a, Some(info)))
      && Move(t, c', PutAccount(a, Some(info)), true) ==
           (c'.(accounts := c.accounts.Put(a, Some(info))), Returned(AskAccount(a), AccountAnswer(Some(info))))
  {
  }

  function Solo(c: Caches, l: Local, known: set<Word>): System {
    System(c, map[0 := l], known)
  }

  lemma SoloAdvance(c: Caches, l: Local, known: set<Word>)
    ensures var (c', l') := Move(TWO_CONTRACTS, c, l, true);
      Happen(TWO_CONTRACTS, Solo(c, l, known), Advance(0, true)) == Solo(c', l', known + Learned(l'))
  {
    assert map[0 := l][0 := Move(TWO_CONTRACTS, c, l, true).1] == map[0 := Move(TWO_CONTRACTS, c, l, true).1];
  }

  function Advances(n: nat): seq<Event> {
    seq(n, _ => Advance(0, true))
  }

  /** A thread on its own, moved `n` times. */
  function Moved(c: Caches, l: Local, n: nat): (Caches, Local) {
    if n == 0 then (c, l)
    else
      var (c', l') := Moved(c, l, n - 1);
      Move(TWO_CONTRACTS, c', l', true)
  }

  /** The sixth step of a missed contract read returns the account. */
  lemma SixMoves(c: Caches, a: Address, info: AccountInfo, code: Bytes)
    requires a in TWO_CONTRACTS.accounts && info == TWO_CONTRACTS.accounts[a] && a !in c.accounts.entries
    requires info.codeHash !in c.code.entries && TWO_CONTRACTS.code[info.codeHash] == code
    ensures Moved(c, ReadAccount(a), 6) ==
      (c.(code := c.code.Put(info.codeHash, code), accounts := c.accounts.Put(a, Some(info))),
       Returned(AskAccount(a), AccountAnswer(Some(info))))
    ensures forall n :: 0 < n < 6 ==> Learned(Moved(c, ReadAccount(a), n).1) == {}
  {
    OneRead(c, a, info, code);
    assert Moved(c, ReadAccount(a), 1) == (c, FetchAccount(a));
    assert Moved(c, ReadAccount(a), 2) == (c, CheckCode(a, info));
    assert Moved(c, ReadAccount(a), 3) == (c, FetchCode(a, info));
    assert Moved(c, ReadAccount(a), 4) == (c, PutCode(a, info, code));
    assert Moved(c, ReadAccount(a), 5).1 == PutAccount(a, Some(info));
  }

  lemma {:induction false} PlayAdvances(events: seq<Event>, c: Caches, l: Local, known: set<Word>, n: nat)
    requires After(TWO_CONTRACTS, 1, events) == Solo(c, l, known)
    requires forall k :: 0 < k < n ==> Learned(Moved(c, l, k).1) == {}
    ensures After(TWO_CONTRACTS, 1, events + Advances(n)) ==
      Solo(Moved(c, l, n).0, Moved(c, l, n).1, if n == 0 then known else known + Learned(Moved(c, l, n).1))
  {
    if n == 0 {
      assert events + Advances(0) == events;
    } else {
      PlayAdvances(events, c, l, known, n - 1);
      assert events + Advances(n) == (events + Advances(n - 1)) + [Advance(0, true)];
      AfterNext(TWO_CONTRACTS, 1, events + Advances(n - 1), Advance(0, true));
      var (c', l') := Moved(c, l, n - 1);
      SoloAdvance(c', l', if n == 1 then known else known + Learned(l'));
    }
  }

  /** Reading one more contract, alone, to the end. */
  lemma ReadContract(
    events: seq<Event>, c: Caches, known: set<Word>, a: Address, info: AccountInfo, code: Bytes)
    requires After(TWO_CONTRACTS, 1, events + [Begin(0, ReadAccount(a))]) == Solo(c, ReadAccount(a), known)
    requires a in TWO_CONTRACTS.accounts && info == TWO_CONTRACTS.accounts[a] && a !in c.accounts.entries
    requires info.codeHash !in c.code.entries && TWO_CONTRACTS.code[info.codeHash] == code
    ensures After(TWO_CONTRACTS, 1, events + [Begin(0, ReadAccount(a))] + Advances(6)) ==
      Solo(c.(code := c.code.Put(info.codeHash, code), accounts := c.accounts.Put(a, Some(info))),
           Returned(AskAccount(a), AccountAnswer(Some(info))), known + {info.codeHash})
  {
    SixMoves(c, a, info, code);
    PlayAdvances(events + [Begin(0, ReadAccount(a))], c, ReadAccount(a), known, 6);
  }

  /** Contract 1 and then contract 2, each read to the end. */
  function FirstRead(): seq<Event> {
    [] + [Begin(0, ReadAccount(1))] + Advances(6)
  }

  function TwoReads(): seq<Event> {
    FirstRead() + [Begin(0, ReadAccount(2))] + Advances(6)
  }

  const EMPTY_CACHES := Caches(Lru.New(1), Lru.New(1), Lru.New(1))
  const FIRST_INFO := AccountInfo(1, 0, 11)
  const SECOND_INFO := AccountInfo(1, 0, 22)

  const FIRST_CACHES := EMPTY_CACHES.(
    code := LruCache(1, [11], map[11 := [0xaa]]), accounts := LruCache(1, [1], map[1 := Some(FIRST_INFO)]))

  lemma AfterFirst()
    ensures After(TWO_CONTRACTS, 1, FirstRead()) ==
      Solo(FIRST_CACHES, Returned(AskAccount(1), AccountAnswer(Some(FIRST_INFO))), {11})
  {
    AfterNext(TWO_CONTRACTS, 1, [], Begin(0, ReadAccount(1)));
    assert After(TWO_CONTRACTS, 1, []) == ClientCache.New(1);
    ReadContract([], EMPTY_CACHES, {}, 1, FIRST_INFO, [0xaa]);
  }

  lemma BeginSecond()
    ensures After(TWO_CONTRACTS, 1, FirstRead() + [Begin(0, ReadAccount(2))]) ==
      Solo(FIRST_CACHES, ReadAccount(2), {11})
  {
    AfterFirst();
    AfterNext(TWO_CONTRACTS, 1, FirstRead(), Begin(0, ReadAccount(2)));
    var rest := Returned(AskAccount(1), AccountAnswer(Some(FIRST_INFO)));
    assert map[0 := rest][0 := ReadAccount(2)] == map[0 := ReadAccount(2)];
  }

  /** A cache of one entry holds only the last one put. */
  lemma OnlyTheLast<K, V>(k: K, v: V, l: K, w: V)
    requires k != l
    ensures LruCache(1, [k], map[k := v]).Put(l, w).entries == map[l := w]
  {
  }

  lemma AfterSecond()
    ensures var s := After(TWO_CONTRACTS, 1, TwoReads());
      11 in s.known && s.caches.code.entries == map[22 := [0xbb]]
  {
    BeginSecond();
    ReadContract(FirstRead(), FIRST_CACHES, {11}, 2, SECOND_INFO, [0xbb]);
    OnlyTheLast<Word, Bytes>(11, [0xaa], 22, [0xbb]);
  }

  /** With room for one bytecode, the second contract's code pushes out the first's:
      its account is known, yet its code reads as empty. */
  lemma CodePushedOut()
    ensures var s := After(TWO_CONTRACTS, 1, TwoReads());
      && 11 in s.known && CodeByHashRef(TWO_CONTRACTS, 11) == [0xaa]
      && Move(TWO_CONTRACTS, s.caches, ReadCode(11), true).1 == Returned(AskCode(11), CodeAnswer([]))
  {
    AfterSecond();
  }
}
