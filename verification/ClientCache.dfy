/** The caching remote database of the native client (crates/client), one critical
    section or one request at a time, so that threads can be interleaved. */
module ClientCache {
  import opened Types
  import opened StateTables
  import opened Overlay
  import opened Lru

  datatype Caches = Caches(
    accounts: LruCache<Address, Option<AccountInfo>>,
    storage: LruCache<(Address, Word), Word>,
    code: LruCache<Word, Bytes>)

  /** A prefetched slice in the order its maps are walked. */
  datatype Slice = Slice(
    accounts: seq<(Address, Option<AccountInfo>)>, storage: seq<((Address, Word), Word)>, code: seq<(Word, Bytes)>)

  /** Where a thread is inside an operation. Each state's next step is one request to
      the server, or one critical section under the cache's lock. */
  datatype Local =
    | ReadAccount(a: Address)
    | FetchAccount(a: Address)
    | CheckCode(a: Address, info: AccountInfo)
    | FetchCode(a: Address, info: AccountInfo)
    | PutCode(a: Address, info: AccountInfo, code: Bytes)
    | PutAccount(a: Address, account: Option<AccountInfo>)
    | ReadSlot(a: Address, s: Word)
    | FetchSlot(a: Address, s: Word)
    | PutSlot(a: Address, s: Word, word: Word)
    | ReadCode(h: Word)
    | Prefetch(slice: Slice)
    | Pour(slice: Slice)
    | Returned(request: Request, answer: Answer)
    | Prefetched
    | Failed

  /** An account is a contract, as far as the client goes by its code hash. */
  predicate Contract(info: AccountInfo) {
    !NoCodeHash(info.codeHash)
  }

  function PourInto(c: Caches, slice: Slice): Caches {
    Caches(PutAll(c.accounts, slice.accounts), PutAll(c.storage, slice.storage), PutAll(c.code, slice.code))
  }

  /** One step of a thread, against a server that holds `t`. `up` says whether the
      request, if this step makes one, gets through. */
  function Move(t: Tables, c: Caches, l: Local, up: bool): (Caches, Local) {
    match l
    case ReadAccount(a) =>
      var (accounts, found) := c.accounts.Get(a);
      (c.(accounts := accounts),
       if found.Some? then Returned(AskAccount(a), AccountAnswer(found.value)) else FetchAccount(a))
    case FetchAccount(a) =>
      if !up then (c, Failed)
      else
        var account := BasicRef(t, a);
        (c, if account.Some? && Contract(account.value) then CheckCode(a, account.value) else PutAccount(a, account))
    case CheckCode(a, info) =>
      (c, if c.code.Contains(info.codeHash) then PutAccount(a, Some(info)) else FetchCode(a, info))
    case FetchCode(a, info) =>
      if !up then (c, Failed)
      else
        var code := CodeEndpoint(t, a);
        (c, if code.Some? then PutCode(a, info, code.value) else PutAccount(a, Some(info)))
    case PutCode(a, info, code) =>
      (c.(code := c.code.Put(info.codeHash, code)), PutAccount(a, Some(info)))
    case PutAccount(a, account) =>
      (c.(accounts := c.accounts.Put(a, account)), Returned(AskAccount(a), AccountAnswer(account)))
    case ReadSlot(a, s) =>
      var (storage, found) := c.storage.Get((a, s));
      (c.(storage := storage),
       if found.Some? then Returned(AskSlot(a, s), SlotAnswer(found.value)) else FetchSlot(a, s))
    case FetchSlot(a, s) =>
      if !up then (c, Failed) else (c, PutSlot(a, s, StorageRef(t, a, s)))
    case PutSlot(a, s, word) =>
      (c.(storage := c.storage.Put((a, s), word)), Returned(AskSlot(a, s), SlotAnswer(word)))
    case ReadCode(h) =>
      var (code, found) := c.code.Get(h);
      (c.(code := code), Returned(AskCode(h), CodeAnswer(found.UnwrapOr([]))))
    case Prefetch(slice) => if !up then (c, Failed) else (c, Pour(slice))
    case Pour(slice) => (PourInto(c, slice), Prefetched)
    case Returned(_, _) => (c, l)
    case Prefetched => (c, l)
    case Failed => (c, l)
  }

  /** `GET /v1/code/{addr}`: the code under the account's hash. */
  function CodeEndpoint(t: Tables, a: Address): Option<Bytes> {
    if a in t.accounts then Lookup(t.code, t.accounts[a].codeHash) else None
  }

  // ---- nothing untrue is ever cached or returned ----

  /** Every entry is what the server holds. */
  ghost predicate TrueSlice(t: Tables, slice: Slice) {
    && (forall i :: 0 <= i < |slice.accounts| ==> slice.accounts[i].1 == BasicRef(t, slice.accounts[i].0))
    && (forall i :: 0 <= i < |slice.storage| ==>
         slice.storage[i].1 == StorageRef(t, slice.storage[i].0.0, slice.storage[i].0.1))
    && (forall i :: 0 <= i < |slice.code| ==> Lookup(t.code, slice.code[i].0) == Some(slice.code[i].1))
  }

  function AccountTruth(t: Tables): (Address, Option<AccountInfo>) -> bool {
    (a: Address, account: Option<AccountInfo>) => account == BasicRef(t, a)
  }

  function SlotTruth(t: Tables): ((Address, Word), Word) -> bool {
    (k: (Address, Word), word: Word) => word == StorageRef(t, k.0, k.1)
  }

  function CodeTruth(t: Tables): (Word, Bytes) -> bool {
    (h: Word, code: Bytes) => Lookup(t.code, h) == Some(code)
  }

  ghost predicate TrueCaches(t: Tables, c: Caches) {
    c.accounts.Holds(AccountTruth(t)) && c.storage.Holds(SlotTruth(t)) && c.code.Holds(CodeTruth(t))
  }

  /** An account or slot read answers as the server would; a code read answers as the
      server would or, on a miss, with no code. */
  predicate AnswerOk(t: Tables, request: Request, answer: Answer) {
    answer == PlainAnswer(t, request) || (request.AskCode? && answer == CodeAnswer([]))
  }

  ghost predicate TrueLocal(t: Tables, l: Local) {
    match l
    case CheckCode(a, info) => BasicRef(t, a) == Some(info)
    case FetchCode(a, info) => BasicRef(t, a) == Some(info)
    case PutCode(a, info, code) => BasicRef(t, a) == Some(info) && Lookup(t.code, info.codeHash) == Some(code)
    case PutAccount(a, account) => account == BasicRef(t, a)
    case PutSlot(a, s, word) => word == StorageRef(t, a, s)
    case Prefetch(slice) => TrueSlice(t, slice)
    case Pour(slice) => TrueSlice(t, slice)
    case Returned(request, answer) => AnswerOk(t, request, answer)
    case _ => true
  }

  lemma PourTrue(t: Tables, c: Caches, slice: Slice)
    requires TrueCaches(t, c) && TrueSlice(t, slice)
    ensures TrueCaches(t, PourInto(c, slice))
  {
    PutAllHolds(c.accounts, slice.accounts, AccountTruth(t));
    PutAllHolds(c.storage, slice.storage, SlotTruth(t));
    PutAllHolds(c.code, slice.code, CodeTruth(t));
  }

  lemma ReadAccountTrue(t: Tables, c: Caches, a: Address, up: bool)
    requires TrueCaches(t, c)
    ensures TrueCaches(t, Move(t, c, ReadAccount(a), up).0) && TrueLocal(t, Move(t, c, ReadAccount(a), up).1)
  {
    GetHolds(c.accounts, a, AccountTruth(t));
  }

  lemma ReadSlotTrue(t: Tables, c: Caches, a: Address, s: Word, up: bool)
    requires TrueCaches(t, c)
    ensures TrueCaches(t, Move(t, c, ReadSlot(a, s), up).0) && TrueLocal(t, Move(t, c, ReadSlot(a, s), up).1)
  {
    GetHolds(c.storage, (a, s), SlotTruth(t));
  }

  lemma ReadCodeTrue(t: Tables, c: Caches, h: Word, up: bool)
    requires TrueCaches(t, c)
    ensures TrueCaches(t, Move(t, c, ReadCode(h), up).0) && TrueLocal(t, Move(t, c, ReadCode(h), up).1)
  {
    GetHolds(c.code, h, CodeTruth(t));
  }

  lemma MoveTrue(t: Tables, c: Caches, l: Local, up: bool)
    requires TrueCaches(t, c) && TrueLocal(t, l)
    ensures TrueCaches(t, Move(t, c, l, up).0) && TrueLocal(t, Move(t, c, l, up).1)
  {
    match l
    case ReadAccount(a) => ReadAccountTrue(t, c, a, up);
    case ReadSlot(a, s) => ReadSlotTrue(t, c, a, s, up);
    case ReadCode(h) => ReadCodeTrue(t, c, h, up);
    case PutCode(a, info, code) => PutHolds(c.code, info.codeHash, code, CodeTruth(t));
    case PutAccount(a, account) => PutHolds(c.accounts, a, account, AccountTruth(t));
    case PutSlot(a, s, word) => PutHolds(c.storage, (a, s), word, SlotTruth(t));
    case Pour(slice) => PourTrue(t, c, slice);
    case _ =>
  }

  // ---- any interleaving of any number of threads ----

  /** `known` collects the code hashes of the accounts that reads have returned. */
  datatype System = System(caches: Caches, threads: map<nat, Local>, known: set<Word>)

  datatype Event = Begin(thread: nat, op: Local) | Advance(thread: nat, up: bool)

  predicate Starts(op: Local) {
    op.ReadAccount? || op.ReadSlot? || op.ReadCode? || op.Prefetch?
  }

  predicate AtRest(l: Local) {
    l.Returned? || l.Prefetched? || l.Failed?
  }

  function Learned(l: Local): set<Word> {
    if l.Returned? && l.answer.AccountAnswer? && l.answer.info.Some? then {l.answer.info.value.codeHash} else {}
  }

  /** A thread at rest may begin an operation; a thread inside one may take its next step. */
  function Happen(t: Tables, s: System, e: Event): System {
    match e
    case Begin(i, op) =>
      if Starts(op) && (i in s.threads ==> AtRest(s.threads[i])) then s.(threads := s.threads[i := op]) else s
    case Advance(i, up) =>
      if i !in s.threads then s
      else
        var (caches, l) := Move(t, s.caches, s.threads[i], up);
        System(caches, s.threads[i := l], s.known + Learned(l))
  }

  function New(capacity: nat): System {
    System(Caches(Lru.New(capacity), Lru.New(capacity), Lru.New(capacity)), map[], {})
  }

  function After(t: Tables, capacity: nat, events: seq<Event>): System {
    if events == [] then New(capacity)
    else Happen(t, After(t, capacity, events[..|events| - 1]), events[|events| - 1])
  }

  /** What the server sends in a prefetch is true of it. */
  ghost predicate Honest(t: Tables, events: seq<Event>) {
    forall i :: 0 <= i < |events| && events[i].Begin? && events[i].op.Prefetch? ==> TrueSlice(t, events[i].op.slice)
  }

  ghost predicate TrueSystem(t: Tables, s: System) {
    TrueCaches(t, s.caches) && forall i :: i in s.threads ==> TrueLocal(t, s.threads[i])
  }

  lemma HappenTrue(t: Tables, s: System, e: Event)
    requires TrueSystem(t, s) && (e.Begin? && e.op.Prefetch? ==> TrueSlice(t, e.op.slice))
    ensures TrueSystem(t, Happen(t, s, e))
  {
    if e.Advance? && e.thread in s.threads { MoveTrue(t, s.caches, s.threads[e.thread], e.up); }
  }

  lemma NewTrue(t: Tables, capacity: nat)
    requires capacity > 0
    ensures TrueSystem(t, New(capacity))
  {
  }

  /** Whatever the capacity, the schedule, the failures and the evictions: every
      account and slot read that returns has returned what the server holds. */
  lemma {:induction false} CacheTransparent(t: Tables, capacity: nat, events: seq<Event>)
    requires capacity > 0 && Honest(t, events)
    ensures TrueSystem(t, After(t, capacity, events))
  {
    if events == [] {
      NewTrue(t, capacity);
    } else {
      CacheTransparent(t, capacity, events[..|events| - 1]);
      HappenTrue(t, After(t, capacity, events[..|events| - 1]), events[|events| - 1]);
    }
  }

  /** What it means for a thread that has read an account or a slot. */
  lemma ReadsReturnServerState(t: Tables, capacity: nat, events: seq<Event>, i: nat)
    requires capacity > 0 && Honest(t, events)
    requires i in After(t, capacity, events).threads && After(t, capacity, events).threads[i].Returned?
    ensures var l := After(t, capacity, events).threads[i];
      && (l.request.AskAccount? ==> l.answer == AccountAnswer(Lookup(t.accounts, l.request.address)))
      && (l.request.AskSlot? ==>
           l.answer == SlotAnswer(Lookup(t.storage, (l.request.address, l.request.slot)).UnwrapOr(0)))
      && (l.request.AskCode? ==> l.answer == CodeAnswer([]) || l.answer == CodeAnswer(CodeByHashRef(t, l.request.hash)))
  {
    CacheTransparent(t, capacity, events);
    assert TrueLocal(t, After(t, capacity, events).threads[i]);
  }
}
