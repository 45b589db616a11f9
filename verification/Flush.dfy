/** Writing the overlay to the database (`flush_cache_to_db`, crates/replayer). */
module Flush {
  import opened Types
  import opened StateTables
  import opened Overlay

  /** What a flush writes to `key`, if it writes it at all. */
  function FlushWrite(c: Cache, number: Option<U64>, key: Key): Option<Option<Value>> {
    match key
    case AccountAt(a) =>
      if a !in c.accounts || c.accounts[a].state.Loaded? then None
      else if c.accounts[a].state.NotExisting? then Some(None)
      else Some(Some(AccountValue(c.accounts[a].info)))
    case SlotAt(a, s) =>
      if a in c.accounts && c.accounts[a].Written() && s in c.accounts[a].storage
      then Some(Some(SlotValue(c.accounts[a].storage[s]))) else None
    case CodeAt(h) =>
      if h in c.contracts && c.contracts[h] != [] then Some(Some(CodeValue(c.contracts[h]))) else None
    case HeadBlock =>
      if number.Some? then Some(Some(HeadValue(number.value))) else None
  }

  function FlushedAccounts(accounts: map<Address, AccountInfo>, c: Cache): map<Address, AccountInfo> {
    (accounts - (set a | a in c.accounts && c.accounts[a].state.NotExisting?)) +
    (map a | a in c.accounts && c.accounts[a].Written() :: c.accounts[a].info)
  }

  function WrittenSlots(c: Cache): set<(Address, Word)> {
    set a, s | a in c.accounts && c.accounts[a].Written() && s in c.accounts[a].storage :: (a, s)
  }

  function FlushedStorage(storage: map<(Address, Word), Word>, c: Cache): map<(Address, Word), Word> {
    storage + (map k | k in WrittenSlots(c) :: c.accounts[k.0].storage[k.1])
  }

  function FlushedCode(code: map<Word, Bytes>, c: Cache): map<Word, Bytes> {
    code + (map h | h in c.contracts && c.contracts[h] != [] :: c.contracts[h])
  }

  /** The tables after a flush. */
  function Flushed(base: Tables, c: Cache, number: Option<U64>): Tables {
    Tables(
      FlushedAccounts(base.accounts, c),
      FlushedStorage(base.storage, c),
      FlushedCode(base.code, c),
      if number.Some? then number else base.head)
  }

  lemma FlushedStorageAt(storage: map<(Address, Word), Word>, c: Cache, a: Address, s: Word)
    ensures Lookup(FlushedStorage(storage, c), (a, s)) ==
      if a in c.accounts && c.accounts[a].Written() && s in c.accounts[a].storage
      then Some(c.accounts[a].storage[s]) else Lookup(storage, (a, s))
  {
  }

  lemma FlushedAccountsAt(accounts: map<Address, AccountInfo>, c: Cache, a: Address)
    ensures Lookup(FlushedAccounts(accounts, c), a) ==
      if a !in c.accounts || c.accounts[a].state.Loaded? then Lookup(accounts, a)
      else if c.accounts[a].state.NotExisting? then None
      else Some(c.accounts[a].info)
  {
  }

  lemma FlushedReads(base: Tables, c: Cache, number: Option<U64>, key: Key)
    ensures Read(Flushed(base, c, number), key) == FlushWrite(c, number, key).UnwrapOr(Read(base, key))
  {
    match key
    case AccountAt(a) => FlushedAccountsAt(base.accounts, c, a);
    case SlotAt(a, s) => FlushedStorageAt(base.storage, c, a, s);
    case CodeAt(h) =>
    case HeadBlock =>
  }

  lemma EmptyWrites(key: Key)
    ensures FlushWrite(EMPTY_CACHE, None, key) == None
  {
  }

  lemma WritesNothing(t: Tables, c: Cache)
    requires forall key :: FlushWrite(c, None, key) == None
    ensures Flushed(t, c, None) == t
  {
    forall key ensures Read(Flushed(t, c, None), key) == Read(t, key) { FlushedReads(t, c, None, key); }
    ReadsDetermine(Flushed(t, c, None), t);
  }

  /** A new overlay flushes to nothing. */
  lemma EmptyFlush(t: Tables)
    ensures Flushed(t, EMPTY_CACHE, None) == t
  {
    forall key { EmptyWrites(key); }
    WritesNothing(t, EMPTY_CACHE);
  }

  /** A batch whose last writes are the flush's writes leaves the flushed tables. */
  lemma WritesFlush(base: Tables, c: Cache, number: Option<U64>, ops: seq<Op>)
    requires forall key :: LastWrite(ops, key) == FlushWrite(c, number, key)
    ensures Apply(base, ops) == Flushed(base, c, number)
  {
    forall key ensures Read(Apply(base, ops), key) == Read(Flushed(base, c, number), key) {
      ReadAfterApply(base, ops, key);
      FlushedReads(base, c, number, key);
    }
    ReadsDetermine(Apply(base, ops), Flushed(base, c, number));
  }

  // ---- the order the hash maps are walked in ----

  /** An order of walking the overlay's maps: accounts, each with an order of its
      slots, and contracts. */
  datatype WalkOrder = WalkOrder(accounts: seq<(Address, seq<Word>)>, contracts: seq<Word>)

  ghost predicate Lists<T(!new)>(xs: seq<T>, s: set<T>) {
    && (forall x :: x in xs <==> x in s)
    && (forall i, j :: 0 <= i < j < |xs| ==> xs[i] != xs[j])
  }

  function Addresses(visits: seq<(Address, seq<Word>)>): seq<Address> {
    seq(|visits|, i requires 0 <= i < |visits| => visits[i].0)
  }

  ghost predicate VisitsSlots(c: Cache, visit: (Address, seq<Word>)) {
    visit.0 in c.accounts && Lists(visit.1, c.accounts[visit.0].storage.Keys)
  }

  ghost predicate VisitsAccounts(c: Cache, visits: seq<(Address, seq<Word>)>, accounts: set<Address>) {
    && Lists(Addresses(visits), accounts)
    && forall i :: 0 <= i < |visits| ==> VisitsSlots(c, visits[i])
  }

  /** The walk visits every entry of every map exactly once. */
  ghost predicate Walks(c: Cache, walk: WalkOrder) {
    && VisitsAccounts(c, walk.accounts, c.accounts.Keys)
    && Lists(walk.contracts, c.contracts.Keys)
  }

  function SlotOp(a: Address, storage: map<Word, Word>, s: Word): seq<Op> {
    if s in storage then [SetStorage(a, s, storage[s])] else []
  }

  function SlotOps(a: Address, storage: map<Word, Word>, slots: seq<Word>): seq<Op> {
    if slots == [] then []
    else SlotOps(a, storage, slots[..|slots| - 1]) + SlotOp(a, storage, slots[|slots| - 1])
  }

  function AccountOps(a: Address, acc: DbAccount, slots: seq<Word>): seq<Op> {
    match acc.state
    case NotExisting => [DeleteAccount(a)]
    case Touched => [SetAccount(a, acc.info)] + SlotOps(a, acc.storage, slots)
    case StorageCleared => [SetAccount(a, acc.info)] + SlotOps(a, acc.storage, slots)
    case Loaded => []
  }

  function AccountsOps(c: Cache, visits: seq<(Address, seq<Word>)>): seq<Op> {
    if visits == [] then []
    else
      var (a, slots) := visits[|visits| - 1];
      AccountsOps(c, visits[..|visits| - 1]) +
      (if a in c.accounts then AccountOps(a, c.accounts[a], slots) else [])
  }

  function ContractOp(contracts: map<Word, Bytes>, h: Word): seq<Op> {
    if h in contracts && contracts[h] != [] then [SetCode(h, contracts[h])] else []
  }

  function ContractOps(contracts: map<Word, Bytes>, hashes: seq<Word>): seq<Op> {
    if hashes == [] then []
    else ContractOps(contracts, hashes[..|hashes| - 1]) + ContractOp(contracts, hashes[|hashes| - 1])
  }

  function FlushOps(c: Cache, walk: WalkOrder, number: Option<U64>): seq<Op> {
    AccountsOps(c, walk.accounts) + ContractOps(c.contracts, walk.contracts) +
    (if number.Some? then [SetHead(number.value)] else [])
  }

  /** What buffering the slots of `a` writes to a key under `a`. */
  function StoredSlot(a: Address, storage: map<Word, Word>, key: Key): Option<Option<Value>> {
    if key.SlotAt? && key.address == a && key.slot in storage then Some(Some(SlotValue(storage[key.slot]))) else None
  }

  lemma SlotOpWrite(a: Address, storage: map<Word, Word>, s: Word, key: Key)
    ensures LastWrite(SlotOp(a, storage, s), key) ==
      if key == SlotAt(a, s) then StoredSlot(a, storage, key) else None
  {
    SingletonWrite(SlotOp(a, storage, s), key);
  }

  lemma {:induction false} SlotOpsWrite(a: Address, storage: map<Word, Word>, slots: seq<Word>, key: Key)
    ensures LastWrite(SlotOps(a, storage, slots), key) ==
      if key.SlotAt? && key.slot in slots then StoredSlot(a, storage, key) else None
  {
    if slots != [] {
      var n := |slots| - 1;
      SlotOpsWrite(a, storage, slots[..n], key);
      LastWriteConcat(SlotOps(a, storage, slots[..n]), SlotOp(a, storage, slots[n]), key);
      SlotOpWrite(a, storage, slots[n], key);
      if key.SlotAt? { InLast(slots, key.slot); }
    }
  }

  function CodeWrite(contracts: map<Word, Bytes>, key: Key): Option<Option<Value>> {
    if key.CodeAt? && key.hash in contracts && contracts[key.hash] != []
    then Some(Some(CodeValue(contracts[key.hash]))) else None
  }

  lemma ContractOpWrite(contracts: map<Word, Bytes>, h: Word, key: Key)
    ensures LastWrite(ContractOp(contracts, h), key) == if key == CodeAt(h) then CodeWrite(contracts, key) else None
  {
    SingletonWrite(ContractOp(contracts, h), key);
  }

  lemma {:induction false} ContractOpsWrite(contracts: map<Word, Bytes>, hashes: seq<Word>, key: Key)
    ensures LastWrite(ContractOps(contracts, hashes), key) ==
      if key.CodeAt? && key.hash in hashes then CodeWrite(contracts, key) else None
  {
    if hashes != [] {
      var n := |hashes| - 1;
      ContractOpsWrite(contracts, hashes[..n], key);
      LastWriteConcat(ContractOps(contracts, hashes[..n]), ContractOp(contracts, hashes[n]), key);
      ContractOpWrite(contracts, hashes[n], key);
      if key.CodeAt? { InLast(hashes, key.hash); }
    }
  }

  lemma InLast<T>(xs: seq<T>, x: T)
    requires xs != []
    ensures x in xs <==> x in xs[..|xs| - 1] || x == xs[|xs| - 1]
  {
    assert xs == xs[..|xs| - 1] + [xs[|xs| - 1]];
  }

  lemma AccountOpsWrite(c: Cache, a: Address, slots: seq<Word>, key: Key)
    requires a in c.accounts && forall s :: s in c.accounts[a].storage ==> s in slots
    ensures LastWrite(AccountOps(a, c.accounts[a], slots), key) ==
      if Under(key, a) then FlushWrite(c, None, key) else None
  {
    var acc := c.accounts[a];
    if acc.Written() {
      SlotOpsWrite(a, acc.storage, slots, key);
      LastWriteConcat([SetAccount(a, acc.info)], SlotOps(a, acc.storage, slots), key);
      SingletonWrite([SetAccount(a, acc.info)], key);
    } else if acc.state.NotExisting? {
      SingletonWrite([DeleteAccount(a)], key);
    }
  }

  lemma {:induction false} AccountsOpsWrite(c: Cache, visits: seq<(Address, seq<Word>)>, key: Key)
    requires forall i :: 0 <= i < |visits| ==> VisitsSlots(c, visits[i])
    ensures LastWrite(AccountsOps(c, visits), key) ==
      if UnderAny(key, Addresses(visits)) then FlushWrite(c, None, key) else None
  {
    if visits != [] {
      var n := |visits| - 1;
      var (a, slots) := visits[n];
      assert VisitsSlots(c, visits[n]);
      AccountsOpsWrite(c, visits[..n], key);
      AccountOpsWrite(c, a, slots, key);
      LastWriteConcat(AccountsOps(c, visits[..n]), AccountOps(a, c.accounts[a], slots), key);
      assert Addresses(visits)[..n] == Addresses(visits[..n]);
      UnderLast(key, Addresses(visits));
    }
  }

  lemma FlushOpsWrite(c: Cache, walk: WalkOrder, number: Option<U64>, key: Key)
    requires Walks(c, walk)
    ensures LastWrite(FlushOps(c, walk, number), key) == FlushWrite(c, number, key)
  {
    var accounts := AccountsOps(c, walk.accounts);
    var contracts := ContractOps(c.contracts, walk.contracts);
    var head := if number.Some? then [SetHead(number.value)] else [];
    AccountsOpsWrite(c, walk.accounts, key);
    ContractOpsWrite(c.contracts, walk.contracts, key);
    LastWriteConcat(accounts, contracts, key);
    LastWriteConcat(accounts + contracts, head, key);
    SingletonWrite(head, key);
  }

  /** Every order of walking the hash maps produces a batch with the same effect. */
  lemma FlushOrderIrrelevant(base: Tables, c: Cache, walk: WalkOrder, number: Option<U64>)
    requires Walks(c, walk)
    ensures Apply(base, FlushOps(c, walk, number)) == Flushed(base, c, number)
  {
    forall key { FlushOpsWrite(c, walk, number, key); }
    WritesFlush(base, c, number, FlushOps(c, walk, number));
  }

  // ---- what the database answers after a flush ----

  function EffectiveState(base: Tables, c: Cache, a: Address): AccountState {
    if a in c.accounts then c.accounts[a].state
    else if a in base.accounts then Loaded
    else NotExisting
  }

  /** A nonzero stored slot of a cleared or absent account that the overlay does
      not mention: the flush leaves it on disk. */
  predicate Stale(base: Tables, c: Cache, a: Address, s: Word) {
    && (EffectiveState(base, c, a).StorageCleared? || EffectiveState(base, c, a).NotExisting?)
    && !(a in c.accounts && s in c.accounts[a].storage)
    && StorageRef(base, a, s) != 0
  }

  lemma SlotOnDisk(base: Tables, c: Cache, a: Address, s: Word, onDisk: Word)
    requires a in c.accounts ==> AccountOk(base, a, c.accounts[a])
    requires onDisk ==
      if a in c.accounts && c.accounts[a].Written() && s in c.accounts[a].storage
      then c.accounts[a].storage[s] else StorageRef(base, a, s)
    ensures onDisk == CachedSlot(base, c, a, s) <==> !Stale(base, c, a, s)
  {
  }

  lemma FlushedSlot(base: Tables, c: Cache, number: Option<U64>, a: Address, s: Word)
    requires CacheOk(base, c)
    ensures StorageRef(Flushed(base, c, number), a, s) == CachedSlot(base, c, a, s) <==> !Stale(base, c, a, s)
  {
    FlushedStorageAt(base.storage, c, a, s);
    SlotOnDisk(base, c, a, s, StorageRef(Flushed(base, c, number), a, s));
  }

  /** Accounts and code read as through the overlay; under the two hashes for no code the
      overlay has none, and the database what it had. */
  lemma FlushedAccountAndCode(base: Tables, c: Cache, number: Option<U64>, a: Address, h: Word)
    requires CacheOk(base, c)
    ensures BasicRef(Flushed(base, c, number), a) == CachedBasic(base, c, a)
    ensures CodeByHashRef(Flushed(base, c, number), h) ==
      if NoCodeHash(h) then CodeByHashRef(base, h) else CachedCode(base, c, h)
  {
    FlushedAccountsAt(base.accounts, c, a);
    if a in c.accounts { assert AccountOk(base, a, c.accounts[a]); }
  }
}
