/** Block execution over a write-back overlay, and its flush (crates/replayer).
    `CacheDb` is revm's `CacheDB`, which the replayer builds on: its reads and its
    `Commit` are assumed library behaviour. */
module Overlay {
  import opened Types
  import opened StateTables

  // ---- the read interface execution sees (revm_db.rs) ----

  function BasicRef(t: Tables, a: Address): Option<AccountInfo> {
    Lookup(t.accounts, a)
  }

  /** A slot that is not stored reads as zero. */
  function StorageRef(t: Tables, a: Address, s: Word): Word {
    Lookup(t.storage, (a, s)).UnwrapOr(0)
  }

  /** Code that is not stored reads as empty. */
  function CodeByHashRef(t: Tables, h: Word): Bytes {
    Lookup(t.code, h).UnwrapOr([])
  }

  // ---- transaction execution ----

  datatype Request = AskAccount(address: Address) | AskSlot(address: Address, slot: Word) | AskCode(hash: Word)

  datatype Answer = AccountAnswer(info: Option<AccountInfo>) | SlotAnswer(word: Word) | CodeAnswer(code: Bytes)

  /** What a transaction did to one account, in the terms of revm's `Account`. */
  datatype Change = Change(
    touched: bool,
    selfdestructed: bool,
    created: bool,
    info: AccountInfo,
    code: Option<Bytes>,
    storage: map<Word, Word>)
  {
    predicate Deploys() {
      touched && !selfdestructed && code.Some? && code.value != []
    }
  }

  /** Two changes never deploy different code under one hash. */
  ghost predicate Coherent(changes: map<Address, Change>) {
    forall a, b ::
      (&& a in changes && changes[a].Deploys()
       && b in changes && changes[b].Deploys()
       && changes[a].info.codeHash == changes[b].info.codeHash)
      ==> changes[a].code == changes[b].code
  }

  /** A transaction's state changes; code hashes do not collide. */
  type Changes = m: map<Address, Change> | Coherent(m)

  datatype Finish = Executed(gasUsed: U64, success: bool, output: Bytes, state: Changes) | Rejected(message: string)

  datatype Step = Ask(request: Request) | Halt(finish: Finish)

  /** One transaction's execution: an arbitrary deterministic strategy that reads
      state one request at a time, each request depending on the answers so far.
      Gas bounds the number of reads. */
  datatype Evm = Evm(limit: nat, next: seq<Answer> -> Step, outOfGas: seq<Answer> -> Finish)

  function PlainAnswer(w: Tables, r: Request): Answer {
    match r
    case AskAccount(a) => AccountAnswer(BasicRef(w, a))
    case AskSlot(a, s) => SlotAnswer(StorageRef(w, a, s))
    case AskCode(h) => CodeAnswer(CodeByHashRef(w, h))
  }

  /** Execution against plain tables. */
  function RunPlain(w: Tables, evm: Evm, answers: seq<Answer>): Finish
    requires |answers| <= evm.limit
    decreases evm.limit - |answers|
  {
    if |answers| == evm.limit then evm.outOfGas(answers)
    else
      match evm.next(answers)
      case Halt(f) => f
      case Ask(r) => RunPlain(w, evm, answers + [PlainAnswer(w, r)])
  }

  // ---- the overlay ----

  /** revm's `AccountState`; `Loaded` is its `None`. */
  datatype AccountState = NotExisting | Touched | StorageCleared | Loaded

  datatype DbAccount = DbAccount(info: AccountInfo, state: AccountState, storage: map<Word, Word>) {
    predicate Written() {
      state.Touched? || state.StorageCleared?
    }

    /** Slots the overlay does not hold read as zero rather than from the base. */
    predicate HidesBase() {
      state.StorageCleared? || state.NotExisting?
    }
  }

  datatype Cache = Cache(accounts: map<Address, DbAccount>, contracts: map<Word, Bytes>)

  /** A new overlay already has empty code under the two hashes that stand for none. */
  const EMPTY_CACHE := Cache(map[], map[0 := [], KECCAK_EMPTY := []])
  const DEFAULT_INFO := AccountInfo(0, 0, 0)
  const DEFAULT_ACCOUNT := DbAccount(DEFAULT_INFO, Loaded, map[])

  function CachedBasic(base: Tables, c: Cache, a: Address): Option<AccountInfo> {
    if a !in c.accounts then BasicRef(base, a)
    else if c.accounts[a].state.NotExisting? then None
    else Some(c.accounts[a].info)
  }

  function CachedSlot(base: Tables, c: Cache, a: Address, s: Word): Word {
    if a !in c.accounts then (if a in base.accounts then StorageRef(base, a, s) else 0)
    else if s in c.accounts[a].storage then c.accounts[a].storage[s]
    else if c.accounts[a].HidesBase() then 0
    else StorageRef(base, a, s)
  }

  function CachedCode(base: Tables, c: Cache, h: Word): Bytes {
    if h in c.contracts then c.contracts[h] else CodeByHashRef(base, h)
  }

  function CachedAnswer(base: Tables, c: Cache, r: Request): Answer {
    match r
    case AskAccount(a) => AccountAnswer(CachedBasic(base, c, a))
    case AskSlot(a, s) => SlotAnswer(CachedSlot(base, c, a, s))
    case AskCode(h) => CodeAnswer(CachedCode(base, c, h))
  }

  function LoadAccount(base: Tables, c: Cache, a: Address): Cache {
    if a in c.accounts then c
    else if a in base.accounts then
      c.(accounts := c.accounts[a := DbAccount(base.accounts[a], Loaded, map[])])
    else
      c.(accounts := c.accounts[a := DbAccount(DEFAULT_INFO, NotExisting, map[])])
  }

  /** A read also brings what it read into the overlay. */
  function Load(base: Tables, c: Cache, r: Request): Cache {
    match r
    case AskAccount(a) => LoadAccount(base, c, a)
    case AskSlot(a, s) =>
      var c' := LoadAccount(base, c, a);
      var acc := c'.accounts[a];
      if s in acc.storage || acc.HidesBase() then c'
      else c'.(accounts := c'.accounts[a := acc.(storage := acc.storage[s := StorageRef(base, a, s)])])
    case AskCode(h) =>
      if h in c.contracts then c else c.(contracts := c.contracts[h := CodeByHashRef(base, h)])
  }

  /** Execution through the overlay: the final overlay and the outcome. */
  function RunCached(base: Tables, c: Cache, evm: Evm, answers: seq<Answer>): (Cache, Finish)
    requires |answers| <= evm.limit
    decreases evm.limit - |answers|
  {
    if |answers| == evm.limit then (c, evm.outOfGas(answers))
    else
      match evm.next(answers)
      case Halt(f) => (c, f)
      case Ask(r) => RunCached(base, Load(base, c, r), evm, answers + [CachedAnswer(base, c, r)])
  }

  // ---- commit ----

  function DeployedHashes(changes: Changes): set<Word> {
    set a | a in changes && changes[a].Deploys() :: changes[a].info.codeHash
  }

  ghost function CodeUnder(changes: Changes, h: Word): (code: Bytes)
    requires h in DeployedHashes(changes)
    ensures code != []
    ensures forall a ::
      a in changes && changes[a].Deploys() && changes[a].info.codeHash == h ==> changes[a].code == Some(code)
  {
    var a :| a in changes && changes[a].Deploys() && changes[a].info.codeHash == h;
    changes[a].code.value
  }

  ghost function Deployed(changes: Changes): map<Word, Bytes> {
    map h | h in DeployedHashes(changes) :: CodeUnder(changes, h)
  }

  function CommitAccount(old_: DbAccount, ch: Change): DbAccount {
    if ch.selfdestructed then DbAccount(DEFAULT_INFO, NotExisting, map[])
    else if ch.created then DbAccount(ch.info, StorageCleared, ch.storage)
    else if old_.state.StorageCleared? then DbAccount(ch.info, StorageCleared, old_.storage + ch.storage)
    else DbAccount(ch.info, Touched, old_.storage + ch.storage)
  }

  /** `CacheDB::commit`. Code already in the overlay is kept. */
  ghost function Commit(c: Cache, changes: Changes): Cache
  {
    Cache(
      map a | a in c.accounts.Keys + changes.Keys && (a in c.accounts || changes[a].touched) ::
        if a in changes && changes[a].touched
        then CommitAccount(Lookup(c.accounts, a).UnwrapOr(DEFAULT_ACCOUNT), changes[a])
        else c.accounts[a],
      Deployed(changes) + c.contracts)
  }

  predicate Gone(changes: Changes, a: Address) {
    a in changes && changes[a].touched && changes[a].selfdestructed
  }

  predicate Updated(changes: Changes, a: Address) {
    a in changes && changes[a].touched && !changes[a].selfdestructed
  }

  predicate Wiped(changes: Changes, a: Address) {
    a in changes && changes[a].touched && (changes[a].selfdestructed || changes[a].created)
  }

  function PlainAccounts(accounts: map<Address, AccountInfo>, changes: Changes): map<Address, AccountInfo> {
    (map a | a in accounts && !Gone(changes, a) :: accounts[a]) +
    (map a | a in changes && Updated(changes, a) :: changes[a].info)
  }

  function ChangedSlots(changes: Changes): set<(Address, Word)> {
    set a, s | a in changes && Updated(changes, a) && s in changes[a].storage :: (a, s)
  }

  function PlainStorage(storage: map<(Address, Word), Word>, changes: Changes): map<(Address, Word), Word> {
    (map k | k in storage && !Wiped(changes, k.0) :: storage[k]) +
    (map k | k in ChangedSlots(changes) :: changes[k.0].storage[k.1])
  }

  /** The same changes applied to plain tables: a destroyed account loses its
      storage, a created one starts from empty storage. */
  ghost function PlainCommit(w: Tables, changes: Changes): Tables
  {
    Tables(PlainAccounts(w.accounts, changes), PlainStorage(w.storage, changes), w.code + Deployed(changes), w.head)
  }

  // ---- agreement of overlay and plain tables ----

  /** Every read through the overlay answers as the plain tables do. */
  ghost predicate Agrees(base: Tables, c: Cache, w: Tables) {
    forall r: Request :: CachedAnswer(base, c, r) == PlainAnswer(w, r)
  }

  /** What the overlay holds beyond changes is what it read from the base. */
  ghost predicate CacheOk(base: Tables, c: Cache) {
    && (forall a :: a in c.accounts ==> AccountOk(base, a, c.accounts[a]))
    && (forall h :: h in c.contracts && c.contracts[h] == [] ==> NoCodeHash(h) || CodeByHashRef(base, h) == [])
    && Preloaded(c.contracts)
  }

  predicate Preloaded(contracts: map<Word, Bytes>) {
    && 0 in contracts && contracts[0] == []
    && KECCAK_EMPTY in contracts && contracts[KECCAK_EMPTY] == []
  }

  predicate AccountOk(base: Tables, a: Address, acc: DbAccount) {
    && (acc.state.NotExisting? ==> acc.storage == map[])
    && (acc.state.Loaded? ==>
         && BasicRef(base, a) == Some(acc.info)
         && forall s :: s in acc.storage ==> acc.storage[s] == StorageRef(base, a, s))
  }

  lemma LoadAccountAnswers(base: Tables, c: Cache, a: Address, q: Request)
    ensures CachedAnswer(base, LoadAccount(base, c, a), q) == CachedAnswer(base, c, q)
  {
  }

  /** Reading changes no answer. */
  lemma LoadAnswers(base: Tables, c: Cache, r: Request, q: Request)
    ensures CachedAnswer(base, Load(base, c, r), q) == CachedAnswer(base, c, q)
  {
    if r.AskSlot? { LoadAccountAnswers(base, c, r.address, q); }
  }

  /** What has been read once is answered from the overlay, whatever the database then holds. */
  lemma LoadRemembers(base: Tables, base': Tables, c: Cache, r: Request)
    ensures CachedAnswer(base', Load(base, c, r), r) == CachedAnswer(base, c, r)
  {
  }

  lemma LoadKeepsOk(base: Tables, c: Cache, r: Request)
    requires CacheOk(base, c)
    ensures CacheOk(base, Load(base, c, r))
  {
    var c' := Load(base, c, r);
    forall a | a in c'.accounts ensures AccountOk(base, a, c'.accounts[a]) {
      if a in c.accounts { assert AccountOk(base, a, c.accounts[a]); }
    }
  }

  lemma {:induction false} RunsAgree(base: Tables, c: Cache, w: Tables, evm: Evm, answers: seq<Answer>)
    requires |answers| <= evm.limit && CacheOk(base, c) && Agrees(base, c, w)
    ensures RunCached(base, c, evm, answers).1 == RunPlain(w, evm, answers)
    ensures var c' := RunCached(base, c, evm, answers).0; CacheOk(base, c') && Agrees(base, c', w)
    decreases evm.limit - |answers|
  {
    if |answers| < evm.limit && evm.next(answers).Ask? {
      var r := evm.next(answers).request;
      LoadKeepsOk(base, c, r);
      forall q ensures CachedAnswer(base, Load(base, c, r), q) == PlainAnswer(w, q) { LoadAnswers(base, c, r, q); }
      RunsAgree(base, Load(base, c, r), w, evm, answers + [CachedAnswer(base, c, r)]);
    }
  }

  /** A touch without creation of an account that does not exist uncovers the
      base's slots under its address. */
  predicate Revives(base: Tables, c: Cache, changes: Changes, a: Address, s: Word) {
    && a in changes && changes[a].touched && !changes[a].selfdestructed && !changes[a].created
    && CachedBasic(base, c, a).None?
    && s !in changes[a].storage
    && StorageRef(base, a, s) != 0
  }

  /** Newly deployed code is dropped when the overlay holds other code under its hash. */
  predicate Masks(c: Cache, changes: Changes, a: Address) {
    && a in changes && changes[a].Deploys()
    && changes[a].info.codeHash in c.contracts
    && c.contracts[changes[a].info.codeHash] != changes[a].code.value
  }

  ghost predicate Clean(base: Tables, c: Cache, changes: Changes) {
    && (forall a, s :: !Revives(base, c, changes, a, s))
    && (forall a :: !Masks(c, changes, a))
  }

  function AccountAfter(c: Cache, changes: Changes, a: Address): Option<DbAccount> {
    if a in changes && changes[a].touched
    then Some(CommitAccount(Lookup(c.accounts, a).UnwrapOr(DEFAULT_ACCOUNT), changes[a]))
    else Lookup(c.accounts, a)
  }

  function PlainSlotAfter(w: Tables, changes: Changes, a: Address, s: Word): Word {
    if a !in changes || !changes[a].touched then StorageRef(w, a, s)
    else if changes[a].selfdestructed then 0
    else if s in changes[a].storage then changes[a].storage[s]
    else if changes[a].created then 0
    else StorageRef(w, a, s)
  }

  lemma CommitAt(c: Cache, changes: Changes, a: Address)
    ensures Lookup(Commit(c, changes).accounts, a) == AccountAfter(c, changes, a)
  {
  }

  lemma PlainAccountsAt(accounts: map<Address, AccountInfo>, changes: Changes, a: Address)
    ensures Lookup(PlainAccounts(accounts, changes), a) ==
      if Gone(changes, a) then None
      else if Updated(changes, a) then Some(changes[a].info)
      else Lookup(accounts, a)
  {
  }

  lemma PlainStorageAt(storage: map<(Address, Word), Word>, changes: Changes, a: Address, s: Word)
    ensures Lookup(PlainStorage(storage, changes), (a, s)) ==
      if Updated(changes, a) && s in changes[a].storage then Some(changes[a].storage[s])
      else if Wiped(changes, a) then None
      else Lookup(storage, (a, s))
  {
  }

  lemma DeployedNonEmpty(changes: Changes, h: Word)
    requires h in Deployed(changes)
    ensures Deployed(changes)[h] != []
  {
  }

  lemma ContractsOk(base: Tables, contracts: map<Word, Bytes>, deployed: map<Word, Bytes>, h: Word)
    requires forall h :: h in contracts && contracts[h] == [] ==> NoCodeHash(h) || CodeByHashRef(base, h) == []
    requires forall h :: h in deployed ==> deployed[h] != []
    ensures h in deployed + contracts && (deployed + contracts)[h] == [] ==>
      NoCodeHash(h) || CodeByHashRef(base, h) == []
  {
  }

  lemma CommitKeepsOk(base: Tables, c: Cache, changes: Changes)
    requires CacheOk(base, c)
    ensures CacheOk(base, Commit(c, changes))
  {
    var c' := Commit(c, changes);
    var accounts := c'.accounts;
    forall a | a in accounts ensures AccountOk(base, a, accounts[a]) {
      CommitAt(c, changes, a);
      AccountAfterOk(base, c, changes, a);
    }
    var deployed := Deployed(changes);
    forall h | h in deployed { DeployedNonEmpty(changes, h); }
    forall h { ContractsOk(base, c.contracts, deployed, h); }
  }

  lemma AccountAfterOk(base: Tables, c: Cache, changes: Changes, a: Address)
    requires CacheOk(base, c) && AccountAfter(c, changes, a).Some?
    ensures AccountOk(base, a, AccountAfter(c, changes, a).value)
  {
    if a in c.accounts { assert AccountOk(base, a, c.accounts[a]); }
  }

  lemma CommitBasic(base: Tables, c: Cache, c': Cache, w: Tables, changes: Changes, a: Address)
    requires CachedBasic(base, c, a) == BasicRef(w, a)
    requires Lookup(c'.accounts, a) == AccountAfter(c, changes, a)
    ensures CachedBasic(base, c', a) ==
      if Gone(changes, a) then None
      else if Updated(changes, a) then Some(changes[a].info)
      else BasicRef(w, a)
  {
  }

  lemma CommitSlot(base: Tables, c: Cache, c': Cache, w: Tables, changes: Changes, a: Address, s: Word)
    requires CachedSlot(base, c, a, s) == StorageRef(w, a, s)
    requires a in c.accounts ==> AccountOk(base, a, c.accounts[a])
    requires Lookup(c'.accounts, a) == AccountAfter(c, changes, a)
    ensures CachedSlot(base, c', a, s) == PlainSlotAfter(w, changes, a, s) <==> !Revives(base, c, changes, a, s)
  {
    if a in changes && changes[a].touched {
      assert a in c'.accounts;
    } else {
      assert a in c'.accounts <==> a in c.accounts;
    }
  }

  lemma CommitCode(base: Tables, contracts: map<Word, Bytes>, w: Tables, deployed: map<Word, Bytes>, h: Word)
    requires (if h in contracts then contracts[h] else CodeByHashRef(base, h)) == CodeByHashRef(w, h)
    ensures (if h in deployed + contracts then (deployed + contracts)[h] else CodeByHashRef(base, h))
      == Lookup(w.code + deployed, h).UnwrapOr([])
      <==> !(h in deployed && h in contracts && contracts[h] != deployed[h])
  {
  }

  lemma MaskedHash(c: Cache, changes: Changes, h: Word)
    ensures (h in Deployed(changes) && h in c.contracts && c.contracts[h] != Deployed(changes)[h])
      <==> exists a :: Masks(c, changes, a) && changes[a].info.codeHash == h
  {
    if h in Deployed(changes) {
      var a :| a in changes && changes[a].Deploys() && changes[a].info.codeHash == h;
      assert Deployed(changes)[h] == changes[a].code.value;
      if h in c.contracts && c.contracts[h] != Deployed(changes)[h] { assert Masks(c, changes, a); }
    }
  }

  /** A read of the overlay's keeps answering as the plain tables do. */
  ghost predicate Kept(base: Tables, c: Cache, changes: Changes, r: Request) {
    match r
    case AskAccount(_) => true
    case AskSlot(a, s) => !Revives(base, c, changes, a, s)
    case AskCode(h) => !exists a :: Masks(c, changes, a) && changes[a].info.codeHash == h
  }

  lemma CommitAnswer(base: Tables, c: Cache, w: Tables, changes: Changes, r: Request)
    requires CacheOk(base, c) && Agrees(base, c, w)
    ensures CachedAnswer(base, Commit(c, changes), r) == PlainAnswer(PlainCommit(w, changes), r)
      <==> Kept(base, c, changes, r)
  {
    var c' := Commit(c, changes);
    assert CachedAnswer(base, c, r) == PlainAnswer(w, r);
    match r
    case AskAccount(a) =>
      CommitAt(c, changes, a);
      PlainAccountsAt(w.accounts, changes, a);
      CommitBasic(base, c, c', w, changes, a);
    case AskSlot(a, s) =>
      CommitAt(c, changes, a);
      PlainStorageAt(w.storage, changes, a, s);
      CommitSlot(base, c, c', w, changes, a, s);
    case AskCode(h) =>
      CommitCode(base, c.contracts, w, Deployed(changes), h);
      MaskedHash(c, changes, h);
  }

  lemma AllKept(base: Tables, c: Cache, c': Cache, w': Tables, changes: Changes)
    requires forall r :: CachedAnswer(base, c', r) == PlainAnswer(w', r) <==> Kept(base, c, changes, r)
    ensures Agrees(base, c', w') <==> Clean(base, c, changes)
  {
    if Agrees(base, c', w') {
      forall a, s ensures !Revives(base, c, changes, a, s) {
        assert Kept(base, c, changes, AskSlot(a, s));
      }
      forall a | a in changes ensures !Masks(c, changes, a) {
        assert Kept(base, c, changes, AskCode(changes[a].info.codeHash));
      }
    }
  }

  /** A commit keeps the overlay in agreement with the plain tables exactly when
      it revives no slot and masks no code. */
  lemma CommitAgreesIff(base: Tables, c: Cache, w: Tables, changes: Changes)
    requires CacheOk(base, c) && Agrees(base, c, w)
    ensures Agrees(base, Commit(c, changes), PlainCommit(w, changes)) <==> Clean(base, c, changes)
  {
    forall r { CommitAnswer(base, c, w, changes, r); }
    AllKept(base, c, Commit(c, changes), PlainCommit(w, changes), changes);
  }
}
