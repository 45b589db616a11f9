/** The imperative block replay (crates/replayer/src/lib.rs), proved against `Replay`. */
module Replayer {
  import opened Types
  import opened StateTables
  import opened Store
  import opened Blocks
  import opened StateDiffs
  import opened Overlay
  import opened Flush
  import opened CacheDbs
  import opened Replay

  /** The loop state of a hash-map walk: `order` lists what has been visited. */
  ghost predicate Visited<T(!new)>(order: seq<T>, rest: set<T>, all: set<T>) {
    && rest <= all
    && Lists(order, all - rest)
  }

  lemma VisitNext<T(!new)>(order: seq<T>, rest: set<T>, all: set<T>, x: T)
    requires Visited(order, rest, all) && x in rest
    ensures Visited(order + [x], rest - {x}, all)
  {
  }

  /** The slots of one account, in whatever order the map yields them. */
  method FlushSlots(batch: WriteBatch, a: Address, storage: map<Word, Word>) returns (ghost slots: seq<Word>)
    requires batch.Valid()
    modifies batch
    ensures batch.Valid() && Lists(slots, storage.Keys)
    ensures batch.ops == old(batch.ops) + SlotOps(a, storage, slots)
  {
    slots := [];
    var rest := storage.Keys;
    while rest != {}
      invariant batch.Valid() && Visited(slots, rest, storage.Keys)
      invariant batch.ops == old(batch.ops) + SlotOps(a, storage, slots)
    {
      var s :| s in rest;
      VisitNext(slots, rest, storage.Keys, s);
      assert (slots + [s])[..|slots|] == slots;
      batch.SetStorage(a, s, storage[s]);
      rest, slots := rest - {s}, slots + [s];
    }
    assert storage.Keys - rest == storage.Keys;
  }

  method FlushAccount(batch: WriteBatch, a: Address, acc: DbAccount) returns (ghost slots: seq<Word>)
    requires batch.Valid()
    modifies batch
    ensures batch.Valid() && Lists(slots, acc.storage.Keys)
    ensures batch.ops == old(batch.ops) + AccountOps(a, acc, slots)
  {
    match acc.state
    case NotExisting =>
      var _ := batch.DeleteAccount(a);
      slots := AnyOrder(acc.storage.Keys);
    case Touched =>
      batch.SetAccount(a, acc.info);
      slots := FlushSlots(batch, a, acc.storage);
    case StorageCleared =>
      batch.SetAccount(a, acc.info);
      slots := FlushSlots(batch, a, acc.storage);
    case Loaded =>
      slots := AnyOrder(acc.storage.Keys);
  }

  lemma AnyOrder<T(!new)>(s: set<T>) returns (order: seq<T>)
    ensures Lists(order, s)
  {
    if s == {} {
      order := [];
    } else {
      var x :| x in s;
      order := AnyOrder(s - {x});
      order := order + [x];
    }
  }

  method FlushContracts(batch: WriteBatch, contracts: map<Word, Bytes>) returns (ghost hashes: seq<Word>)
    requires batch.Valid()
    modifies batch
    ensures batch.Valid() && Lists(hashes, contracts.Keys)
    ensures batch.ops == old(batch.ops) + ContractOps(contracts, hashes)
  {
    hashes := [];
    var rest := contracts.Keys;
    while rest != {}
      invariant batch.Valid() && Visited(hashes, rest, contracts.Keys)
      invariant batch.ops == old(batch.ops) + ContractOps(contracts, hashes)
    {
      var h :| h in rest;
      VisitNext(hashes, rest, contracts.Keys, h);
      assert (hashes + [h])[..|hashes|] == hashes;
      if contracts[h] != [] {
        batch.SetCode(h, contracts[h]);
      }
      rest, hashes := rest - {h}, hashes + [h];
    }
    assert contracts.Keys - rest == contracts.Keys;
  }

  lemma VisitsNext(
    c: Cache, visits: seq<(Address, seq<Word>)>, done: set<Address>, a: Address, slots: seq<Word>)
    requires VisitsAccounts(c, visits, done) && a in c.accounts && a !in done
    requires Lists(slots, c.accounts[a].storage.Keys)
    ensures VisitsAccounts(c, visits + [(a, slots)], done + {a})
    ensures AccountsOps(c, visits + [(a, slots)]) == AccountsOps(c, visits) + AccountOps(a, c.accounts[a], slots)
  {
    var visits' := visits + [(a, slots)];
    assert visits'[..|visits|] == visits;
    assert Addresses(visits') == Addresses(visits) + [a];
  }

  method FlushAccounts(batch: WriteBatch, cache: CacheDb) returns (ghost visits: seq<(Address, seq<Word>)>)
    requires batch.Valid() && batch.ops == []
    modifies batch
    ensures batch.Valid() && VisitsAccounts(cache.Model(), visits, cache.accounts.Keys)
    ensures batch.ops == AccountsOps(cache.Model(), visits)
  {
    ghost var c := cache.Model();
    ghost var done := {};
    visits := [];
    var rest := cache.accounts.Keys;
    while rest != {}
      invariant batch.Valid() && done !! rest && done + rest == c.accounts.Keys
      invariant VisitsAccounts(c, visits, done)
      invariant batch.ops == AccountsOps(c, visits)
    {
      var a :| a in rest;
      ghost var slots := FlushAccount(batch, a, cache.accounts[a]);
      VisitsNext(c, visits, done, a, slots);
      rest, done, visits := rest - {a}, done + {a}, visits + [(a, slots)];
    }
  }

  method BufferFlush(batch: WriteBatch, cache: CacheDb, number: Option<U64>) returns (ghost walk: WalkOrder)
    requires batch.Valid() && batch.ops == []
    modifies batch
    ensures batch.Valid() && Walks(cache.Model(), walk)
    ensures batch.ops == FlushOps(cache.Model(), walk, number)
  {
    ghost var c := cache.Model();
    ghost var visits := FlushAccounts(batch, cache);
    ghost var hashes := FlushContracts(batch, cache.contracts);
    walk := WalkOrder(visits, hashes);
    ghost var buffered := batch.ops;
    assert buffered == AccountsOps(c, visits) + ContractOps(c.contracts, hashes);
    if number.Some? {
      batch.SetHeadBlock(number.value);
    } else {
      assert buffered + [] == buffered;
    }
  }

  /** Writes the overlay to the database in one batch, whatever order its hash
      maps are walked in. */
  method FlushCacheToDb(db: StateDb, cache: CacheDb, number: Option<U64>)
    requires db.Valid()
    modifies db
    ensures db.Valid() && db.tables == Flushed(old(db.tables), cache.Model(), number)
    ensures db.history == old(db.history) + [db.tables]
  {
    var batch := new WriteBatch(db);
    ghost var walk := BufferFlush(batch, cache, number);
    FlushOrderIrrelevant(db.tables, cache.Model(), walk, number);
    batch.Commit();
  }

  /** The outcome of a block's replay. */
  ghost function ReplayOutcome(vm: Vm, t: Tables, block: Block): Result<BlockResult, Error> {
    match ExecTxs(t, vm, block, |block.transactions|)
    case Err(e) => Err(e)
    case Ok((_, results)) => Ok(BlockResult(block.number, results))
  }

  /** One turn of the transaction loop. */
  method ExecuteTx(vm: Vm, cache: CacheDb, block: Block, idx: nat) returns (r: Result<TxResult, Error>)
    requires cache.db.Valid() && idx < |block.transactions|
    modifies cache
    ensures ExecTx(cache.db.tables, vm, block, old(cache.Model()), idx) ==
      if r.Ok? then Ok((cache.Model(), r.value)) else Err(r.error)
  {
    var isSystem := IsSystemTx(block.transactions[idx]);
    if isSystem && block.stateDiffs != [] {
      return Ok(TxResult(0, true));
    }
    var finish := cache.Run(vm.execute(block, idx, isSystem));
    match finish {
      case Rejected(message) =>
        return Err(EvmError(block.number, idx, isSystem, message));
      case Executed(gasUsed, success, _, state) =>
        cache.CommitChanges(state);
        return Ok(TxResult(gasUsed, success));
    }
  }

  /** Executes a block's transactions over an overlay. */
  method ExecuteTxs(vm: Vm, cache: CacheDb, block: Block) returns (r: Result<seq<TxResult>, Error>)
    requires cache.db.Valid() && cache.Model() == EMPTY_CACHE
    modifies cache
    ensures match r {
      case Err(e) => ExecTxs(cache.db.tables, vm, block, |block.transactions|) == Err(e)
      case Ok(results) => ExecTxs(cache.db.tables, vm, block, |block.transactions|) == Ok((cache.Model(), results))
    }
  {
    var results := [];
    for idx := 0 to |block.transactions|
      invariant cache.db.Valid()
      invariant ExecTxs(cache.db.tables, vm, block, idx) == Ok((cache.Model(), results))
    {
      var executed := ExecuteTx(vm, cache, block, idx);
      if executed.Err? {
        ErrorSticks(cache.db.tables, vm, block, idx + 1, |block.transactions|);
        return Err(executed.error);
      }
      results := results + [executed.value];
    }
    return Ok(results);
  }

  /** The block's commits: the executed state and the head together, or, when the block
      carries state diffs, the executed state and then the diffs with the head. */
  method CommitBlock(p: Parsers, db: StateDb, cache: CacheDb, block: Block)
    requires db.Valid() && p.HashInjective()
    modifies db
    ensures db.Valid()
    ensures var states := CommitStates(p, old(db.tables), cache.Model(), block);
      db.tables == states[|states| - 1] && db.history == old(db.history) + states
  {
    if block.stateDiffs != [] {
      FlushCacheToDb(db, cache, None);
      ApplyStateDiffs(p, db, block);
    } else {
      FlushCacheToDb(db, cache, Some(block.number));
    }
  }

  /** Replays one block: on an execution error nothing is written; otherwise one
      commit, or, when the block carries state diffs, a commit of the executed
      state and then a commit of the diffs that alone moves the head. */
  method ReplayBlock(vm: Vm, p: Parsers, db: StateDb, block: Block) returns (r: Result<BlockResult, Error>)
    requires db.Valid() && p.HashInjective()
    modifies db
    ensures db.Valid() && r == ReplayOutcome(vm, old(db.tables), block)
    ensures r.Err? <==> BlockCommits(vm, p, old(db.tables), block).Err?
    ensures r.Err? ==> db.tables == old(db.tables) && db.history == old(db.history)
    ensures r.Ok? ==>
      var states := BlockCommits(vm, p, old(db.tables), block).value;
      db.tables == states[|states| - 1] && db.history == old(db.history) + states
  {
    var cache := new CacheDb(db);
    var executed := ExecuteTxs(vm, cache, block);
    if executed.Err? {
      return Err(executed.error);
    }
    CommitBlock(p, db, cache, block);
    return Ok(BlockResult(block.number, executed.value));
  }
}
