/** The overlay object a block executes through: revm's `CacheDB` over a `StateDb`. */
module CacheDbs {
  import opened Types
  import opened StateTables
  import opened Store
  import opened Overlay

  /** The first-committed part of a change set: the changes of `done`. */
  ghost function Part(changes: Changes, done: set<Address>): Changes {
    map a | a in changes && a in done :: changes[a]
  }

  lemma PartNext(changes: Changes, done: set<Address>, a: Address)
    requires a in changes && a !in done
    ensures var before, after := Part(changes, done), Part(changes, done + {a});
      && a in after && after[a] == changes[a]
      && (forall b :: b in after <==> b == a || b in before)
      && (forall b :: b in before ==> b != a && after[b] == before[b])
  {
  }

  lemma PartDeployed(changes: Changes, done: set<Address>, a: Address, h: Word)
    requires a in changes && a !in done
    ensures Lookup(Deployed(Part(changes, done + {a})), h) ==
      if changes[a].Deploys() && changes[a].info.codeHash == h then Some(changes[a].code.value)
      else Lookup(Deployed(Part(changes, done)), h)
  {
    PartNext(changes, done, a);
    DeployedNext(Part(changes, done), Part(changes, done + {a}), a, h);
  }

  lemma DeployedNext(before: Changes, after: Changes, a: Address, h: Word)
    requires a in after && a !in before
    requires (forall b :: b in after <==> b == a || b in before) && forall b :: b in before ==> after[b] == before[b]
    ensures Lookup(Deployed(after), h) ==
      if after[a].Deploys() && after[a].info.codeHash == h then Some(after[a].code.value)
      else Lookup(Deployed(before), h)
  {
    if h in DeployedHashes(after) {
      var b :| b in after && after[b].Deploys() && after[b].info.codeHash == h;
      assert b == a || b in before;
    }
    if h in DeployedHashes(before) {
      var b :| b in before && before[b].Deploys() && before[b].info.codeHash == h;
      assert after[b].Deploys();
    }
  }

  lemma PartAll(changes: Changes)
    ensures Part(changes, changes.Keys) == changes
  {
  }

  lemma PartNone(c: Cache, changes: Changes)
    ensures Committed(c, changes, {}, c)
  {
    var none := Part(changes, {});
    assert none == map[];
    assert Deployed(none) == map[];
  }

  /** One account's change merged into the overlay. */
  function Merge(c: Cache, a: Address, ch: Change): Cache {
    Cache(
      if ch.touched then c.accounts[a := CommitAccount(Lookup(c.accounts, a).UnwrapOr(DEFAULT_ACCOUNT), ch)]
      else c.accounts,
      if ch.Deploys() && ch.info.codeHash !in c.contracts then c.contracts[ch.info.codeHash := ch.code.value]
      else c.contracts)
  }

  lemma MergeAccounts(c: Cache, changes: Changes, done: set<Address>, a: Address, b: Address)
    requires a in changes && a !in done
    ensures Lookup(Merge(Commit(c, Part(changes, done)), a, changes[a]).accounts, b) ==
      Lookup(Commit(c, Part(changes, done + {a})).accounts, b)
  {
    CommitAt(c, Part(changes, done), b);
    CommitAt(c, Part(changes, done), a);
    CommitAt(c, Part(changes, done + {a}), b);
  }

  lemma MergeContracts(c: Cache, changes: Changes, done: set<Address>, a: Address, h: Word)
    requires a in changes && a !in done
    ensures Lookup(Merge(Commit(c, Part(changes, done)), a, changes[a]).contracts, h) ==
      Lookup(Commit(c, Part(changes, done + {a})).contracts, h)
  {
    PartDeployed(changes, done, a, h);
    var before, after := Deployed(Part(changes, done)), Deployed(Part(changes, done + {a}));
    if changes[a].Deploys() && changes[a].info.codeHash in before {
      PartCoherent(changes, done, a);
    }
    PartContracts(c.contracts, before, after, changes[a], h);
  }

  lemma PartCoherent(changes: Changes, done: set<Address>, a: Address)
    requires a in changes && changes[a].Deploys() && changes[a].info.codeHash in Deployed(Part(changes, done))
    ensures Deployed(Part(changes, done))[changes[a].info.codeHash] == changes[a].code.value
  {
    var part := Part(changes, done);
    var b :| b in part && part[b].Deploys() && part[b].info.codeHash == changes[a].info.codeHash;
    assert changes[b] == part[b];
  }

  /** Merging the changes one account at a time commits the whole set. */
  lemma PartStep(c: Cache, changes: Changes, done: set<Address>, a: Address)
    requires a in changes && a !in done
    ensures Merge(Commit(c, Part(changes, done)), a, changes[a]) == Commit(c, Part(changes, done + {a}))
  {
    forall b { MergeAccounts(c, changes, done, a, b); }
    forall h { MergeContracts(c, changes, done, a, h); }
    var merged, committed := Merge(Commit(c, Part(changes, done)), a, changes[a]), Commit(c, Part(changes, done + {a}));
    SameLookups(merged.accounts, committed.accounts);
    SameLookups(merged.contracts, committed.contracts);
  }

  lemma PartContracts(old_: map<Word, Bytes>, before: map<Word, Bytes>, after: map<Word, Bytes>, ch: Change, h: Word)
    requires Lookup(after, h) ==
      if ch.Deploys() && ch.info.codeHash == h then Some(ch.code.value) else Lookup(before, h)
    requires ch.Deploys() && ch.info.codeHash in before ==> before[ch.info.codeHash] == ch.code.value
    ensures Lookup(after + old_, h) ==
      Lookup(if ch.Deploys() && ch.info.codeHash !in before + old_
             then (before + old_)[ch.info.codeHash := ch.code.value] else before + old_, h)
  {
  }

  lemma SameLookups<K, V>(m: map<K, V>, n: map<K, V>)
    requires forall k :: Lookup(m, k) == Lookup(n, k)
    ensures m == n
  {
    assert forall k :: (k in m <==> Lookup(m, k).Some?) && (k in n <==> Lookup(n, k).Some?);
    assert forall k :: k in m ==> m[k] == Lookup(m, k).value && n[k] == Lookup(n, k).value;
  }

  ghost predicate Committed(before: Cache, changes: Changes, done: set<Address>, now: Cache) {
    now == Commit(before, Part(changes, done))
  }

  lemma CommittedStep(before: Cache, changes: Changes, done: set<Address>, a: Address, now: Cache)
    requires a in changes && a !in done && Committed(before, changes, done, now)
    ensures Committed(before, changes, done + {a}, Merge(now, a, changes[a]))
  {
    PartStep(before, changes, done, a);
  }

  /** The overlay one block executes through. */
  class CacheDb {
    const db: StateDb
    var accounts: map<Address, DbAccount>
    var contracts: map<Word, Bytes>

    function Model(): Cache
      reads this
    {
      Cache(accounts, contracts)
    }

    constructor (db: StateDb)
      ensures this.db == db && Model() == EMPTY_CACHE
    {
      this.db := db;
      accounts, contracts := map[], map[0 := [], KECCAK_EMPTY := []];
    }

    method Basic(a: Address) returns (info: Option<AccountInfo>)
      requires db.Valid()
      modifies this
      ensures Model() == LoadAccount(db.tables, old(Model()), a)
      ensures info == CachedBasic(db.tables, old(Model()), a)
    {
      if a !in accounts {
        var stored := db.GetAccount(a);
        match stored.value {
          case Some(i) => accounts := accounts[a := DbAccount(i, Loaded, map[])];
          case None => accounts := accounts[a := DbAccount(DEFAULT_INFO, NotExisting, map[])];
        }
      }
      info := if accounts[a].state.NotExisting? then None else Some(accounts[a].info);
    }

    method Storage(a: Address, s: Word) returns (word: Word)
      requires db.Valid()
      modifies this
      ensures Model() == Load(db.tables, old(Model()), AskSlot(a, s))
      ensures word == CachedSlot(db.tables, old(Model()), a, s)
    {
      var _ := Basic(a);
      var acc := accounts[a];
      if s in acc.storage {
        word := acc.storage[s];
      } else if acc.HidesBase() {
        word := 0;
      } else {
        var stored := db.GetStorage(a, s);
        word := stored.value.UnwrapOr(0);
        accounts := accounts[a := acc.(storage := acc.storage[s := word])];
      }
    }

    method CodeByHash(h: Word) returns (code: Bytes)
      requires db.Valid()
      modifies this
      ensures Model() == Load(db.tables, old(Model()), AskCode(h))
      ensures code == CachedCode(db.tables, old(Model()), h)
    {
      if h !in contracts {
        var stored := db.GetCode(h);
        contracts := contracts[h := stored.UnwrapOr([])];
      }
      code := contracts[h];
    }

    /** Runs one transaction: each read is answered through the overlay. */
    method Run(evm: Evm) returns (finish: Finish)
      requires db.Valid()
      modifies this
      ensures (Model(), finish) == RunCached(db.tables, old(Model()), evm, [])
    {
      var answers: seq<Answer> := [];
      while |answers| < evm.limit
        invariant |answers| <= evm.limit && db.Valid()
        invariant RunCached(db.tables, Model(), evm, answers) == RunCached(db.tables, old(Model()), evm, [])
        decreases evm.limit - |answers|
      {
        match evm.next(answers) {
          case Halt(f) =>
            return f;
          case Ask(AskAccount(a)) =>
            var info := Basic(a);
            answers := answers + [AccountAnswer(info)];
          case Ask(AskSlot(a, s)) =>
            var word := Storage(a, s);
            answers := answers + [SlotAnswer(word)];
          case Ask(AskCode(h)) =>
            var code := CodeByHash(h);
            answers := answers + [CodeAnswer(code)];
        }
      }
      finish := evm.outOfGas(answers);
    }

    /** Merges a change set, account by account in whatever order. */
    method CommitChanges(changes: Changes)
      modifies this
      ensures Model() == Commit(old(Model()), changes)
    {
      ghost var before := Model();
      ghost var done := {};
      var rest := changes.Keys;
      PartNone(before, changes);
      while rest != {}
        invariant done !! rest && done + rest == changes.Keys
        invariant Committed(before, changes, done, Model())
      {
        var a :| a in rest;
        CommittedStep(before, changes, done, a, Model());
        rest, done := rest - {a}, done + {a};
        CommitOne(a, changes[a]);
      }
      PartAll(changes);
    }

    method CommitOne(a: Address, ch: Change)
      modifies this
      ensures Model() == Merge(old(Model()), a, ch)
    {
      if !ch.touched { return; }
      var acc := if a in accounts then accounts[a] else DEFAULT_ACCOUNT;
      if ch.selfdestructed {
        accounts := accounts[a := DbAccount(DEFAULT_INFO, NotExisting, map[])];
        return;
      }
      if ch.code.Some? && ch.code.value != [] && ch.info.codeHash !in contracts {
        contracts := contracts[ch.info.codeHash := ch.code.value];
      }
      if ch.created {
        accounts := accounts[a := DbAccount(ch.info, StorageCleared, ch.storage)];
      } else {
        var state := if acc.state.StorageCleared? then StorageCleared else Touched;
        accounts := accounts[a := DbAccount(ch.info, state, acc.storage + ch.storage)];
      }
    }
  }
}
