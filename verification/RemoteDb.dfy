/** The native client's remote database and call interface (crates/client), proved
    against the stepwise model of its caches. */
module RemoteDbs {
  import opened Types
  import opened StateTables
  import opened Overlay
  import opened Lru
  import opened ClientCache
  import opened CodeCache

  /** A thread that runs on its own. `net(j)` says whether the request of its step
      `j` gets through. */
  function Steps(t: Tables, c: Caches, l: Local, net: nat -> bool, n: nat): (Caches, Local) {
    if n == 0 then (c, l)
    else
      var (c', l') := Steps(t, c, l, net, n - 1);
      Move(t, c', l', net(n - 1))
  }

  /** No operation takes more steps than this. */
  const OPERATION := 6

  lemma {:induction false} RestStays(t: Tables, c: Caches, l: Local, net: nat -> bool, n: nat, m: nat)
    requires n <= m && AtRest(Steps(t, c, l, net, n).1)
    ensures Steps(t, c, l, net, m) == Steps(t, c, l, net, n)
    decreases m
  {
    if n < m { RestStays(t, c, l, net, n, m - 1); }
  }

  lemma NextStep(t: Tables, c: Caches, l: Local, net: nat -> bool, n: nat, c': Caches, l': Local)
    requires Steps(t, c, l, net, n) == (c', l')
    ensures Steps(t, c, l, net, n + 1) == Move(t, c', l', net(n))
  {
  }

  class RemoteDB {
    var accounts: LruCache<Address, Option<AccountInfo>>
    var storage: LruCache<(Address, Word), Word>
    var code: LruCache<Word, Bytes>

    function Model(): Caches
      reads this
    {
      Caches(accounts, storage, code)
    }

    constructor (capacity: nat)
      requires capacity > 0
      ensures Model() == ClientCache.New(capacity).caches
    {
      accounts, storage, code := Lru.New(capacity), Lru.New(capacity), Lru.New(capacity);
    }

    method FetchCodeForAddress(t: Tables, net: nat -> bool, a: Address, info: AccountInfo) returns (ok: bool)
      modifies this`code
      ensures var (c, l) := Move(t, old(Model()), CheckCode(a, info), net(2));
        if l.PutAccount? then ok && Model() == c
        else
          ok == net(3) &&
          var (c', l') := Move(t, c, l, net(3));
          Model() == if l'.PutCode? then Move(t, c', l', net(4)).0 else c'
    {
      if code.Contains(info.codeHash) {
        return true;
      }
      if !net(3) {
        return false;
      }
      var response := CodeEndpoint(t, a);
      if response.Some? {
        code := code.Put(info.codeHash, response.value);
      }
      return true;
    }

    /** Reads an account from the server, and proactively its code; `Err` when a
        request does not get through. */
    method FetchAccount(t: Tables, net: nat -> bool, a: Address) returns (r: Result<Option<AccountInfo>, string>)
      modifies this`code
      ensures var (c, l) := Fetched(t, old(Model()), net, a);
        Model() == c && l == (if r.Ok? then PutAccount(a, r.value) else Failed)
    {
      if !net(1) {
        return Err("server error");
      }
      var account := Overlay.BasicRef(t, a);
      if account.Some? && Contract(account.value) {
        var ok := FetchCodeForAddress(t, net, a, account.value);
        if !ok {
          return Err("server error");
        }
      }
      return Ok(account);
    }

    method BasicRef(t: Tables, net: nat -> bool, a: Address) returns (r: Result<Option<AccountInfo>, string>)
      modifies this
      ensures var (c, l) := Steps(t, old(Model()), ReadAccount(a), net, OPERATION);
        Model() == c && l == (if r.Ok? then Returned(AskAccount(a), AccountAnswer(r.value)) else Failed)
    {
      ghost var before := Model();
      var (touched, cached) := accounts.Get(a);
      accounts := touched;
      if cached.Some? {
        NextStep(t, before, ReadAccount(a), net, 0, before, ReadAccount(a));
        RestStays(t, before, ReadAccount(a), net, 1, OPERATION);
        return Ok(cached.value);
      }
      MissedSteps(t, before, net, a);
      r := FetchAccount(t, net, a);
      if r.Ok? {
        accounts := accounts.Put(a, r.value);
      }
    }

    method StorageRef(t: Tables, net: nat -> bool, a: Address, s: Word) returns (r: Result<Word, string>)
      modifies this
      ensures var (c, l) := Steps(t, old(Model()), ReadSlot(a, s), net, OPERATION);
        Model() == c && l == (if r.Ok? then Returned(AskSlot(a, s), SlotAnswer(r.value)) else Failed)
    {
      ghost var before := Model();
      var (touched, cached) := storage.Get((a, s));
      storage := touched;
      NextStep(t, before, ReadSlot(a, s), net, 0, before, ReadSlot(a, s));
      if cached.Some? {
        RestStays(t, before, ReadSlot(a, s), net, 1, OPERATION);
        return Ok(cached.value);
      }
      NextStep(t, before, ReadSlot(a, s), net, 1, Model(), FetchSlot(a, s));
      if !net(1) {
        RestStays(t, before, ReadSlot(a, s), net, 2, OPERATION);
        return Err("server error");
      }
      var value := Overlay.StorageRef(t, a, s);
      NextStep(t, before, ReadSlot(a, s), net, 2, Model(), PutSlot(a, s, value));
      RestStays(t, before, ReadSlot(a, s), net, 3, OPERATION);
      storage := storage.Put((a, s), value);
      return Ok(value);
    }

    method CodeByHashRef(t: Tables, net: nat -> bool, h: Word) returns (bytes: Bytes)
      modifies this
      ensures Steps(t, old(Model()), ReadCode(h), net, OPERATION) == (Model(), Returned(AskCode(h), CodeAnswer(bytes)))
    {
      ghost var before := Model();
      var (touched, cached) := code.Get(h);
      code := touched;
      NextStep(t, before, ReadCode(h), net, 0, before, ReadCode(h));
      RestStays(t, before, ReadCode(h), net, 1, OPERATION);
      return cached.UnwrapOr([]);
    }

    /** Fills the caches with a slice, in the order its maps are walked. */
    method Prefetch(slice: Slice)
      modifies this
      ensures Model() == PourInto(old(Model()), slice)
    {
      for i := 0 to |slice.accounts|
        invariant accounts == PutAll(old(accounts), slice.accounts[..i]) && storage == old(storage) && code == old(code)
      {
        assert slice.accounts[..i + 1][..i] == slice.accounts[..i];
        accounts := accounts.Put(slice.accounts[i].0, slice.accounts[i].1);
      }
      assert slice.accounts[..|slice.accounts|] == slice.accounts;
      PrefetchRest(slice);
    }

    method PrefetchRest(slice: Slice)
      modifies this
      ensures Model() == old(Model()).(
        storage := PutAll(old(storage), slice.storage), code := PutAll(old(code), slice.code))
    {
      for i := 0 to |slice.storage|
        invariant storage == PutAll(old(storage), slice.storage[..i]) && accounts == old(accounts) && code == old(code)
      {
        assert slice.storage[..i + 1][..i] == slice.storage[..i];
        storage := storage.Put(slice.storage[i].0, slice.storage[i].1);
      }
      assert slice.storage[..|slice.storage|] == slice.storage;
      for i := 0 to |slice.code|
        invariant code == PutAll(old(code), slice.code[..i]) && accounts == old(accounts)
        invariant storage == PutAll(old(storage), slice.storage)
      {
        assert slice.code[..i + 1][..i] == slice.code[..i];
        code := code.Put(slice.code[i].0, slice.code[i].1);
      }
      assert slice.code[..|slice.code|] == slice.code;
    }
  }

  /** From the account request to the point where the account is about to be cached. */
  function Fetched(t: Tables, c: Caches, net: nat -> bool, a: Address): (Caches, Local) {
    var (c2, l2) := Move(t, c, Local.FetchAccount(a), net(1));
    if !l2.CheckCode? then (c2, l2)
    else
      var (c3, l3) := Move(t, c2, l2, net(2));
      if !l3.FetchCode? then (c3, l3)
      else
        var (c4, l4) := Move(t, c3, l3, net(3));
        if !l4.PutCode? then (c4, l4) else Move(t, c4, l4, net(4))
  }

  /** A missed account read fetches, and then caches what it fetched. */
  lemma MissedSteps(t: Tables, c: Caches, net: nat -> bool, a: Address)
    requires a !in c.accounts.entries
    ensures var (c', l') := Fetched(t, c, net, a);
      Steps(t, c, ReadAccount(a), net, OPERATION) == Move(t, c', l', true)
  {
    var l := ReadAccount(a);
    var (c2, l2) := Move(t, c, Local.FetchAccount(a), net(1));
    NextStep(t, c, l, net, 0, c, l);
    NextStep(t, c, l, net, 1, c, Local.FetchAccount(a));
    NextStep(t, c, l, net, 2, c2, l2);
    var (c3, l3) := Move(t, c2, l2, net(2));
    NextStep(t, c, l, net, 3, c3, l3);
    var (c4, l4) := Move(t, c3, l3, net(3));
    NextStep(t, c, l, net, 4, c4, l4);
    var (c5, l5) := Move(t, c4, l4, net(4));
    NextStep(t, c, l, net, 5, c5, l5);
  }
}
