/** Applying a block's state diffs to the database (`apply_state_diffs`, crates/replayer). */
module StateDiffs {
  import opened Types
  import opened StateTables
  import opened Store
  import opened Blocks

  /** The text parsers and the code hash, as arbitrary total functions. */
  datatype Parsers = Parsers(
    u64: string -> Option<U64>,
    u256: string -> Option<Word>,
    bytes: string -> Option<Bytes>,
    b256: string -> Option<Word>,
    keccak: Bytes -> Word)
  {
    ghost predicate HashInjective() {
      forall x, y :: keccak(x) == keccak(y) ==> x == y
    }
  }

  const NEW_ACCOUNT := AccountInfo(0, 0, 0)

  function StripHex(s: string): string {
    if |s| >= 2 && s[..2] == "0x" then s[2..] else s
  }

  // ---- what one diff asks for ----

  datatype Effect =
    | NewNonce(nonce: U64)
    | NewBalance(balance: Word)
    | NewCode(hash: Word, code: Bytes)
    | PutSlot(slot: Word, value: Word)
    | DropSlot(slot: Word)
    | Nothing

  function EffectOf(p: Parsers, d: StateDiff): Effect {
    if d.key.None? || d.next.None? then Nothing
    else
      var key, hex := d.key.value, StripHex(d.next.value);
      if key == "nonce" then NewNonce(p.u64(hex).UnwrapOr(0))
      else if key == "balance" then NewBalance(p.u256(hex).UnwrapOr(0))
      else if key == "code" then
        match p.bytes(hex)
        case Some(code) => NewCode(p.keccak(code), code)
        case None => Nothing
      else
        match p.b256(key)
        case None => Nothing
        case Some(slot) => if d.kind == Some("-") then DropSlot(slot) else PutSlot(slot, p.u256(hex).UnwrapOr(0))
  }

  predicate DeletesAccount(d: StateDiff) {
    d.kind == Some("-") && d.key.Some? && d.key.value in ["balance", "nonce", "code"]
  }

  function UpdateInfo(info: AccountInfo, e: Effect): AccountInfo {
    match e
    case NewNonce(n) => info.(nonce := n)
    case NewBalance(b) => info.(balance := b)
    case NewCode(h, _) => info.(codeHash := h)
    case _ => info
  }

  function EffectOps(a: Address, e: Effect): seq<Op> {
    match e
    case NewCode(h, c) => [SetCode(h, c)]
    case PutSlot(s, v) => [SetStorage(a, s, v)]
    case DropSlot(s) => [DeleteStorage(a, s)]
    case _ => []
  }

  function InfoOr(t: Tables, a: Address): AccountInfo {
    Lookup(t.accounts, a).UnwrapOr(NEW_ACCOUNT)
  }

  /** Addresses with an account-level deletion anywhere in the block. */
  function Doomed(ds: seq<StateDiff>): set<Address> {
    set d | d in ds && d.address.Some? && DeletesAccount(d) :: d.address.value
  }

  // ---- the reference: one diff after the other ----

  /** One diff on its own: read the account, update it, write it back. */
  function ApplyDiff(p: Parsers, t: Tables, a: Address, d: StateDiff): Tables {
    var e := EffectOf(p, d);
    Apply(t, EffectOps(a, e) + [SetAccount(a, UpdateInfo(InfoOr(t, a), e))])
  }

  function ApplyDiffs(p: Parsers, t: Tables, ds: seq<StateDiff>, doomed: set<Address>): Tables {
    if ds == [] then t
    else
      var d := ds[|ds| - 1];
      var u := ApplyDiffs(p, t, ds[..|ds| - 1], doomed);
      if d.address.None? || d.address.value in doomed then u else ApplyDiff(p, u, d.address.value, d)
  }

  /** A block's diffs in block order: doomed accounts go and their other diffs
      are ignored; then the head moves. */
  function Diffed(p: Parsers, t: Tables, block: Block): Tables {
    var doomed := Doomed(block.stateDiffs);
    ApplyDiffs(p, t.(accounts := t.accounts - doomed), block.stateDiffs, doomed).(head := Some(block.number))
  }

  // ---- key by key ----

  function Mine(ds: seq<StateDiff>, a: Address): seq<StateDiff> {
    if ds == [] then []
    else Mine(ds[..|ds| - 1], a) + (if ds[|ds| - 1].address == Some(a) then [ds[|ds| - 1]] else [])
  }

  function FoldInfo(p: Parsers, info: AccountInfo, ds: seq<StateDiff>): AccountInfo {
    if ds == [] then info else UpdateInfo(FoldInfo(p, info, ds[..|ds| - 1]), EffectOf(p, ds[|ds| - 1]))
  }

  function SlotWrite(e: Effect, s: Word): Option<Option<Value>> {
    if e.PutSlot? && e.slot == s then Some(Some(SlotValue(e.value)))
    else if e.DropSlot? && e.slot == s then Some(None)
    else None
  }

  function LastSlot(p: Parsers, ds: seq<StateDiff>, s: Word): Option<Option<Value>> {
    if ds == [] then None
    else
      var w := SlotWrite(EffectOf(p, ds[|ds| - 1]), s);
      if w.Some? then w else LastSlot(p, ds[..|ds| - 1], s)
  }

  /** The code some live diff deploys under `h`. */
  function LastCode(p: Parsers, ds: seq<StateDiff>, doomed: set<Address>, h: Word): Option<Option<Value>> {
    if ds == [] then None
    else
      var d := ds[|ds| - 1];
      if d.address.Some? && d.address.value !in doomed && EffectOf(p, d).NewCode? && EffectOf(p, d).hash == h
      then Some(Some(CodeValue(EffectOf(p, d).code)))
      else LastCode(p, ds[..|ds| - 1], doomed, h)
  }

  /** What the block's diffs write to `key`, if they write it at all. */
  function DiffWrite(p: Parsers, t: Tables, ds: seq<StateDiff>, doomed: set<Address>, key: Key): Option<Option<Value>> {
    match key
    case AccountAt(a) =>
      if a in doomed || Mine(ds, a) == [] then None
      else Some(Some(AccountValue(FoldInfo(p, InfoOr(t, a), Mine(ds, a)))))
    case SlotAt(a, s) => if a in doomed then None else LastSlot(p, Mine(ds, a), s)
    case CodeAt(h) => LastCode(p, ds, doomed, h)
    case HeadBlock => None
  }

  function ReadAfterDiff(p: Parsers, t: Tables, a: Address, d: StateDiff, key: Key): Option<Value> {
    var e := EffectOf(p, d);
    match key
    case AccountAt(b) => if b == a then Some(AccountValue(UpdateInfo(InfoOr(t, a), e))) else Read(t, key)
    case SlotAt(b, s) => if b == a then SlotWrite(e, s).UnwrapOr(Read(t, key)) else Read(t, key)
    case CodeAt(h) => if e.NewCode? && e.hash == h then Some(CodeValue(e.code)) else Read(t, key)
    case HeadBlock => Read(t, key)
  }

  lemma ApplyDiffAt(p: Parsers, t: Tables, a: Address, d: StateDiff, key: Key)
    ensures Read(ApplyDiff(p, t, a, d), key) == ReadAfterDiff(p, t, a, d, key)
  {
    var e := EffectOf(p, d);
    var set_ := SetAccount(a, UpdateInfo(InfoOr(t, a), e));
    ReadAfterApply(t, EffectOps(a, e) + [set_], key);
    LastWriteConcat(EffectOps(a, e), [set_], key);
    EffectOpsWrite(a, e, key);
    SingletonWrite([set_], key);
  }

  lemma MineStep(ds: seq<StateDiff>, a: Address)
    requires ds != []
    ensures ds[|ds| - 1].address != Some(a) ==> Mine(ds, a) == Mine(ds[..|ds| - 1], a)
    ensures ds[|ds| - 1].address == Some(a) ==>
      var mine := Mine(ds, a);
      mine != [] && mine[|mine| - 1] == ds[|ds| - 1] && mine[..|mine| - 1] == Mine(ds[..|ds| - 1], a)
  {
  }

  lemma FoldInfoStep(p: Parsers, info: AccountInfo, ds: seq<StateDiff>, a: Address)
    requires ds != [] && ds[|ds| - 1].address == Some(a)
    ensures FoldInfo(p, info, Mine(ds, a)) ==
      UpdateInfo(FoldInfo(p, info, Mine(ds[..|ds| - 1], a)), EffectOf(p, ds[|ds| - 1]))
  {
    MineStep(ds, a);
  }

  lemma LastSlotStep(p: Parsers, ds: seq<StateDiff>, a: Address, s: Word)
    requires ds != [] && ds[|ds| - 1].address == Some(a)
    ensures var w := SlotWrite(EffectOf(p, ds[|ds| - 1]), s);
      LastSlot(p, Mine(ds, a), s) == if w.Some? then w else LastSlot(p, Mine(ds[..|ds| - 1], a), s)
  {
    MineStep(ds, a);
  }

  /** One more diff of a live address, key by key. */
  lemma DiffWriteStep(p: Parsers, t: Tables, u: Tables, ds: seq<StateDiff>, doomed: set<Address>, a: Address, key: Key)
    requires ds != [] && ds[|ds| - 1].address == Some(a) && a !in doomed
    requires var init := ds[..|ds| - 1];
      && Read(u, key) == DiffWrite(p, t, init, doomed, key).UnwrapOr(Read(t, key))
      && InfoOr(u, a) == FoldInfo(p, InfoOr(t, a), Mine(init, a))
    ensures ReadAfterDiff(p, u, a, ds[|ds| - 1], key) == DiffWrite(p, t, ds, doomed, key).UnwrapOr(Read(t, key))
  {
    if (key.AccountAt? || key.SlotAt?) && key.address != a {
      MineStep(ds, key.address);
    } else if key.AccountAt? {
      MineStep(ds, a);
      FoldInfoStep(p, InfoOr(t, a), ds, a);
    } else if key.SlotAt? {
      LastSlotStep(p, ds, a, key.slot);
    }
  }

  lemma DiffWriteSkip(p: Parsers, t: Tables, ds: seq<StateDiff>, doomed: set<Address>, key: Key)
    requires ds != [] && (ds[|ds| - 1].address.None? || ds[|ds| - 1].address.value in doomed)
    ensures DiffWrite(p, t, ds, doomed, key) == DiffWrite(p, t, ds[..|ds| - 1], doomed, key)
  {
    if key.AccountAt? || key.SlotAt? { MineStep(ds, key.address); }
  }

  lemma InfoAfter(p: Parsers, t: Tables, u: Tables, ds: seq<StateDiff>, doomed: set<Address>, a: Address)
    requires a !in doomed
    requires Read(u, AccountAt(a)) == DiffWrite(p, t, ds, doomed, AccountAt(a)).UnwrapOr(Read(t, AccountAt(a)))
    ensures InfoOr(u, a) == FoldInfo(p, InfoOr(t, a), Mine(ds, a))
  {
  }

  lemma {:induction false} ApplyDiffsAt(p: Parsers, t: Tables, ds: seq<StateDiff>, doomed: set<Address>, key: Key)
    ensures Read(ApplyDiffs(p, t, ds, doomed), key) == DiffWrite(p, t, ds, doomed, key).UnwrapOr(Read(t, key))
  {
    if ds != [] {
      var init, d := ds[..|ds| - 1], ds[|ds| - 1];
      ApplyDiffsAt(p, t, init, doomed, key);
      if d.address.None? || d.address.value in doomed {
        DiffWriteSkip(p, t, ds, doomed, key);
      } else {
        var a := d.address.value;
        var u := ApplyDiffs(p, t, init, doomed);
        ApplyDiffsAt(p, t, init, doomed, AccountAt(a));
        InfoAfter(p, t, u, init, doomed, a);
        ApplyDiffAt(p, u, a, d, key);
        DiffWriteStep(p, t, u, ds, doomed, a, key);
      }
    }
  }

  // ---- the grouped batch ----

  /** The batch entries of one address's diffs, before the account is written back. */
  function DiffOps(p: Parsers, a: Address, ds: seq<StateDiff>): seq<Op> {
    if ds == [] then [] else DiffOps(p, a, ds[..|ds| - 1]) + EffectOps(a, EffectOf(p, ds[|ds| - 1]))
  }

  function GroupOps(p: Parsers, t: Tables, a: Address, ds: seq<StateDiff>, doomed: bool): seq<Op> {
    if doomed then [DeleteAccount(a)]
    else DiffOps(p, a, ds) + [SetAccount(a, FoldInfo(p, InfoOr(t, a), ds))]
  }

  /** The whole batch when the groups are walked in the order `order`. */
  function GroupedOps(p: Parsers, t: Tables, ds: seq<StateDiff>, order: seq<Address>): seq<Op> {
    if order == [] then []
    else
      var a := order[|order| - 1];
      GroupedOps(p, t, ds, order[..|order| - 1]) + GroupOps(p, t, a, Mine(ds, a), a in Doomed(ds))
  }

  /** What the groups of `order` write to a key under an address. */
  function GroupWrite(p: Parsers, t: Tables, ds: seq<StateDiff>, key: Key): Option<Option<Value>>
    requires key.AccountAt? || key.SlotAt?
  {
    if key.address in Doomed(ds) then (if key.AccountAt? then Some(None) else None)
    else if key.AccountAt? then Some(Some(AccountValue(FoldInfo(p, InfoOr(t, key.address), Mine(ds, key.address)))))
    else LastSlot(p, Mine(ds, key.address), key.slot)
  }

  lemma {:induction false} DiffOpsWrite(p: Parsers, a: Address, ds: seq<StateDiff>, key: Key)
    requires !key.CodeAt?
    ensures LastWrite(DiffOps(p, a, ds), key) ==
      if key.SlotAt? && key.address == a then LastSlot(p, ds, key.slot) else None
  {
    if ds != [] {
      var e := EffectOf(p, ds[|ds| - 1]);
      DiffOpsWrite(p, a, ds[..|ds| - 1], key);
      LastWriteConcat(DiffOps(p, a, ds[..|ds| - 1]), EffectOps(a, e), key);
      EffectOpsWrite(a, e, key);
    }
  }

  lemma EffectOpsWrite(a: Address, e: Effect, key: Key)
    ensures LastWrite(EffectOps(a, e), key) ==
      if key.SlotAt? && key.address == a then SlotWrite(e, key.slot)
      else if key.CodeAt? && e.NewCode? && e.hash == key.hash then Some(Some(CodeValue(e.code)))
      else None
  {
    SingletonWrite(EffectOps(a, e), key);
  }

  lemma GroupOpsWrite(p: Parsers, t: Tables, ds: seq<StateDiff>, a: Address, key: Key)
    requires !key.CodeAt?
    ensures LastWrite(GroupOps(p, t, a, Mine(ds, a), a in Doomed(ds)), key) ==
      if Under(key, a) then GroupWrite(p, t, ds, key) else None
  {
    var info := FoldInfo(p, InfoOr(t, a), Mine(ds, a));
    SingletonWrite([DeleteAccount(a)], key);
    SingletonWrite([SetAccount(a, info)], key);
    DiffOpsWrite(p, a, Mine(ds, a), key);
    LastWriteConcat(DiffOps(p, a, Mine(ds, a)), [SetAccount(a, info)], key);
  }

  lemma {:induction false} GroupedOpsWrite(p: Parsers, t: Tables, ds: seq<StateDiff>, order: seq<Address>, key: Key)
    requires !key.CodeAt?
    ensures LastWrite(GroupedOps(p, t, ds, order), key) ==
      if UnderAny(key, order) then GroupWrite(p, t, ds, key) else None
  {
    if order != [] {
      var n := |order| - 1;
      var a := order[n];
      GroupedOpsWrite(p, t, ds, order[..n], key);
      GroupOpsWrite(p, t, ds, a, key);
      LastWriteConcat(GroupedOps(p, t, ds, order[..n]), GroupOps(p, t, a, Mine(ds, a), a in Doomed(ds)), key);
      UnderLast(key, order);
    }
  }

  // ---- code entries: what is stored under a hash hashes to it ----

  ghost predicate Hashed(p: Parsers, ops: seq<Op>) {
    forall i :: 0 <= i < |ops| && ops[i].SetCode? ==> p.keccak(ops[i].code) == ops[i].hash
  }

  lemma {:induction false} DiffOpsHashed(p: Parsers, a: Address, ds: seq<StateDiff>)
    ensures Hashed(p, DiffOps(p, a, ds))
  {
    if ds != [] { DiffOpsHashed(p, a, ds[..|ds| - 1]); }
  }

  lemma {:induction false} GroupedOpsHashed(p: Parsers, t: Tables, ds: seq<StateDiff>, order: seq<Address>)
    ensures Hashed(p, GroupedOps(p, t, ds, order))
  {
    if order != [] {
      GroupedOpsHashed(p, t, ds, order[..|order| - 1]);
      DiffOpsHashed(p, order[|order| - 1], Mine(ds, order[|order| - 1]));
    }
  }

  lemma {:induction false} HashedCode(p: Parsers, ops: seq<Op>, h: Word)
    requires Hashed(p, ops) && LastWrite(ops, CodeAt(h)).Some?
    ensures exists c :: LastWrite(ops, CodeAt(h)) == Some(Some(CodeValue(c))) && p.keccak(c) == h
  {
    var op := ops[|ops| - 1];
    if op.Key() == CodeAt(h) {
      assert p.keccak(op.code) == h;
    } else {
      HashedCode(p, ops[..|ops| - 1], h);
    }
  }

  predicate Deploys(p: Parsers, d: StateDiff, h: Word) {
    EffectOf(p, d).NewCode? && EffectOf(p, d).hash == h
  }

  lemma {:induction false} DiffOpsCode(p: Parsers, a: Address, ds: seq<StateDiff>, h: Word)
    ensures LastWrite(DiffOps(p, a, ds), CodeAt(h)).Some? <==> exists i :: 0 <= i < |ds| && Deploys(p, ds[i], h)
  {
    if ds != [] {
      var n := |ds| - 1;
      DiffOpsCode(p, a, ds[..n], h);
      LastWriteConcat(DiffOps(p, a, ds[..n]), EffectOps(a, EffectOf(p, ds[n])), CodeAt(h));
      EffectOpsWrite(a, EffectOf(p, ds[n]), CodeAt(h));
      if i :| 0 <= i < n && Deploys(p, ds[..n][i], h) { assert Deploys(p, ds[i], h); }
      if i :| 0 <= i < n && Deploys(p, ds[i], h) { assert Deploys(p, ds[..n][i], h); }
    }
  }

  lemma {:induction false} MineMembers(ds: seq<StateDiff>, a: Address, d: StateDiff)
    ensures d in Mine(ds, a) <==> d in ds && d.address == Some(a)
  {
    if ds != [] {
      MineMembers(ds[..|ds| - 1], a, d);
      assert ds == ds[..|ds| - 1] + [ds[|ds| - 1]];
    }
  }

  /** A diff of the live address `a` deploys code under `h`. */
  ghost predicate LiveDeploy(p: Parsers, ds: seq<StateDiff>, a: Address, h: Word) {
    a !in Doomed(ds) && exists d :: d in ds && d.address == Some(a) && Deploys(p, d, h)
  }

  lemma MineDeploys(p: Parsers, ds: seq<StateDiff>, a: Address, h: Word)
    ensures (exists i :: 0 <= i < |Mine(ds, a)| && Deploys(p, Mine(ds, a)[i], h))
      <==> exists d :: d in ds && d.address == Some(a) && Deploys(p, d, h)
  {
    var mine := Mine(ds, a);
    if i :| 0 <= i < |mine| && Deploys(p, mine[i], h) { MineMembers(ds, a, mine[i]); }
    if d :| d in ds && d.address == Some(a) && Deploys(p, d, h) {
      MineMembers(ds, a, d);
      var i :| 0 <= i < |mine| && mine[i] == d;
    }
  }

  lemma GroupOpsCode(p: Parsers, t: Tables, ds: seq<StateDiff>, a: Address, h: Word)
    ensures LastWrite(GroupOps(p, t, a, Mine(ds, a), a in Doomed(ds)), CodeAt(h)).Some? <==> LiveDeploy(p, ds, a, h)
  {
    if a in Doomed(ds) {
      SingletonWrite([DeleteAccount(a)], CodeAt(h));
    } else {
      var mine := Mine(ds, a);
      var set_ := SetAccount(a, FoldInfo(p, InfoOr(t, a), mine));
      SingletonWrite([set_], CodeAt(h));
      LastWriteConcat(DiffOps(p, a, mine), [set_], CodeAt(h));
      DiffOpsCode(p, a, mine, h);
      MineDeploys(p, ds, a, h);
    }
  }

  ghost predicate AnyLiveDeploy(p: Parsers, ds: seq<StateDiff>, order: seq<Address>, h: Word) {
    exists i :: 0 <= i < |order| && LiveDeploy(p, ds, order[i], h)
  }

  lemma AnyLiveDeployLast(p: Parsers, ds: seq<StateDiff>, order: seq<Address>, h: Word)
    requires order != []
    ensures AnyLiveDeploy(p, ds, order, h) <==>
      AnyLiveDeploy(p, ds, order[..|order| - 1], h) || LiveDeploy(p, ds, order[|order| - 1], h)
  {
    var init := order[..|order| - 1];
    if i :| 0 <= i < |init| && LiveDeploy(p, ds, init[i], h) { assert LiveDeploy(p, ds, order[i], h); }
    if i :| 0 <= i < |init| && LiveDeploy(p, ds, order[i], h) { assert LiveDeploy(p, ds, init[i], h); }
  }

  lemma {:induction false} GroupedOpsCode(p: Parsers, t: Tables, ds: seq<StateDiff>, order: seq<Address>, h: Word)
    ensures LastWrite(GroupedOps(p, t, ds, order), CodeAt(h)).Some? <==> AnyLiveDeploy(p, ds, order, h)
  {
    if order != [] {
      var n := |order| - 1;
      var a := order[n];
      GroupedOpsCode(p, t, ds, order[..n], h);
      GroupOpsCode(p, t, ds, a, h);
      LastWriteConcat(GroupedOps(p, t, ds, order[..n]), GroupOps(p, t, a, Mine(ds, a), a in Doomed(ds)), CodeAt(h));
      AnyLiveDeployLast(p, ds, order, h);
    }
  }

  lemma {:induction false} LastCodeIff(p: Parsers, ds: seq<StateDiff>, doomed: set<Address>, h: Word)
    ensures LastCode(p, ds, doomed, h).Some? <==>
      exists d :: d in ds && d.address.Some? && d.address.value !in doomed && Deploys(p, d, h)
    ensures LastCode(p, ds, doomed, h).Some? ==>
      exists c :: LastCode(p, ds, doomed, h) == Some(Some(CodeValue(c))) && p.keccak(c) == h
  {
    if ds != [] {
      var d := ds[|ds| - 1];
      LastCodeIff(p, ds[..|ds| - 1], doomed, h);
      if LastCode(p, ds, doomed, h).Some? && !(d.address.Some? && d.address.value !in doomed && Deploys(p, d, h)) {
        var e :| e in ds[..|ds| - 1] && e.address.Some? && e.address.value !in doomed && Deploys(p, e, h);
        assert e in ds;
      }
    }
  }

  // ---- grouped equals sequential ----

  /** `order` visits each group once. */
  ghost predicate Groups(ds: seq<StateDiff>, order: seq<Address>) {
    forall a :: a in order <==> exists d :: d in ds && d.address == Some(a)
  }

  lemma GroupedRead(p: Parsers, t: Tables, ds: seq<StateDiff>, order: seq<Address>, key: Key)
    requires p.HashInjective() && Groups(ds, order)
    ensures var doomed := Doomed(ds);
      Read(Apply(t, GroupedOps(p, t, ds, order)), key) ==
      Read(ApplyDiffs(p, t.(accounts := t.accounts - doomed), ds, doomed), key)
  {
    var doomed := Doomed(ds);
    var t' := t.(accounts := t.accounts - doomed);
    ApplyDiffsAt(p, t', ds, doomed, key);
    ReadAfterApply(t, GroupedOps(p, t, ds, order), key);
    match key
    case AccountAt(a) =>
      GroupedOpsWrite(p, t, ds, order, key);
      GroupMembers(ds, order, a);
    case SlotAt(a, s) =>
      GroupedOpsWrite(p, t, ds, order, key);
      GroupMembers(ds, order, a);
    case CodeAt(h) =>
      GroupedCodeRead(p, t, ds, order, h);
    case HeadBlock =>
      GroupedOpsWrite(p, t, ds, order, key);
  }

  lemma GroupMembers(ds: seq<StateDiff>, order: seq<Address>, a: Address)
    requires Groups(ds, order)
    ensures Mine(ds, a) == [] <==> a !in order
    ensures a in Doomed(ds) ==> a in order
  {
    if Mine(ds, a) != [] { MineMembers(ds, a, Mine(ds, a)[0]); }
    if a in order {
      var d :| d in ds && d.address == Some(a);
      MineMembers(ds, a, d);
    }
  }

  lemma GroupedCodeRead(p: Parsers, t: Tables, ds: seq<StateDiff>, order: seq<Address>, h: Word)
    requires p.HashInjective() && Groups(ds, order)
    ensures LastWrite(GroupedOps(p, t, ds, order), CodeAt(h)) == LastCode(p, ds, Doomed(ds), h)
  {
    var ops := GroupedOps(p, t, ds, order);
    GroupedOpsHashed(p, t, ds, order);
    GroupedOpsCode(p, t, ds, order, h);
    LastCodeIff(p, ds, Doomed(ds), h);
    if LastCode(p, ds, Doomed(ds), h).Some? {
      var d :| d in ds && d.address.Some? && d.address.value !in Doomed(ds) && Deploys(p, d, h);
      assert d.address.value in order;
      var i :| 0 <= i < |order| && order[i] == d.address.value;
      assert LiveDeploy(p, ds, order[i], h);
    }
    if LastWrite(ops, CodeAt(h)).Some? {
      HashedCode(p, ops, h);
    }
  }

  lemma GroupedReadHead(p: Parsers, t: Tables, block: Block, order: seq<Address>, key: Key)
    requires p.HashInjective() && Groups(block.stateDiffs, order)
    ensures Read(Apply(t, GroupedOps(p, t, block.stateDiffs, order) + [SetHead(block.number)]), key)
      == Read(Diffed(p, t, block), key)
  {
    var ops := GroupedOps(p, t, block.stateDiffs, order);
    GroupedRead(p, t, block.stateDiffs, order, key);
    ReadAfterApply(t, ops, key);
    ReadAfterApply(t, ops + [SetHead(block.number)], key);
    LastWriteConcat(ops, [SetHead(block.number)], key);
    SingletonWrite([SetHead(block.number)], key);
  }

  /** Grouping by address, folding from the stored account and batching has the
      effect of the diffs applied one by one, whatever order the groups are in. */
  lemma GroupedIsSequential(p: Parsers, t: Tables, block: Block, order: seq<Address>)
    requires p.HashInjective() && Groups(block.stateDiffs, order)
    ensures Apply(t, GroupedOps(p, t, block.stateDiffs, order) + [SetHead(block.number)]) == Diffed(p, t, block)
  {
    var t' := Apply(t, GroupedOps(p, t, block.stateDiffs, order) + [SetHead(block.number)]);
    forall key ensures Read(t', key) == Read(Diffed(p, t, block), key) {
      GroupedReadHead(p, t, block, order, key);
    }
    ReadsDetermine(t', Diffed(p, t, block));
  }

  // ---- reapplying, and what a block's diffs leave alone ----

  function LastNonce(p: Parsers, ds: seq<StateDiff>): Option<U64> {
    if ds == [] then None
    else
      var e := EffectOf(p, ds[|ds| - 1]);
      if e.NewNonce? then Some(e.nonce) else LastNonce(p, ds[..|ds| - 1])
  }

  function LastBalance(p: Parsers, ds: seq<StateDiff>): Option<Word> {
    if ds == [] then None
    else
      var e := EffectOf(p, ds[|ds| - 1]);
      if e.NewBalance? then Some(e.balance) else LastBalance(p, ds[..|ds| - 1])
  }

  function LastHash(p: Parsers, ds: seq<StateDiff>): Option<Word> {
    if ds == [] then None
    else
      var e := EffectOf(p, ds[|ds| - 1]);
      if e.NewCode? then Some(e.hash) else LastHash(p, ds[..|ds| - 1])
  }

  lemma {:induction false} FoldFields(p: Parsers, info: AccountInfo, ds: seq<StateDiff>)
    ensures FoldInfo(p, info, ds) ==
      AccountInfo(
        LastNonce(p, ds).UnwrapOr(info.nonce),
        LastBalance(p, ds).UnwrapOr(info.balance),
        LastHash(p, ds).UnwrapOr(info.codeHash))
  {
    if ds != [] { FoldFields(p, info, ds[..|ds| - 1]); }
  }

  /** What a key holds once the block's diffs are in. */
  function AfterDiffs(p: Parsers, t: Tables, block: Block, key: Key): Option<Value> {
    var ds := block.stateDiffs;
    match key
    case AccountAt(a) =>
      if a in Doomed(ds) then None
      else if Mine(ds, a) == [] then Read(t, key)
      else Some(AccountValue(FoldInfo(p, InfoOr(t, a), Mine(ds, a))))
    case SlotAt(a, s) =>
      if a in Doomed(ds) then Read(t, key) else LastSlot(p, Mine(ds, a), s).UnwrapOr(Read(t, key))
    case CodeAt(h) => LastCode(p, ds, Doomed(ds), h).UnwrapOr(Read(t, key))
    case HeadBlock => Some(HeadValue(block.number))
  }

  lemma DiffedAt(p: Parsers, t: Tables, block: Block, key: Key)
    ensures Read(Diffed(p, t, block), key) == AfterDiffs(p, t, block, key)
  {
    var ds, doomed := block.stateDiffs, Doomed(block.stateDiffs);
    ApplyDiffsAt(p, t.(accounts := t.accounts - doomed), ds, doomed, key);
  }

  /** Applying a block's diffs a second time changes nothing. */
  lemma DiffedTwice(p: Parsers, t: Tables, block: Block)
    ensures Diffed(p, Diffed(p, t, block), block) == Diffed(p, t, block)
  {
    var u := Diffed(p, t, block);
    forall key ensures Read(Diffed(p, u, block), key) == Read(u, key) {
      DiffedAt(p, t, block, key);
      DiffedAt(p, u, block, key);
      if key.AccountAt? {
        FoldFields(p, InfoOr(t, key.address), Mine(block.stateDiffs, key.address));
        FoldFields(p, InfoOr(u, key.address), Mine(block.stateDiffs, key.address));
      }
    }
    ReadsDetermine(Diffed(p, u, block), u);
  }

  /** `x` and `y` hold the same in whatever part of `key` the diffs leave alone. */
  predicate SameUntouched(p: Parsers, block: Block, x: Tables, y: Tables, key: Key) {
    var ds := block.stateDiffs;
    match key
    case AccountAt(a) =>
      if a in Doomed(ds) then true
      else if Mine(ds, a) == [] then Read(x, key) == Read(y, key)
      else
        && (LastNonce(p, Mine(ds, a)).None? ==> InfoOr(x, a).nonce == InfoOr(y, a).nonce)
        && (LastBalance(p, Mine(ds, a)).None? ==> InfoOr(x, a).balance == InfoOr(y, a).balance)
        && (LastHash(p, Mine(ds, a)).None? ==> InfoOr(x, a).codeHash == InfoOr(y, a).codeHash)
    case SlotAt(a, s) =>
      a in Doomed(ds) || LastSlot(p, Mine(ds, a), s).None? ==> Read(x, key) == Read(y, key)
    case CodeAt(h) => LastCode(p, ds, Doomed(ds), h).None? ==> Read(x, key) == Read(y, key)
    case HeadBlock => true
  }

  /** Diffs bring two states together exactly when they differ only in what the
      diffs overwrite. */
  lemma DiffedEqualIff(p: Parsers, block: Block, x: Tables, y: Tables)
    ensures Diffed(p, x, block) == Diffed(p, y, block) <==> forall key :: SameUntouched(p, block, x, y, key)
  {
    forall key
      ensures Read(Diffed(p, x, block), key) == Read(Diffed(p, y, block), key) <==> SameUntouched(p, block, x, y, key)
    {
      DiffedAt(p, x, block, key);
      DiffedAt(p, y, block, key);
      if key.AccountAt? {
        FoldFields(p, InfoOr(x, key.address), Mine(block.stateDiffs, key.address));
        FoldFields(p, InfoOr(y, key.address), Mine(block.stateDiffs, key.address));
      }
    }
    if forall key :: SameUntouched(p, block, x, y, key) {
      ReadsDetermine(Diffed(p, x, block), Diffed(p, y, block));
    }
  }

  // ---- apply_state_diffs ----

  lemma MineNext(ds: seq<StateDiff>, n: nat, a: Address)
    requires n < |ds|
    ensures Mine(ds[..n + 1], a) == Mine(ds[..n], a) + (if ds[n].address == Some(a) then [ds[n]] else [])
  {
    assert ds[..n + 1][..n] == ds[..n];
  }

  method GroupByAddress(ds: seq<StateDiff>) returns (groups: map<Address, seq<StateDiff>>)
    ensures forall a :: a in groups <==> Mine(ds, a) != []
    ensures forall a :: a in groups ==> groups[a] == Mine(ds, a)
  {
    groups := map[];
    for n := 0 to |ds|
      invariant forall a :: Lookup(groups, a).UnwrapOr([]) == Mine(ds[..n], a)
      invariant forall a :: a in groups ==> groups[a] != []
    {
      forall a { MineNext(ds, n, a); }
      if ds[n].address.Some? {
        var a := ds[n].address.value;
        groups := groups[a := (if a in groups then groups[a] else []) + [ds[n]]];
      }
    }
    assert ds[..|ds|] == ds;
    forall a ensures a in groups <==> Mine(ds, a) != [] {
      assert Lookup(groups, a).UnwrapOr([]) == Mine(ds, a);
    }
  }

  lemma MineDoomed(ds: seq<StateDiff>, a: Address)
    ensures (exists d :: d in Mine(ds, a) && DeletesAccount(d)) <==> a in Doomed(ds)
  {
    forall d { MineMembers(ds, a, d); }
  }

  method ApplyStateDiffs(p: Parsers, db: StateDb, block: Block)
    requires db.Valid() && p.HashInjective()
    modifies db
    ensures db.Valid()
    ensures db.tables == Diffed(p, old(db.tables), block)
    ensures db.history == old(db.history) + [db.tables]
  {
    var batch := new WriteBatch(db);
    ghost var order := [];
    var ds := block.stateDiffs;
    if ds != [] {
      var byAddress := GroupByAddress(ds);
      var rest := byAddress.Keys;
      while rest != {}
        invariant batch.Valid() && batch.ops == GroupedOps(p, db.tables, ds, order)
        invariant rest <= byAddress.Keys
        invariant forall a :: a in order <==> a in byAddress.Keys - rest
        invariant db.Valid() && unchanged(db)
      {
        var address :| address in rest;
        rest := rest - {address};
        ghost var before := order;
        order := order + [address];
        assert order[..|order| - 1] == before;
        var diffs := byAddress[address];
        MineDoomed(ds, address);
        if exists d :: d in diffs && DeletesAccount(d) {
          var _ := batch.DeleteAccount(address);
          continue;
        }
        AddGroup(p, db, batch, address, diffs);
      }
      GroupsAll(ds, byAddress.Keys, order);
    }
    batch.SetHeadBlock(block.number);
    GroupedIsSequential(p, db.tables, block, order);
    batch.Commit();
  }

  lemma GroupsAll(ds: seq<StateDiff>, keys: set<Address>, order: seq<Address>)
    requires forall a :: a in keys <==> Mine(ds, a) != []
    requires forall a :: a in order <==> a in keys
    ensures Groups(ds, order)
  {
    forall a ensures a in order <==> exists d :: d in ds && d.address == Some(a) {
      if Mine(ds, a) != [] { MineMembers(ds, a, Mine(ds, a)[0]); }
      if d :| d in ds && d.address == Some(a) { MineMembers(ds, a, d); }
    }
  }

  /** One diff of a surviving address: buffers a code or slot write, or updates the account. */
  method BufferDiff(p: Parsers, batch: WriteBatch, address: Address, d: StateDiff, before: AccountInfo)
    returns (info: AccountInfo)
    requires batch.Valid()
    modifies batch
    ensures batch.Valid() && batch.ops == old(batch.ops) + EffectOps(address, EffectOf(p, d))
    ensures info == UpdateInfo(before, EffectOf(p, d))
  {
    info := before;
    ghost var buffered := batch.ops;
    assert buffered + [] == buffered;
    if d.key.None? || d.next.None? {
      return;
    }
    var hex := StripHex(d.next.value);
    match d.key.value {
      case "nonce" =>
        info := info.(nonce := p.u64(hex).UnwrapOr(0));
      case "balance" =>
        info := info.(balance := p.u256(hex).UnwrapOr(0));
      case "code" =>
        var bytecode := p.bytes(hex);
        if bytecode.Some? {
          var hash := p.keccak(bytecode.value);
          batch.SetCode(hash, bytecode.value);
          info := info.(codeHash := hash);
        }
      case slotHex =>
        var slot := p.b256(slotHex);
        if slot.Some? {
          if d.kind == Some("-") {
            var _ := batch.DeleteStorage(address, slot.value);
          } else {
            batch.SetStorage(address, slot.value, p.u256(hex).UnwrapOr(0));
          }
        }
    }
  }

  lemma DiffsNext(p: Parsers, a: Address, info: AccountInfo, diffs: seq<StateDiff>, n: nat, ops: seq<Op>)
    requires n < |diffs|
    ensures ops + DiffOps(p, a, diffs[..n + 1]) ==
      (ops + DiffOps(p, a, diffs[..n])) + EffectOps(a, EffectOf(p, diffs[n]))
    ensures FoldInfo(p, info, diffs[..n + 1]) == UpdateInfo(FoldInfo(p, info, diffs[..n]), EffectOf(p, diffs[n]))
  {
    assert diffs[..n + 1][..n] == diffs[..n];
  }

  /** The loop body for one surviving address: walk its diffs in order, buffering
      code and storage writes and updating the account, which is buffered last. */
  method AddGroup(p: Parsers, db: StateDb, batch: WriteBatch, address: Address, diffs: seq<StateDiff>)
    requires db.Valid() && batch.Valid()
    modifies batch
    ensures batch.Valid()
    ensures batch.ops == old(batch.ops) + GroupOps(p, db.tables, address, diffs, false)
  {
    var account := db.GetAccount(address);
    var info := account.value.UnwrapOr(NEW_ACCOUNT);
    for n := 0 to |diffs|
      invariant batch.Valid() && batch.ops == old(batch.ops) + DiffOps(p, address, diffs[..n])
      invariant info == FoldInfo(p, InfoOr(db.tables, address), diffs[..n])
    {
      DiffsNext(p, address, InfoOr(db.tables, address), diffs, n, old(batch.ops));
      info := BufferDiff(p, batch, address, diffs[n], info);
    }
    assert diffs[..|diffs|] == diffs;
    batch.SetAccount(address, info);
  }
}
