/** Replaying block after block (crates/replayer): when the database keeps answering
    execution as plain tables would, for blocks with and without state diffs. */
module Chains {
  import opened Types
  import opened StateTables
  import opened Blocks
  import opened StateDiffs
  import opened Overlay
  import opened Flush
  import opened Replay
  import Stepwise

  // ---- on plain tables ----

  function WithoutSlots(w: Tables, gone: set<Address>): Tables {
    w.(storage := map k | k in w.storage && k.0 !in gone :: w.storage[k])
  }

  /** A block's diffs on plain tables: a deleted account loses its slots too. */
  function PlainDiffed(p: Parsers, w: Tables, block: Block): Tables {
    Diffed(p, WithoutSlots(w, Doomed(block.stateDiffs)), block)
  }

  /** What a block leaves, given the plain tables after its transactions. */
  function PlainLeft(p: Parsers, w: Tables, block: Block): Tables {
    if block.stateDiffs == [] then w else PlainDiffed(p, w, block)
  }

  ghost function PlainBlock(vm: Vm, p: Parsers, w: Tables, block: Block): Result<Tables, Error> {
    match PlainTxs(w, vm, block, |block.transactions|)
    case Err(e) => Err(e)
    case Ok((w', _)) => Ok(PlainLeft(p, w', block))
  }

  ghost function PlainAll(vm: Vm, p: Parsers, w: Tables, blocks: seq<Block>): Result<Tables, Error> {
    if blocks == [] then Ok(w)
    else
      match PlainAll(vm, p, w, blocks[..|blocks| - 1])
      case Err(e) => Err(e)
      case Ok(u) => PlainBlock(vm, p, u, blocks[|blocks| - 1])
  }

  // ---- what the diffs leave visible ----

  /** A stale slot the next block can see: its account survives the diffs, or is made
      by them, and no diff overwrites the slot. */
  predicate Shows(p: Parsers, base: Tables, c: Cache, block: Block, a: Address, s: Word) {
    && Stale(base, c, a, s)
    && a !in Doomed(block.stateDiffs)
    && LastSlot(p, Mine(block.stateDiffs, a), s).None?
    && (Mine(block.stateDiffs, a) != [] || CachedBasic(base, c, a).Some?)
  }

  /** Code that the diffs store under a hash for none, where execution never looks. */
  predicate Hides(p: Parsers, block: Block, h: Word) {
    NoCodeHash(h) && HeldCode(LastCode(p, block.stateDiffs, Doomed(block.stateDiffs), h)) != []
  }

  function HeldCode(v: Option<Option<Value>>): Bytes {
    if v.Some? && v.value.Some? && v.value.value.CodeValue? then v.value.value.code else []
  }

  ghost predicate NoneShows(p: Parsers, base: Tables, c: Cache, block: Block) {
    (forall a, s :: !Shows(p, base, c, block, a, s)) && forall h :: !Hides(p, block, h)
  }

  lemma DiffedAccount(p: Parsers, t: Tables, block: Block, a: Address)
    ensures BasicRef(Diffed(p, t, block), a) ==
      if a in Doomed(block.stateDiffs) then None
      else if Mine(block.stateDiffs, a) == [] then BasicRef(t, a)
      else Some(FoldInfo(p, BasicRef(t, a).UnwrapOr(NEW_ACCOUNT), Mine(block.stateDiffs, a)))
  {
    DiffedAt(p, t, block, AccountAt(a));
  }

  lemma DiffedCode(p: Parsers, t: Tables, block: Block, h: Word)
    ensures var written := LastCode(p, block.stateDiffs, Doomed(block.stateDiffs), h);
      CodeByHashRef(Diffed(p, t, block), h) == if written.Some? then HeldCode(written) else CodeByHashRef(t, h)
  {
    DiffedAt(p, t, block, CodeAt(h));
    LastCodeIff(p, block.stateDiffs, Doomed(block.stateDiffs), h);
  }

  lemma CodeAfterDiffs(p: Parsers, base: Tables, flushed: Tables, w: Tables, block: Block, h: Word)
    requires SameCode(base, flushed, w, h)
    ensures CachedCode(Diffed(p, flushed, block), EMPTY_CACHE, h) == CodeByHashRef(PlainDiffed(p, w, block), h)
      <==> !Hides(p, block, h)
  {
    DiffedCode(p, flushed, block, h);
    DiffedCode(p, WithoutSlots(w, Doomed(block.stateDiffs)), block, h);
  }

  function Held(v: Option<Value>): Word {
    if v.Some? && v.value.SlotValue? then v.value.word else 0
  }

  lemma DiffedSlot(p: Parsers, t: Tables, block: Block, a: Address, s: Word)
    ensures StorageRef(Diffed(p, t, block), a, s) ==
      if a in Doomed(block.stateDiffs) || LastSlot(p, Mine(block.stateDiffs, a), s).None? then StorageRef(t, a, s)
      else Held(LastSlot(p, Mine(block.stateDiffs, a), s).value)
  {
    DiffedAt(p, t, block, SlotAt(a, s));
  }

  lemma PlainDiffedSlot(p: Parsers, w: Tables, block: Block, a: Address, s: Word)
    ensures StorageRef(PlainDiffed(p, w, block), a, s) ==
      if a in Doomed(block.stateDiffs) then 0
      else if LastSlot(p, Mine(block.stateDiffs, a), s).None? then StorageRef(w, a, s)
      else Held(LastSlot(p, Mine(block.stateDiffs, a), s).value)
  {
    DiffedSlot(p, WithoutSlots(w, Doomed(block.stateDiffs)), block, a, s);
  }

  /** Slots of an account the overlay does not have read as zero. */
  lemma NoAccountNoSlot(base: Tables, c: Cache, a: Address, s: Word)
    requires CacheOk(base, c) && CachedBasic(base, c, a).None?
    ensures CachedSlot(base, c, a, s) == 0
  {
    if a in c.accounts { assert AccountOk(base, a, c.accounts[a]); }
  }

  lemma SlotAfterDiffs(
    p: Parsers, base: Tables, c: Cache, flushed: Tables, w: Tables, block: Block, a: Address, s: Word)
    requires CacheOk(base, c) && CachedSlot(base, c, a, s) == StorageRef(w, a, s)
    requires BasicRef(flushed, a) == CachedBasic(base, c, a)
    requires StorageRef(flushed, a, s) == StorageRef(w, a, s) <==> !Stale(base, c, a, s)
    ensures CachedSlot(Diffed(p, flushed, block), EMPTY_CACHE, a, s) == StorageRef(PlainDiffed(p, w, block), a, s)
      <==> !Shows(p, base, c, block, a, s)
  {
    DiffedAccount(p, flushed, block, a);
    DiffedSlot(p, flushed, block, a, s);
    PlainDiffedSlot(p, w, block, a, s);
    if CachedBasic(base, c, a).None? { NoAccountNoSlot(base, c, a, s); }
  }

  predicate Differs(p: Parsers, base: Tables, c: Cache, block: Block, r: Request) {
    match r
    case AskAccount(_) => false
    case AskSlot(a, s) => Shows(p, base, c, block, a, s)
    case AskCode(h) => Hides(p, block, h)
  }

  /** Read by read, after the flush and the diffs. */
  lemma AnswerAfterDiffs(p: Parsers, base: Tables, c: Cache, w: Tables, block: Block, r: Request)
    requires CacheOk(base, c) && Agrees(base, c, w)
    ensures CachedAnswer(Diffed(p, Flushed(base, c, None), block), EMPTY_CACHE, r)
      == PlainAnswer(PlainDiffed(p, w, block), r)
      <==> !Differs(p, base, c, block, r)
  {
    var flushed := Flushed(base, c, None);
    assert CachedAnswer(base, c, r) == PlainAnswer(w, r);
    match r
    case AskAccount(a) =>
      FlushedAccountAndCode(base, c, None, a, 0);
      DiffedAccount(p, flushed, block, a);
      DiffedAccount(p, WithoutSlots(w, Doomed(block.stateDiffs)), block, a);
    case AskSlot(a, s) =>
      FlushedAccountAndCode(base, c, None, a, 0);
      FlushedSlot(base, c, None, a, s);
      SlotAfterDiffs(p, base, c, flushed, w, block, a, s);
    case AskCode(h) =>
      FlushedAccountAndCode(base, c, None, 0, h);
      CodeAfterDiffs(p, base, flushed, w, block, h);
  }

  lemma AllAnswers(p: Parsers, base: Tables, c: Cache, block: Block, u: Tables, v: Tables)
    requires forall r :: (CachedAnswer(u, EMPTY_CACHE, r) == PlainAnswer(v, r) <==> !Differs(p, base, c, block, r))
    ensures Agrees(u, EMPTY_CACHE, v) <==> NoneShows(p, base, c, block)
  {
    if Agrees(u, EMPTY_CACHE, v) {
      forall a, s ensures !Shows(p, base, c, block, a, s) {
        assert CachedAnswer(u, EMPTY_CACHE, AskSlot(a, s)) == PlainAnswer(v, AskSlot(a, s));
      }
      forall h ensures !Hides(p, block, h) {
        assert CachedAnswer(u, EMPTY_CACHE, AskCode(h)) == PlainAnswer(v, AskCode(h));
      }
    }
  }

  /** After a block with diffs the next block starts out in agreement exactly when no
      stale slot shows through the diffs, and they hide no code. */
  lemma DiffsAgreeIff(p: Parsers, base: Tables, c: Cache, w: Tables, block: Block)
    requires CacheOk(base, c) && Agrees(base, c, w)
    ensures Agrees(Diffed(p, Flushed(base, c, None), block), EMPTY_CACHE, PlainDiffed(p, w, block))
      <==> NoneShows(p, base, c, block)
  {
    forall r { AnswerAfterDiffs(p, base, c, w, block, r); }
    AllAnswers(p, base, c, block, Diffed(p, Flushed(base, c, None), block), PlainDiffed(p, w, block));
  }

  // ---- one block ----

  /** The block leaves no stale slot that the next one can see, and hides no code. */
  ghost predicate Settles(p: Parsers, base: Tables, c: Cache, block: Block) {
    if block.stateDiffs == [] then NoVisibleStale(base, c) else NoneShows(p, base, c, block)
  }

  /** The block commits faithfully and leaves no visible stale slot. */
  ghost predicate CleanBlock(vm: Vm, p: Parsers, t: Tables, block: Block) {
    var n := |block.transactions|;
    && Faithful(t, vm, block, n)
    && (ExecTxs(t, vm, block, n).Ok? ==> Settles(p, t, ExecTxs(t, vm, block, n).value.0, block))
  }

  /** Same error, or tables that answer execution alike. */
  ghost predicate Following(r: Result<Tables, Error>, q: Result<Tables, Error>) {
    if r.Err? then q == r else q.Ok? && Agrees(r.value, EMPTY_CACHE, q.value)
  }

  /** Alike after every transaction of the block, and to the next block. */
  ghost predicate BlockAlike(vm: Vm, p: Parsers, t: Tables, w: Tables, block: Block) {
    && AllAlike(t, vm, block, w, |block.transactions|)
    && Following(AfterBlock(vm, p, t, block), PlainBlock(vm, p, w, block))
  }

  /** What a block leaves in the database, given its overlay. */
  function Left(p: Parsers, base: Tables, c: Cache, block: Block): Tables {
    if block.stateDiffs == [] then Flushed(base, c, Some(block.number)) else Diffed(p, Flushed(base, c, None), block)
  }

  lemma SettlesIff(p: Parsers, base: Tables, c: Cache, w: Tables, block: Block)
    requires CacheOk(base, c) && Agrees(base, c, w)
    ensures Agrees(Left(p, base, c, block), EMPTY_CACHE, PlainLeft(p, w, block)) <==> Settles(p, base, c, block)
  {
    if block.stateDiffs == [] {
      NextBlockAgreesIff(base, c, w, Some(block.number));
    } else {
      DiffsAgreeIff(p, base, c, w, block);
    }
  }

  lemma AfterIs(vm: Vm, p: Parsers, t: Tables, block: Block, c: Cache, results: seq<TxResult>)
    requires ExecTxs(t, vm, block, |block.transactions|) == Ok((c, results))
    ensures AfterBlock(vm, p, t, block) == Ok(Left(p, t, c, block))
  {
  }

  lemma PlainIs(vm: Vm, p: Parsers, w: Tables, block: Block, w': Tables, results: seq<TxResult>)
    requires PlainTxs(w, vm, block, |block.transactions|) == Ok((w', results))
    ensures PlainBlock(vm, p, w, block) == Ok(PlainLeft(p, w', block))
  {
  }

  lemma FollowingIff(vm: Vm, p: Parsers, t: Tables, w: Tables, block: Block, r: ExecState, q: PlainState)
    requires r == ExecTxs(t, vm, block, |block.transactions|) && q == PlainTxs(w, vm, block, |block.transactions|)
    requires Alike(t, r, q)
    ensures Following(AfterBlock(vm, p, t, block), PlainBlock(vm, p, w, block))
      <==> (r.Ok? ==> Settles(p, t, r.value.0, block))
  {
    if r.Ok? {
      AfterIs(vm, p, t, block, r.value.0, r.value.1);
      PlainIs(vm, p, w, block, q.value.0, q.value.1);
      SettlesIff(p, t, r.value.0, q.value.0, block);
    }
  }

  lemma BlockAlikeIff(vm: Vm, p: Parsers, t: Tables, w: Tables, block: Block)
    requires Agrees(t, EMPTY_CACHE, w)
    ensures BlockAlike(vm, p, t, w, block) <==> CleanBlock(vm, p, t, block)
  {
    var n := |block.transactions|;
    TxsAlikeIff(t, vm, block, w, n);
    if Faithful(t, vm, block, n) {
      assert Alike(t, ExecTxs(t, vm, block, n), PlainTxs(w, vm, block, n));
      FollowingIff(vm, p, t, w, block, ExecTxs(t, vm, block, n), PlainTxs(w, vm, block, n));
    }
  }

  // ---- a chain ----

  ghost predicate CleanAt(vm: Vm, p: Parsers, t: Tables, blocks: seq<Block>, m: nat)
    requires m < |blocks|
  {
    var r := ReplayAll(vm, p, t, blocks[..m]);
    r.Ok? ==> CleanBlock(vm, p, r.value, blocks[m])
  }

  ghost predicate AlikeAt(vm: Vm, p: Parsers, t: Tables, w: Tables, blocks: seq<Block>, m: nat)
    requires m < |blocks|
  {
    var r, q := ReplayAll(vm, p, t, blocks[..m]), PlainAll(vm, p, w, blocks[..m]);
    r.Ok? ==> q.Ok? && BlockAlike(vm, p, r.value, q.value, blocks[m])
  }

  ghost predicate CleanUpTo(vm: Vm, p: Parsers, t: Tables, blocks: seq<Block>, n: nat)
    requires n <= |blocks|
  {
    forall m :: 0 <= m < n ==> CleanAt(vm, p, t, blocks, m)
  }

  ghost predicate AlikeUpTo(vm: Vm, p: Parsers, t: Tables, w: Tables, blocks: seq<Block>, n: nat)
    requires n <= |blocks|
  {
    forall m :: 0 <= m < n ==> AlikeAt(vm, p, t, w, blocks, m)
  }

  lemma OneMore(vm: Vm, p: Parsers, t: Tables, w: Tables, blocks: seq<Block>, m: nat)
    requires m < |blocks|
    ensures ReplayAll(vm, p, t, blocks[..m + 1]) ==
      var r := ReplayAll(vm, p, t, blocks[..m]); if r.Err? then r else AfterBlock(vm, p, r.value, blocks[m])
    ensures PlainAll(vm, p, w, blocks[..m + 1]) ==
      var q := PlainAll(vm, p, w, blocks[..m]); if q.Err? then q else PlainBlock(vm, p, q.value, blocks[m])
  {
    assert blocks[..m + 1][..m] == blocks[..m];
  }

  /** One more block after an agreement. */
  lemma BlockStep(vm: Vm, p: Parsers, t: Tables, w: Tables, blocks: seq<Block>, m: nat)
    requires m < |blocks|
    requires Following(ReplayAll(vm, p, t, blocks[..m]), PlainAll(vm, p, w, blocks[..m]))
    ensures AlikeAt(vm, p, t, w, blocks, m) <==> CleanAt(vm, p, t, blocks, m)
    ensures CleanAt(vm, p, t, blocks, m) ==>
      Following(ReplayAll(vm, p, t, blocks[..m + 1]), PlainAll(vm, p, w, blocks[..m + 1]))
  {
    OneMore(vm, p, t, w, blocks, m);
    var r := ReplayAll(vm, p, t, blocks[..m]);
    if r.Ok? { BlockAlikeIff(vm, p, r.value, PlainAll(vm, p, w, blocks[..m]).value, blocks[m]); }
  }

  ghost function CleanStep(vm: Vm, p: Parsers, t: Tables, blocks: seq<Block>): nat -> bool {
    (m: nat) => m < |blocks| ==> CleanAt(vm, p, t, blocks, m)
  }

  ghost function AlikeStep(vm: Vm, p: Parsers, t: Tables, w: Tables, blocks: seq<Block>): nat -> bool {
    (m: nat) => m < |blocks| ==> AlikeAt(vm, p, t, w, blocks, m)
  }

  ghost function FollowingAt(vm: Vm, p: Parsers, t: Tables, w: Tables, blocks: seq<Block>): nat -> bool {
    (m: nat) =>
      m <= |blocks| ==> Following(ReplayAll(vm, p, t, blocks[..m]), PlainAll(vm, p, w, blocks[..m]))
  }

  lemma CleanSteps(vm: Vm, p: Parsers, t: Tables, blocks: seq<Block>, n: nat)
    requires n <= |blocks|
    ensures var clean := CleanStep(vm, p, t, blocks);
      CleanUpTo(vm, p, t, blocks, n) <==> forall m: nat :: m < n ==> clean(m)
  {
    var clean := CleanStep(vm, p, t, blocks);
    forall m: nat | m < n ensures clean(m) <==> CleanAt(vm, p, t, blocks, m) {}
  }

  lemma AlikeSteps(vm: Vm, p: Parsers, t: Tables, w: Tables, blocks: seq<Block>, n: nat)
    requires n <= |blocks|
    ensures var alike := AlikeStep(vm, p, t, w, blocks);
      AlikeUpTo(vm, p, t, w, blocks, n) <==> forall m: nat :: m < n ==> alike(m)
  {
    var alike := AlikeStep(vm, p, t, w, blocks);
    forall m: nat | m < n ensures alike(m) <==> AlikeAt(vm, p, t, w, blocks, m) {}
  }

  lemma FollowingNext(vm: Vm, p: Parsers, t: Tables, w: Tables, blocks: seq<Block>, m: nat)
    requires m < |blocks| && FollowingAt(vm, p, t, w, blocks)(m)
    ensures AlikeStep(vm, p, t, w, blocks)(m) <==> CleanStep(vm, p, t, blocks)(m)
    ensures CleanStep(vm, p, t, blocks)(m) ==> FollowingAt(vm, p, t, w, blocks)(m + 1)
  {
    BlockStep(vm, p, t, w, blocks, m);
  }

  lemma UpTo(vm: Vm, p: Parsers, t: Tables, w: Tables, blocks: seq<Block>, n: nat)
    requires n <= |blocks| && Agrees(t, EMPTY_CACHE, w)
    ensures AlikeUpTo(vm, p, t, w, blocks, n) <==> CleanUpTo(vm, p, t, blocks, n)
    ensures CleanUpTo(vm, p, t, blocks, n) ==> FollowingAt(vm, p, t, w, blocks)(n)
  {
    var alike, clean := AlikeStep(vm, p, t, w, blocks), CleanStep(vm, p, t, blocks);
    var following := FollowingAt(vm, p, t, w, blocks);
    CleanSteps(vm, p, t, blocks, n);
    AlikeSteps(vm, p, t, w, blocks, n);
    assert following(0);
    forall m: nat | m < n && following(m) ensures (alike(m) <==> clean(m)) && (clean(m) ==> following(m + 1)) {
      FollowingNext(vm, p, t, w, blocks, m);
    }
    Stepwise.AlikeWhile(alike, clean, following, n);
  }

  /** The chain's main theorem. From any database, replaying and plain execution are
      alike after every transaction and every block exactly when every block is clean. */
  lemma ChainAlikeIff(vm: Vm, p: Parsers, t: Tables, blocks: seq<Block>)
    ensures AlikeUpTo(vm, p, t, Live(t), blocks, |blocks|) <==> CleanUpTo(vm, p, t, blocks, |blocks|)
  {
    FreshOverlayAgrees(t);
    UpTo(vm, p, t, Live(t), blocks, |blocks|);
  }

  /** The database a clean chain leaves answers execution as the plain tables do. */
  lemma ChainRefines(vm: Vm, p: Parsers, t: Tables, blocks: seq<Block>)
    requires CleanUpTo(vm, p, t, blocks, |blocks|)
    ensures Following(ReplayAll(vm, p, t, blocks), PlainAll(vm, p, Live(t), blocks))
  {
    FreshOverlayAgrees(t);
    UpTo(vm, p, t, Live(t), blocks, |blocks|);
    assert blocks[..|blocks|] == blocks;
  }

  // ---- a deleted account comes back ----

  const DELETE_BLOCK := Block(1, [], [StateDiff(Some(1), Some("nonce"), Some("-"), None)])
  const CREATE_BLOCK := Block(2, [], [StateDiff(Some(1), None, None, None)])

  lemma CreateOnly(p: Parsers)
    ensures Doomed(CREATE_BLOCK.stateDiffs) == {} && Mine(CREATE_BLOCK.stateDiffs, 1) == CREATE_BLOCK.stateDiffs
    ensures LastSlot(p, CREATE_BLOCK.stateDiffs, 7) == None
  {
    var d := CREATE_BLOCK.stateDiffs[0];
    assert !DeletesAccount(d) && EffectOf(p, d) == Nothing;
  }

  lemma NoTransactions(vm: Vm, t: Tables, block: Block)
    requires block.transactions == []
    ensures ExecTxs(t, vm, block, |block.transactions|) == Ok((EMPTY_CACHE, []))
    ensures PlainTxs(t, vm, block, |block.transactions|) == Ok((t, []))
  {
  }

  /** A block of diffs alone. */
  lemma DiffsOnly(vm: Vm, p: Parsers, t: Tables, block: Block)
    requires block.transactions == [] && block.stateDiffs != []
    ensures AfterBlock(vm, p, t, block) == Ok(Diffed(p, t, block))
    ensures PlainBlock(vm, p, t, block) == Ok(PlainDiffed(p, t, block))
  {
    NoTransactions(vm, t, block);
    EmptyFlush(t);
    AfterIs(vm, p, t, block, EMPTY_CACHE, []);
    PlainIs(vm, p, t, block, t, []);
  }

  lemma LastDiffs(vm: Vm, p: Parsers, t: Tables, init: seq<Block>, y: Block, u: Tables, v: Tables)
    requires y.transactions == [] && y.stateDiffs != []
    requires ReplayAll(vm, p, t, init) == Ok(u) && PlainAll(vm, p, t, init) == Ok(v)
    ensures ReplayAll(vm, p, t, init + [y]) == Ok(Diffed(p, u, y))
    ensures PlainAll(vm, p, t, init + [y]) == Ok(PlainDiffed(p, v, y))
  {
    assert (init + [y])[..|init|] == init;
    DiffsOnly(vm, p, u, y);
    DiffsOnly(vm, p, v, y);
  }

  lemma FirstDiffs(vm: Vm, p: Parsers, t: Tables, x: Block)
    requires x.transactions == [] && x.stateDiffs != []
    ensures ReplayAll(vm, p, t, [x]) == Ok(Diffed(p, t, x)) && PlainAll(vm, p, t, [x]) == Ok(PlainDiffed(p, t, x))
  {
    LastDiffs(vm, p, t, [], x, t, t);
    assert [] + [x] == [x];
  }

  lemma TwoBlocks(vm: Vm, p: Parsers, t: Tables, x: Block, y: Block)
    requires x.transactions == [] && x.stateDiffs != [] && y.transactions == [] && y.stateDiffs != []
    ensures ReplayAll(vm, p, t, [x, y]) == Ok(Diffed(p, Diffed(p, t, x), y))
    ensures PlainAll(vm, p, t, [x, y]) == Ok(PlainDiffed(p, PlainDiffed(p, t, x), y))
  {
    FirstDiffs(vm, p, t, x);
    LastDiffs(vm, p, t, [x], y, Diffed(p, t, x), PlainDiffed(p, t, x));
    assert [x] + [y] == [x, y];
  }

  lemma DeleteStep(p: Parsers)
    ensures StorageRef(Diffed(p, WITH_SLOT, DELETE_BLOCK), 1, 7) == 5
    ensures StorageRef(PlainDiffed(p, WITH_SLOT, DELETE_BLOCK), 1, 7) == 0
  {
    assert DeletesAccount(DELETE_BLOCK.stateDiffs[0]) && 1 in Doomed(DELETE_BLOCK.stateDiffs);
    DiffedSlot(p, WITH_SLOT, DELETE_BLOCK, 1, 7);
    PlainDiffedSlot(p, WITH_SLOT, DELETE_BLOCK, 1, 7);
  }

  lemma CreateStep(p: Parsers, t: Tables, w: Tables)
    requires StorageRef(t, 1, 7) == 5 && StorageRef(w, 1, 7) == 0
    ensures CachedSlot(Diffed(p, t, CREATE_BLOCK), EMPTY_CACHE, 1, 7) == 5
    ensures StorageRef(PlainDiffed(p, w, CREATE_BLOCK), 1, 7) == 0
  {
    CreateOnly(p);
    DiffedSlot(p, t, CREATE_BLOCK, 1, 7);
    DiffedAccount(p, t, CREATE_BLOCK, 1);
    PlainDiffedSlot(p, w, CREATE_BLOCK, 1, 7);
  }

  /** An account deleted by one block's diffs and made again by the next one's has its
      old slots back, which plain tables do not. */
  lemma DeletedComesBack(vm: Vm, p: Parsers)
    ensures var r := ReplayAll(vm, p, WITH_SLOT, [DELETE_BLOCK, CREATE_BLOCK]);
      r.Ok? && CachedSlot(r.value, EMPTY_CACHE, 1, 7) == 5
    ensures var q := PlainAll(vm, p, WITH_SLOT, [DELETE_BLOCK, CREATE_BLOCK]);
      q.Ok? && StorageRef(q.value, 1, 7) == 0
  {
    TwoBlocks(vm, p, WITH_SLOT, DELETE_BLOCK, CREATE_BLOCK);
    DeleteStep(p);
    CreateStep(p, Diffed(p, WITH_SLOT, DELETE_BLOCK), PlainDiffed(p, WITH_SLOT, DELETE_BLOCK));
  }
}
