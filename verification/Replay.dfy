/** Replaying one block (`replay_block`, crates/replayer). */
module Replay {
  import opened Types
  import opened StateTables
  import opened Store
  import opened Blocks
  import opened StateDiffs
  import opened Overlay
  import opened Flush
  import Stepwise

  datatype Error =
    | EvmError(blockNumber: U64, txIndex: nat, isSystem: bool, message: string)
    | SourceError(message: string)
    | BlockGap(expected: nat, got: nat)

  datatype TxResult = TxResult(gasUsed: U64, success: bool)

  datatype BlockResult = BlockResult(blockNumber: U64, txResults: seq<TxResult>)

  /** The overlay, or the plain tables, and the results after some of a block's transactions. */
  type ExecState = Result<(Cache, seq<TxResult>), Error>
  type PlainState = Result<(Tables, seq<TxResult>), Error>

  /** How transaction `i` of a block executes, as an ordinary transaction or as a
      system call. Chain rules and block environment are part of the function. */
  datatype Vm = Vm(execute: (Block, nat, bool) -> Evm)

  predicate IsSystemTx(tx: Transaction) {
    var fromZero := tx.from.Some? && tx.from.value == 0;
    var gasZero := tx.gas.None? || tx.gas.value == 0;
    fromZero && gasZero
  }

  /** System transactions of a block that carries state diffs are not executed. */
  predicate Skipped(block: Block, i: nat)
    requires i < |block.transactions|
  {
    IsSystemTx(block.transactions[i]) && block.stateDiffs != []
  }

  function TxEvm(vm: Vm, block: Block, i: nat): Evm
    requires i < |block.transactions|
  {
    vm.execute(block, i, IsSystemTx(block.transactions[i]))
  }

  function TxError(block: Block, i: nat, message: string): Error
    requires i < |block.transactions|
  {
    EvmError(block.number, i, IsSystemTx(block.transactions[i]), message)
  }

  function Extend<S>(results: seq<TxResult>, r: Result<(S, TxResult), Error>): Result<(S, seq<TxResult>), Error> {
    match r
    case Err(e) => Err(e)
    case Ok((s, result)) => Ok((s, results + [result]))
  }

  // ---- through the overlay ----

  ghost function ExecTx(base: Tables, vm: Vm, block: Block, c: Cache, i: nat): Result<(Cache, TxResult), Error>
    requires i < |block.transactions|
  {
    if Skipped(block, i) then Ok((c, TxResult(0, true)))
    else
      var (c', finish) := RunCached(base, c, TxEvm(vm, block, i), []);
      match finish
      case Rejected(m) => Err(TxError(block, i, m))
      case Executed(gas, success, _, changes) => Ok((Commit(c', changes), TxResult(gas, success)))
  }

  ghost function ExecNext(base: Tables, vm: Vm, block: Block, r: ExecState, i: nat): ExecState
    requires i < |block.transactions|
  {
    match r
    case Err(e) => Err(e)
    case Ok((c, results)) => Extend(results, ExecTx(base, vm, block, c, i))
  }

  /** The overlay and results after the first `n` transactions. */
  ghost function ExecTxs(base: Tables, vm: Vm, block: Block, n: nat): ExecState
    requires n <= |block.transactions|
  {
    if n == 0 then Ok((EMPTY_CACHE, [])) else ExecNext(base, vm, block, ExecTxs(base, vm, block, n - 1), n - 1)
  }

  lemma {:induction false} ErrorSticks(t: Tables, vm: Vm, block: Block, n: nat, m: nat)
    requires n <= m <= |block.transactions| && ExecTxs(t, vm, block, n).Err?
    ensures ExecTxs(t, vm, block, m) == ExecTxs(t, vm, block, n)
    decreases m
  {
    if n < m { ErrorSticks(t, vm, block, n, m - 1); }
  }

  lemma {:induction false} RunKeepsOk(base: Tables, c: Cache, evm: Evm, answers: seq<Answer>)
    requires |answers| <= evm.limit && CacheOk(base, c)
    ensures CacheOk(base, RunCached(base, c, evm, answers).0)
    decreases evm.limit - |answers|
  {
    if |answers| < evm.limit && evm.next(answers).Ask? {
      var r := evm.next(answers).request;
      LoadKeepsOk(base, c, r);
      RunKeepsOk(base, Load(base, c, r), evm, answers + [CachedAnswer(base, c, r)]);
    }
  }

  lemma ExecKeepsOk(base: Tables, vm: Vm, block: Block, c: Cache, i: nat)
    requires i < |block.transactions| && CacheOk(base, c) && ExecTx(base, vm, block, c, i).Ok?
    ensures CacheOk(base, ExecTx(base, vm, block, c, i).value.0)
  {
    if !Skipped(block, i) {
      RunKeepsOk(base, c, TxEvm(vm, block, i), []);
      var (c', finish) := RunCached(base, c, TxEvm(vm, block, i), []);
      CommitKeepsOk(base, c', finish.state);
    }
  }

  lemma {:induction false} ExecTxsKeepOk(base: Tables, vm: Vm, block: Block, n: nat)
    requires n <= |block.transactions| && ExecTxs(base, vm, block, n).Ok?
    ensures CacheOk(base, ExecTxs(base, vm, block, n).value.0)
    decreases n
  {
    if n > 0 {
      ExecTxsKeepOk(base, vm, block, n - 1);
      ExecKeepsOk(base, vm, block, ExecTxs(base, vm, block, n - 1).value.0, n - 1);
    }
  }

  /** The durable states the commits of a block leave, given its overlay. */
  function CommitStates(p: Parsers, t: Tables, c: Cache, block: Block): (states: seq<Tables>)
    ensures 1 <= |states| <= 2
  {
    if block.stateDiffs == [] then [Flushed(t, c, Some(block.number))]
    else [Flushed(t, c, None), Diffed(p, Flushed(t, c, None), block)]
  }

  /** The durable states a block's replay goes through, one per commit. */
  ghost function BlockCommits(vm: Vm, p: Parsers, t: Tables, block: Block): (r: Result<seq<Tables>, Error>)
    ensures r.Ok? ==> r.value != []
  {
    match ExecTxs(t, vm, block, |block.transactions|)
    case Err(e) => Err(e)
    case Ok((c, _)) => Ok(CommitStates(p, t, c, block))
  }

  // ---- on plain tables, one transaction at a time ----

  ghost function PlainTx(w: Tables, vm: Vm, block: Block, i: nat): Result<(Tables, TxResult), Error>
    requires i < |block.transactions|
  {
    if Skipped(block, i) then Ok((w, TxResult(0, true)))
    else
      match RunPlain(w, TxEvm(vm, block, i), [])
      case Rejected(m) => Err(TxError(block, i, m))
      case Executed(gas, success, _, changes) => Ok((PlainCommit(w, changes), TxResult(gas, success)))
  }

  ghost function PlainNext(vm: Vm, block: Block, q: PlainState, i: nat): PlainState
    requires i < |block.transactions|
  {
    match q
    case Err(e) => Err(e)
    case Ok((w, results)) => Extend(results, PlainTx(w, vm, block, i))
  }

  ghost function PlainTxs(w: Tables, vm: Vm, block: Block, n: nat): PlainState
    requires n <= |block.transactions|
  {
    if n == 0 then Ok((w, [])) else PlainNext(vm, block, PlainTxs(w, vm, block, n - 1), n - 1)
  }

  // ---- refinement ----

  ghost predicate FaithfulTx(base: Tables, vm: Vm, block: Block, c: Cache, i: nat)
    requires i < |block.transactions|
  {
    Skipped(block, i) ||
    var (c', finish) := RunCached(base, c, TxEvm(vm, block, i), []);
    finish.Executed? ==> Clean(base, c', finish.state)
  }

  ghost predicate FaithfulNext(base: Tables, vm: Vm, block: Block, r: ExecState, i: nat)
    requires i < |block.transactions|
  {
    r.Ok? ==> FaithfulTx(base, vm, block, r.value.0, i)
  }

  /** Each of the first `n` transactions commits without reviving a slot or masking code. */
  ghost predicate Faithful(base: Tables, vm: Vm, block: Block, n: nat)
    requires n <= |block.transactions|
  {
    forall k :: 0 <= k < n ==> FaithfulNext(base, vm, block, ExecTxs(base, vm, block, k), k)
  }

  /** Both fail alike, or both succeed alike and go on answering alike. */
  ghost predicate Alike<R>(base: Tables, r: Result<(Cache, R), Error>, q: Result<(Tables, R), Error>) {
    match r
    case Err(e) => q == Err(e)
    case Ok((c, x)) => q.Ok? && q.value.1 == x && CacheOk(base, c) && Agrees(base, c, q.value.0)
  }

  /** A transaction goes alike through the overlay and on plain tables exactly when its
      commit is clean. */
  lemma TxAlikeIff(base: Tables, vm: Vm, block: Block, c: Cache, w: Tables, i: nat)
    requires i < |block.transactions| && CacheOk(base, c) && Agrees(base, c, w)
    ensures Alike(base, ExecTx(base, vm, block, c, i), PlainTx(w, vm, block, i)) <==> FaithfulTx(base, vm, block, c, i)
  {
    if !Skipped(block, i) {
      RunsAgree(base, c, w, TxEvm(vm, block, i), []);
      var (c', finish) := RunCached(base, c, TxEvm(vm, block, i), []);
      if finish.Executed? {
        CommitKeepsOk(base, c', finish.state);
        CommitAgreesIff(base, c', w, finish.state);
      }
    }
  }

  lemma ExtendAlike(
    base: Tables, results: seq<TxResult>, r: Result<(Cache, TxResult), Error>, q: Result<(Tables, TxResult), Error>)
    ensures Alike(base, Extend(results, r), Extend(results, q)) <==> Alike(base, r, q)
  {
    if r.Ok? && q.Ok? { LastResult(results, r.value.1, q.value.1); }
  }

  lemma LastResult<T>(xs: seq<T>, x: T, y: T)
    ensures xs + [x] == xs + [y] <==> x == y
  {
    assert (xs + [x])[|xs|] == x && (xs + [y])[|xs|] == y;
  }

  lemma NextAlikeIff(base: Tables, vm: Vm, block: Block, r: ExecState, q: PlainState, i: nat)
    requires i < |block.transactions| && Alike(base, r, q)
    ensures Alike(base, ExecNext(base, vm, block, r, i), PlainNext(vm, block, q, i))
      <==> FaithfulNext(base, vm, block, r, i)
  {
    if r.Ok? {
      var (c, results) := r.value;
      TxAlikeIff(base, vm, block, c, q.value.0, i);
      ExtendAlike(base, results, ExecTx(base, vm, block, c, i), PlainTx(q.value.0, vm, block, i));
    }
  }

  // ---- over a whole block ----

  /** `run` and `plain` go through the first `n` transactions of a block. */
  ghost predicate Executing(
    base: Tables, vm: Vm, block: Block, w: Tables, run: nat -> ExecState, plain: nat -> PlainState, n: nat)
    requires n <= |block.transactions|
  {
    && run(0) == Ok((EMPTY_CACHE, [])) && plain(0) == Ok((w, []))
    && (forall k: nat :: k < n ==> run(k + 1) == ExecNext(base, vm, block, run(k), k))
    && (forall k: nat :: k < n ==> plain(k + 1) == PlainNext(vm, block, plain(k), k))
  }

  ghost function ExecRun(base: Tables, vm: Vm, block: Block): nat -> ExecState {
    (k: nat) => if k <= |block.transactions| then ExecTxs(base, vm, block, k) else Ok((EMPTY_CACHE, []))
  }

  ghost function PlainRun(w: Tables, vm: Vm, block: Block): nat -> PlainState {
    (k: nat) => if k <= |block.transactions| then PlainTxs(w, vm, block, k) else Ok((w, []))
  }

  lemma RunsExecute(base: Tables, vm: Vm, block: Block, w: Tables, n: nat)
    requires n <= |block.transactions|
    ensures Executing(base, vm, block, w, ExecRun(base, vm, block), PlainRun(w, vm, block), n)
  {
  }

  lemma FaithfulRun(base: Tables, vm: Vm, block: Block, n: nat)
    requires n <= |block.transactions|
    ensures var faithful := FaithfulAt(base, vm, block, ExecRun(base, vm, block));
      Faithful(base, vm, block, n) <==> forall k: nat :: k < n ==> faithful(k)
  {
    var faithful := FaithfulAt(base, vm, block, ExecRun(base, vm, block));
    forall k: nat | k < n ensures faithful(k) <==> FaithfulNext(base, vm, block, ExecTxs(base, vm, block, k), k) {}
  }

  ghost function AlikeAt(base: Tables, run: nat -> ExecState, plain: nat -> PlainState): nat -> bool {
    (k: nat) => Alike(base, run(k), plain(k))
  }

  ghost function FaithfulAt(base: Tables, vm: Vm, block: Block, run: nat -> ExecState): nat -> bool {
    (k: nat) => k < |block.transactions| ==> FaithfulNext(base, vm, block, run(k), k)
  }

  lemma StartsAlike(
    base: Tables, vm: Vm, block: Block, w: Tables, run: nat -> ExecState, plain: nat -> PlainState, n: nat)
    requires n <= |block.transactions| && Agrees(base, EMPTY_CACHE, w)
    requires Executing(base, vm, block, w, run, plain, n)
    ensures AlikeAt(base, run, plain)(0)
  {
  }

  lemma StepAlike(
    base: Tables, vm: Vm, block: Block, w: Tables, run: nat -> ExecState, plain: nat -> PlainState, n: nat, k: nat)
    requires k < n <= |block.transactions| && Executing(base, vm, block, w, run, plain, n)
    requires AlikeAt(base, run, plain)(k)
    ensures AlikeAt(base, run, plain)(k + 1) <==> FaithfulAt(base, vm, block, run)(k)
  {
    assert run(k + 1) == ExecNext(base, vm, block, run(k), k) && plain(k + 1) == PlainNext(vm, block, plain(k), k);
    NextAlikeIff(base, vm, block, run(k), plain(k), k);
  }

  lemma RunAlikeIff(
    base: Tables, vm: Vm, block: Block, w: Tables, run: nat -> ExecState, plain: nat -> PlainState, n: nat)
    requires n <= |block.transactions| && Agrees(base, EMPTY_CACHE, w)
    requires Executing(base, vm, block, w, run, plain, n)
    ensures var alike, faithful := AlikeAt(base, run, plain), FaithfulAt(base, vm, block, run);
      (forall k: nat :: k <= n ==> alike(k)) <==> (forall k: nat :: k < n ==> faithful(k))
  {
    var alike, faithful := AlikeAt(base, run, plain), FaithfulAt(base, vm, block, run);
    StartsAlike(base, vm, block, w, run, plain, n);
    forall k: nat | k < n && alike(k) ensures alike(k + 1) <==> faithful(k) {
      StepAlike(base, vm, block, w, run, plain, n, k);
    }
    Stepwise.StaysAlike(alike, alike, faithful, n);
  }

  /** After each of the first `n` transactions overlay and plain tables are alike. */
  ghost predicate AllAlike(base: Tables, vm: Vm, block: Block, w: Tables, n: nat)
    requires n <= |block.transactions|
  {
    forall k :: 0 <= k <= n ==> Alike(base, ExecTxs(base, vm, block, k), PlainTxs(w, vm, block, k))
  }

  /** The exact condition: overlay and plain tables stay alike throughout exactly when
      every commit is clean. */
  lemma TxsAlikeIff(base: Tables, vm: Vm, block: Block, w: Tables, n: nat)
    requires n <= |block.transactions| && Agrees(base, EMPTY_CACHE, w)
    ensures AllAlike(base, vm, block, w, n) <==> Faithful(base, vm, block, n)
  {
    var run, plain := ExecRun(base, vm, block), PlainRun(w, vm, block);
    var alike := AlikeAt(base, run, plain);
    RunsExecute(base, vm, block, w, n);
    RunAlikeIff(base, vm, block, w, run, plain, n);
    FaithfulRun(base, vm, block, n);
    forall k: nat | k <= n
      ensures alike(k) <==> Alike(base, ExecTxs(base, vm, block, k), PlainTxs(w, vm, block, k)) {}
  }

  // ---- what the flush makes of it ----

  /** Same error, or same transaction results and a flush that answers alike. */
  ghost predicate Refined(base: Tables, number: Option<U64>, r: ExecState, q: PlainState) {
    if r.Err? then q == Err(r.error)
    else
      && q.Ok? && q.value.1 == r.value.1
      && SameButStale(base, r.value.0, Flushed(base, r.value.0, number), q.value.0)
  }

  /** The database answers every account and code read as plain tables do, and a slot
      read exactly when the slot is not one the flush left stale. */
  ghost predicate SameButStale(base: Tables, c: Cache, flushed: Tables, w: Tables) {
    && (forall a :: BasicRef(flushed, a) == BasicRef(w, a))
    && (forall h :: SameCode(base, flushed, w, h))
    && (forall a, s :: StorageRef(flushed, a, s) == StorageRef(w, a, s) <==> !Stale(base, c, a, s))
  }

  /** Under the two hashes for no code, execution sees none and the database is left alone. */
  predicate SameCode(base: Tables, flushed: Tables, w: Tables, h: Word) {
    if NoCodeHash(h) then CodeByHashRef(flushed, h) == CodeByHashRef(base, h) && CodeByHashRef(w, h) == []
    else CodeByHashRef(flushed, h) == CodeByHashRef(w, h)
  }

  lemma FlushAnswers(base: Tables, c: Cache, w: Tables, number: Option<U64>)
    requires CacheOk(base, c) && Agrees(base, c, w)
    ensures SameButStale(base, c, Flushed(base, c, number), w)
  {
    forall a ensures BasicRef(Flushed(base, c, number), a) == BasicRef(w, a) {
      assert CachedAnswer(base, c, AskAccount(a)) == PlainAnswer(w, AskAccount(a));
      FlushedAccountAndCode(base, c, number, a, 0);
    }
    forall h ensures SameCode(base, Flushed(base, c, number), w, h) {
      assert CachedAnswer(base, c, AskCode(h)) == PlainAnswer(w, AskCode(h));
      FlushedAccountAndCode(base, c, number, 0, h);
    }
    forall a, s ensures StorageRef(Flushed(base, c, number), a, s) == StorageRef(w, a, s) <==> !Stale(base, c, a, s) {
      assert CachedAnswer(base, c, AskSlot(a, s)) == PlainAnswer(w, AskSlot(a, s));
      FlushedSlot(base, c, number, a, s);
    }
  }

  /** An unclean commit shows in the database: some read the flush should not change
      comes out different. */
  lemma UncleanShows(base: Tables, c: Cache, w: Tables, changes: Changes, number: Option<U64>)
    requires CacheOk(base, c) && Agrees(base, c, w) && !Clean(base, c, changes)
    ensures !SameButStale(base, Commit(c, changes), Flushed(base, Commit(c, changes), number), PlainCommit(w, changes))
  {
    if a, s :| Revives(base, c, changes, a, s) {
      RevivedShows(base, c, w, changes, number, a, s);
    } else {
      var a :| Masks(c, changes, a);
      MaskedShows(base, c, w, changes, number, a);
    }
  }

  lemma MaskedShows(base: Tables, c: Cache, w: Tables, changes: Changes, number: Option<U64>, a: Address)
    requires CacheOk(base, c) && Agrees(base, c, w) && Masks(c, changes, a)
    ensures !SameButStale(base, Commit(c, changes), Flushed(base, Commit(c, changes), number), PlainCommit(w, changes))
  {
    CommitKeepsOk(base, c, changes);
    MaskedRead(base, c, w, changes, a);
    CodeShows(base, Commit(c, changes), PlainCommit(w, changes), number, changes[a].info.codeHash);
  }

  lemma MaskedRead(base: Tables, c: Cache, w: Tables, changes: Changes, a: Address)
    requires CacheOk(base, c) && Agrees(base, c, w) && Masks(c, changes, a)
    ensures CachedCode(base, Commit(c, changes), changes[a].info.codeHash)
      != CodeByHashRef(PlainCommit(w, changes), changes[a].info.codeHash)
  {
    CommitAnswer(base, c, w, changes, AskCode(changes[a].info.codeHash));
  }

  lemma CodeShows(base: Tables, c: Cache, w: Tables, number: Option<U64>, h: Word)
    requires CacheOk(base, c) && CachedCode(base, c, h) != CodeByHashRef(w, h)
    ensures !SameButStale(base, c, Flushed(base, c, number), w)
  {
    FlushedAccountAndCode(base, c, number, 0, h);
    assert !SameCode(base, Flushed(base, c, number), w, h);
  }

  lemma RevivedShows(base: Tables, c: Cache, w: Tables, changes: Changes, number: Option<U64>, a: Address, s: Word)
    requires CacheOk(base, c) && Agrees(base, c, w) && Revives(base, c, changes, a, s)
    ensures !SameButStale(base, Commit(c, changes), Flushed(base, Commit(c, changes), number), PlainCommit(w, changes))
  {
    var c' := Commit(c, changes);
    CommitKeepsOk(base, c, changes);
    CommitAt(c, changes, a);
    if a in c.accounts { assert AccountOk(base, a, c.accounts[a]); }
    assert !Stale(base, c', a, s);
    CommitAnswer(base, c, w, changes, AskSlot(a, s));
    FlushedSlot(base, c', number, a, s);
  }

  lemma NextRefinedIff(base: Tables, vm: Vm, block: Block, r: ExecState, q: PlainState, i: nat, number: Option<U64>)
    requires i < |block.transactions| && Alike(base, r, q)
    ensures Refined(base, number, ExecNext(base, vm, block, r, i), PlainNext(vm, block, q, i))
      <==> FaithfulNext(base, vm, block, r, i)
  {
    NextAlikeIff(base, vm, block, r, q, i);
    if FaithfulNext(base, vm, block, r, i) {
      AlikeRefined(base, number, ExecNext(base, vm, block, r, i), PlainNext(vm, block, q, i));
    } else {
      NextUnclean(base, vm, block, r.value.0, r.value.1, q.value.0, i, number);
    }
  }

  lemma AlikeRefined(base: Tables, number: Option<U64>, r: ExecState, q: PlainState)
    requires Alike(base, r, q)
    ensures Refined(base, number, r, q)
  {
    if r.Ok? { FlushAnswers(base, r.value.0, q.value.0, number); }
  }

  lemma NextUnclean(
    base: Tables, vm: Vm, block: Block, c: Cache, results: seq<TxResult>, w: Tables, i: nat, number: Option<U64>)
    requires i < |block.transactions| && CacheOk(base, c) && Agrees(base, c, w) && !FaithfulTx(base, vm, block, c, i)
    ensures !Refined(base, number,
      Extend(results, ExecTx(base, vm, block, c, i)), Extend(results, PlainTx(w, vm, block, i)))
  {
    RunsAgree(base, c, w, TxEvm(vm, block, i), []);
    var (c', finish) := RunCached(base, c, TxEvm(vm, block, i), []);
    UncleanShows(base, c', w, finish.state, number);
  }

  ghost function RefinedAt(
    base: Tables, number: Option<U64>, run: nat -> ExecState, plain: nat -> PlainState): nat -> bool
  {
    (k: nat) => Refined(base, number, run(k), plain(k))
  }

  lemma StepRefined(
    base: Tables, vm: Vm, block: Block, w: Tables, run: nat -> ExecState, plain: nat -> PlainState,
    number: Option<U64>, n: nat, k: nat)
    requires k < n <= |block.transactions| && Executing(base, vm, block, w, run, plain, n)
    requires AlikeAt(base, run, plain)(k)
    ensures RefinedAt(base, number, run, plain)(k + 1) <==> FaithfulAt(base, vm, block, run)(k)
  {
    assert run(k + 1) == ExecNext(base, vm, block, run(k), k) && plain(k + 1) == PlainNext(vm, block, plain(k), k);
    NextRefinedIff(base, vm, block, run(k), plain(k), k, number);
  }

  lemma RunRefinedIff(
    base: Tables, vm: Vm, block: Block, w: Tables, run: nat -> ExecState, plain: nat -> PlainState,
    number: Option<U64>, n: nat)
    requires n <= |block.transactions| && Agrees(base, EMPTY_CACHE, w)
    requires Executing(base, vm, block, w, run, plain, n)
    ensures var refined, faithful := RefinedAt(base, number, run, plain), FaithfulAt(base, vm, block, run);
      (forall k: nat :: k <= n ==> refined(k)) <==> (forall k: nat :: k < n ==> faithful(k))
  {
    var alike, faithful := AlikeAt(base, run, plain), FaithfulAt(base, vm, block, run);
    var refined := RefinedAt(base, number, run, plain);
    StartsAlike(base, vm, block, w, run, plain, n);
    AlikeRefined(base, number, run(0), plain(0));
    forall k: nat | k < n && alike(k) ensures (refined(k + 1) <==> faithful(k)) && (faithful(k) ==> alike(k + 1)) {
      StepAlike(base, vm, block, w, run, plain, n, k);
      StepRefined(base, vm, block, w, run, plain, number, n, k);
    }
    Stepwise.StaysAlike(alike, refined, faithful, n);
  }

  /** After each of the first `n` transactions a flush would answer as plain tables do,
      stale slots aside. */
  ghost predicate AllRefined(base: Tables, vm: Vm, block: Block, w: Tables, number: Option<U64>, n: nat)
    requires n <= |block.transactions|
  {
    forall k :: 0 <= k <= n ==> Refined(base, number, ExecTxs(base, vm, block, k), PlainTxs(w, vm, block, k))
  }

  /** The block's main theorem: after every number of transactions a flush would answer
      as plain tables do, stale slots aside, exactly when every commit is clean. */
  lemma BlockRefinesIff(base: Tables, vm: Vm, block: Block, w: Tables, number: Option<U64>, n: nat)
    requires n <= |block.transactions| && Agrees(base, EMPTY_CACHE, w)
    ensures AllRefined(base, vm, block, w, number, n) <==> Faithful(base, vm, block, n)
  {
    var run, plain := ExecRun(base, vm, block), PlainRun(w, vm, block);
    var refined := RefinedAt(base, number, run, plain);
    RunsExecute(base, vm, block, w, n);
    RunRefinedIff(base, vm, block, w, run, plain, number, n);
    FaithfulRun(base, vm, block, n);
    forall k: nat | k <= n
      ensures refined(k) <==> Refined(base, number, ExecTxs(base, vm, block, k), PlainTxs(w, vm, block, k)) {}
  }

  // ---- from block to block ----

  /** The plain tables a fresh overlay over `t` agrees with: slots under addresses
      without an account are not there, nor is code under the hashes for none. */
  function Live(t: Tables): Tables {
    t.(storage := map k | k in t.storage && k.0 in t.accounts :: t.storage[k],
       code := t.code - {0, KECCAK_EMPTY})
  }

  lemma FreshOverlayAgrees(t: Tables)
    ensures Agrees(t, EMPTY_CACHE, Live(t))
  {
  }

  /** A stale slot the next block can see: its account exists. */
  ghost predicate NoVisibleStale(base: Tables, c: Cache) {
    forall a, s :: Stale(base, c, a, s) ==> CachedBasic(base, c, a).None?
  }

  lemma NextSlot(base: Tables, c: Cache, flushed: Tables, w: Tables, a: Address, s: Word)
    requires CacheOk(base, c) && SameButStale(base, c, flushed, w) && Agrees(base, c, w)
    ensures CachedSlot(flushed, EMPTY_CACHE, a, s) == StorageRef(w, a, s)
      <==> (Stale(base, c, a, s) ==> CachedBasic(base, c, a).None?)
  {
    assert CachedAnswer(base, c, AskAccount(a)) == PlainAnswer(w, AskAccount(a));
    assert CachedAnswer(base, c, AskSlot(a, s)) == PlainAnswer(w, AskSlot(a, s));
    assert BasicRef(flushed, a) == BasicRef(w, a);
    if a in c.accounts { assert AccountOk(base, a, c.accounts[a]); }
  }

  predicate Visible(base: Tables, c: Cache, r: Request) {
    r.AskSlot? && Stale(base, c, r.address, r.slot) && CachedBasic(base, c, r.address).Some?
  }

  lemma NextAnswer(base: Tables, c: Cache, flushed: Tables, w: Tables, r: Request)
    requires CacheOk(base, c) && SameButStale(base, c, flushed, w) && Agrees(base, c, w)
    ensures CachedAnswer(flushed, EMPTY_CACHE, r) == PlainAnswer(w, r) <==> !Visible(base, c, r)
  {
    match r
    case AskAccount(a) => assert BasicRef(flushed, a) == BasicRef(w, a);
    case AskSlot(a, s) => NextSlot(base, c, flushed, w, a, s);
    case AskCode(h) => assert SameCode(base, flushed, w, h);
  }

  lemma NoneVisible(base: Tables, c: Cache, flushed: Tables, w: Tables)
    requires forall r :: (CachedAnswer(flushed, EMPTY_CACHE, r) == PlainAnswer(w, r) <==> !Visible(base, c, r))
    ensures Agrees(flushed, EMPTY_CACHE, w) <==> NoVisibleStale(base, c)
  {
    if Agrees(flushed, EMPTY_CACHE, w) {
      forall a, s | Stale(base, c, a, s) ensures CachedBasic(base, c, a).None? {
        assert !Visible(base, c, AskSlot(a, s));
      }
    }
  }

  /** The next block starts out in agreement exactly when no stale slot is left
      under an existing account. */
  lemma NextBlockAgreesIff(base: Tables, c: Cache, w: Tables, number: Option<U64>)
    requires CacheOk(base, c) && Agrees(base, c, w)
    ensures Agrees(Flushed(base, c, number), EMPTY_CACHE, w) <==> NoVisibleStale(base, c)
  {
    FlushAnswers(base, c, w, number);
    forall r { NextAnswer(base, c, Flushed(base, c, number), w, r); }
    NoneVisible(base, c, Flushed(base, c, number), w);
  }

  ghost function AfterBlock(vm: Vm, p: Parsers, t: Tables, block: Block): Result<Tables, Error> {
    match BlockCommits(vm, p, t, block)
    case Err(e) => Err(e)
    case Ok(states) => Ok(states[|states| - 1])
  }

  /** Replaying `blocks` one after the other. */
  ghost function ReplayAll(vm: Vm, p: Parsers, t: Tables, blocks: seq<Block>): Result<Tables, Error> {
    if blocks == [] then Ok(t)
    else
      match ReplayAll(vm, p, t, blocks[..|blocks| - 1])
      case Err(e) => Err(e)
      case Ok(u) => AfterBlock(vm, p, u, blocks[|blocks| - 1])
  }

  // ---- the conditions are needed ----

  const CONTRACT := AccountInfo(1, 0, 0)
  const WITH_SLOT := Tables(map[1 := CONTRACT], map[(1, 7) := 5], map[], None)
  const DESTROY: Changes := map[1 := Change(true, true, false, CONTRACT, None, map[])]
  const RECREATE: Changes := map[1 := Change(true, false, true, CONTRACT, None, map[])]
  const TOUCH: Changes := map[1 := Change(true, false, false, CONTRACT, None, map[])]

  /** A destroyed contract's slot stays on disk. */
  lemma StaleAfterDestroy()
    ensures StorageRef(Flushed(WITH_SLOT, Commit(EMPTY_CACHE, DESTROY), Some(1)), 1, 7) == 5
    ensures StorageRef(PlainCommit(WITH_SLOT, DESTROY), 1, 7) == 0
  {
    FlushedStorageAt(WITH_SLOT.storage, Commit(EMPTY_CACHE, DESTROY), 1, 7);
  }

  /** A recreated contract's old slot is visible to the next block. */
  lemma StaleAfterRecreate()
    ensures CachedSlot(Flushed(WITH_SLOT, Commit(EMPTY_CACHE, RECREATE), Some(1)), EMPTY_CACHE, 1, 7) == 5
    ensures StorageRef(PlainCommit(WITH_SLOT, RECREATE), 1, 7) == 0
  {
    var c := Commit(EMPTY_CACHE, RECREATE);
    CommitAt(EMPTY_CACHE, RECREATE, 1);
    FlushedStorageAt(WITH_SLOT.storage, c, 1, 7);
    FlushedAccountsAt(WITH_SLOT.accounts, c, 1);
  }

  lemma TouchedAgain(c: Cache)
    requires Lookup(c.accounts, 1) == Some(DbAccount(DEFAULT_INFO, NotExisting, map[]))
    ensures CachedSlot(WITH_SLOT, Commit(c, TOUCH), 1, 7) == 5
  {
    CommitAt(c, TOUCH, 1);
  }

  lemma DestroyedForGood()
    ensures StorageRef(PlainCommit(PlainCommit(WITH_SLOT, DESTROY), TOUCH), 1, 7) == 0
  {
    PlainStorageAt(WITH_SLOT.storage, DESTROY, 1, 7);
    PlainStorageAt(PlainCommit(WITH_SLOT, DESTROY).storage, TOUCH, 1, 7);
  }

  /** Within one block, destroying and then touching an account uncovers its old slot. */
  lemma RevivedWithinBlock()
    ensures CachedSlot(WITH_SLOT, Commit(Commit(EMPTY_CACHE, DESTROY), TOUCH), 1, 7) == 5
    ensures StorageRef(PlainCommit(PlainCommit(WITH_SLOT, DESTROY), TOUCH), 1, 7) == 0
  {
    CommitAt(EMPTY_CACHE, DESTROY, 1);
    TouchedAgain(Commit(EMPTY_CACHE, DESTROY));
    DestroyedForGood();
  }
}
