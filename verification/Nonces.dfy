/** What sender nonces make of a restart between the two commits of a hybrid block:
    ordinary transactions are rejected the second time (crates/replayer). */
module Nonces {
  import opened Types
  import opened StateTables
  import opened Blocks
  import opened StateDiffs
  import opened Overlay
  import opened Flush
  import opened Replay
  import opened Pipeline
  import opened Restarts
  import opened Modes
  import Stepwise

  /** The caller a transaction runs as, and the nonce it carries. */
  function Sender(tx: Transaction): Address {
    tx.from.UnwrapOr(0)
  }

  function TxNonce(tx: Transaction): nat {
    tx.nonce.UnwrapOr(0)
  }

  function NonceOf(info: Option<AccountInfo>): nat {
    if info.Some? then info.value.nonce else 0
  }

  /** The nonce of `a` as execution over the overlay sees it. */
  function NonceAt(base: Tables, c: Cache, a: Address): nat {
    NonceOf(CachedBasic(base, c, a))
  }

  /** Transaction `i`, if it is executed, finds its sender's nonce equal to its own, leaves
      it higher, and lowers no nonce of a sender executed before it. */
  ghost predicate NonceStep(base: Tables, vm: Vm, block: Block, c: Cache, i: nat)
    requires i < |block.transactions|
  {
    var (c', finish) := RunCached(base, c, TxEvm(vm, block, i), []);
    var tx := block.transactions[i];
    finish.Executed? ==>
      && NonceAt(base, c, Sender(tx)) == TxNonce(tx)
      && NonceAt(base, Commit(c', finish.state), Sender(tx)) > TxNonce(tx)
      && NoneLower(block, base, c, Commit(c', finish.state), i)
  }

  ghost predicate NoneLower(block: Block, base: Tables, c: Cache, c': Cache, n: nat)
    requires n <= |block.transactions|
  {
    forall j :: 0 <= j < n && !Skipped(block, j) ==>
      NonceAt(base, c', Sender(block.transactions[j])) >= NonceAt(base, c, Sender(block.transactions[j]))
  }

  /** The block's run from `t` keeps to the nonce rules, transaction by transaction. */
  ghost predicate RulesAlong(vm: Vm, t: Tables, block: Block) {
    forall i :: 0 <= i < |block.transactions| ==> RuledAt(vm, t, block, i)
  }

  ghost predicate RuledAt(vm: Vm, t: Tables, block: Block, i: nat)
    requires i < |block.transactions|
  {
    RuledNext(vm, t, block, ExecTxs(t, vm, block, i), i)
  }

  ghost predicate RuledNext(vm: Vm, t: Tables, block: Block, r: ExecState, i: nat)
    requires i < |block.transactions|
  {
    !Skipped(block, i) && r.Ok? ==> NonceStep(t, vm, block, r.value.0, i)
  }

  /** So do its run from `t` and the run over what that one flushes. */
  ghost predicate RulesFrom(vm: Vm, t: Tables, block: Block) {
    && RulesAlong(vm, t, block)
    && (Execution(vm, t, block).Ok? ==>
         RulesAlong(vm, Flushed(t, Execution(vm, t, block).value.0, None), block))
  }

  /** Every transaction of the block is a system transaction left to its diffs. */
  predicate AllSkipped(block: Block) {
    forall i :: 0 <= i < |block.transactions| ==> Skipped(block, i)
  }

  // ---- the nonces a block leaves behind ----

  /** The sender of every executed transaction so far has moved past its nonce. */
  ghost predicate Moved(block: Block, base: Tables, c: Cache, n: nat)
    requires n <= |block.transactions|
  {
    forall j :: 0 <= j < n && !Skipped(block, j) ==>
      NonceAt(base, c, Sender(block.transactions[j])) > TxNonce(block.transactions[j])
  }

  lemma MovedNext(block: Block, base: Tables, vm: Vm, c: Cache, n: nat)
    requires n < |block.transactions| && (!Skipped(block, n) ==> NonceStep(base, vm, block, c, n))
    requires Moved(block, base, c, n) && ExecTx(base, vm, block, c, n).Ok?
    ensures Moved(block, base, ExecTx(base, vm, block, c, n).value.0, n + 1)
  {
    if !Skipped(block, n) { assert NoneLower(block, base, c, ExecTx(base, vm, block, c, n).value.0, n); }
  }

  ghost predicate HasMoved(block: Block, base: Tables, r: ExecState, n: nat)
    requires n <= |block.transactions|
  {
    r.Ok? ==> CacheOk(base, r.value.0) && Moved(block, base, r.value.0, n)
  }

  lemma HasMovedNext(base: Tables, vm: Vm, block: Block, r: ExecState, n: nat)
    requires n < |block.transactions| && HasMoved(block, base, r, n) && RuledNext(vm, base, block, r, n)
    ensures HasMoved(block, base, ExecNext(base, vm, block, r, n), n + 1)
  {
    if r.Ok? && ExecTx(base, vm, block, r.value.0, n).Ok? {
      ExecKeepsOk(base, vm, block, r.value.0, n);
      MovedNext(block, base, vm, r.value.0, n);
    }
  }

  ghost function HasMovedAt(block: Block, base: Tables, run: nat -> ExecState): nat -> bool {
    (k: nat) => k <= |block.transactions| ==> HasMoved(block, base, run(k), k)
  }

  lemma RunMoves(base: Tables, vm: Vm, block: Block, run: nat -> ExecState, n: nat)
    requires n <= |block.transactions| && run(0) == Ok((EMPTY_CACHE, []))
    requires forall k: nat :: k < n ==> run(k + 1) == ExecNext(base, vm, block, run(k), k)
    requires forall k: nat :: k < n ==> RuledNext(vm, base, block, run(k), k)
    ensures HasMovedAt(block, base, run)(n)
  {
    var moved := HasMovedAt(block, base, run);
    forall k: nat | k < n && moved(k) ensures moved(k + 1) { HasMovedNext(base, vm, block, run(k), k); }
    Stepwise.Preserved(moved, n);
  }

  lemma ExecMoves(base: Tables, vm: Vm, block: Block, n: nat)
    requires n <= |block.transactions| && RulesAlong(vm, base, block)
    ensures HasMoved(block, base, ExecTxs(base, vm, block, n), n)
  {
    var run := ExecRun(base, vm, block);
    RunsExecute(base, vm, block, base, n);
    forall k: nat | k < n ensures RuledNext(vm, base, block, run(k), k) { assert RuledAt(vm, base, block, k); }
    RunMoves(base, vm, block, run, n);
    assert HasMovedAt(block, base, run)(n);
  }

  // ---- executing the block again over its own output ----

  lemma {:induction false} SkippedLeaveNothing(t: Tables, vm: Vm, block: Block, n: nat)
    requires n <= |block.transactions| && forall i :: 0 <= i < n ==> Skipped(block, i)
    ensures ExecTxs(t, vm, block, n).Ok? && ExecTxs(t, vm, block, n).value.0 == EMPTY_CACHE
    decreases n
  {
    if n > 0 { SkippedLeaveNothing(t, vm, block, n - 1); }
  }

  /** The first transaction executed is refused: its sender's nonce has moved. */
  lemma FirstRefused(t: Tables, vm: Vm, block: Block, i: nat)
    requires RulesFrom(vm, t, block) && Execution(vm, t, block).Ok?
    requires i < |block.transactions| && !Skipped(block, i) && forall j :: 0 <= j < i ==> Skipped(block, j)
    ensures Execution(vm, Flushed(t, Execution(vm, t, block).value.0, None), block).Err?
  {
    var n := |block.transactions|;
    var c := Execution(vm, t, block).value.0;
    var flushed := Flushed(t, c, None);
    var sender := Sender(block.transactions[i]);
    ExecMoves(t, vm, block, n);
    assert NonceAt(t, c, sender) > TxNonce(block.transactions[i]);
    FlushedNonce(t, c, sender);
    RefusedAt(flushed, vm, block, i);
  }

  lemma FlushedNonce(t: Tables, c: Cache, a: Address)
    requires CacheOk(t, c)
    ensures NonceAt(Flushed(t, c, None), EMPTY_CACHE, a) == NonceAt(t, c, a)
  {
    FlushedAccountAndCode(t, c, None, a, 0);
  }

  /** Over tables where the first transaction executed is past its nonce, the block fails. */
  lemma RefusedAt(t: Tables, vm: Vm, block: Block, i: nat)
    requires RulesAlong(vm, t, block)
    requires i < |block.transactions| && !Skipped(block, i) && forall j :: 0 <= j < i ==> Skipped(block, j)
    requires NonceAt(t, EMPTY_CACHE, Sender(block.transactions[i])) > TxNonce(block.transactions[i])
    ensures Execution(vm, t, block).Err?
  {
    SkippedLeaveNothing(t, vm, block, i);
    assert RuledAt(vm, t, block, i);
    assert ExecTx(t, vm, block, EMPTY_CACHE, i).Err?;
    ErrorSticks(t, vm, block, i + 1, |block.transactions|);
  }

  lemma {:induction false} FirstExecuted(block: Block, n: nat) returns (i: nat)
    requires n <= |block.transactions| && exists j :: 0 <= j < n && !Skipped(block, j)
    ensures i < n && !Skipped(block, i) && forall j :: 0 <= j < i ==> Skipped(block, j)
  {
    if j :| 0 <= j < n - 1 && !Skipped(block, j) {
      i := FirstExecuted(block, n - 1);
    } else {
      i := n - 1;
    }
  }

  lemma AllSkippedAgain(t: Tables, vm: Vm, block: Block)
    requires AllSkipped(block)
    ensures Execution(vm, t, block).Ok? && IdempotentOver(vm, t, block)
  {
    SkippedLeaveNothing(t, vm, block, |block.transactions|);
    EmptyFlush(t);
  }

  /** The main theorem. Restarted between its two commits, a block executes again
      exactly when none of its transactions is executed at all, and then it is
      idempotent; otherwise the re-execution is rejected. */
  lemma ExecutesAgainIff(vm: Vm, p: Parsers, t: Tables, block: Block)
    requires block.stateDiffs != [] && RulesFrom(vm, t, block) && Execution(vm, t, block).Ok?
    ensures var flushed := BlockCommits(vm, p, t, block).value[0];
      && (Execution(vm, flushed, block).Ok? <==> AllSkipped(block))
      && (IdempotentOver(vm, flushed, block) <==> AllSkipped(block))
  {
    HybridCommits(vm, p, t, block);
    var flushed := BlockCommits(vm, p, t, block).value[0];
    if AllSkipped(block) {
      AllSkippedAgain(flushed, vm, block);
    } else {
      var i := FirstExecuted(block, |block.transactions|);
      FirstRefused(t, vm, block, i);
    }
  }

  /** A restart between the commits reaches the uncrashed end, and by the same states,
      exactly when the block executes nothing. */
  lemma RestartEndsAlikeIff(vm: Vm, p: Parsers, t: Tables, block: Block)
    requires block.stateDiffs != [] && RulesFrom(vm, t, block) && Execution(vm, t, block).Ok?
    ensures var r := BlockCommits(vm, p, t, block);
      && (BlockCommits(vm, p, r.value[0], block) == r <==> AllSkipped(block))
      && (AfterBlock(vm, p, r.value[0], block) == Ok(r.value[1]) <==> AllSkipped(block))
  {
    HybridCommits(vm, p, t, block);
    ExecutesAgainIff(vm, p, t, block);
    HybridSameStatesIff(vm, p, t, block);
    var flushed := BlockCommits(vm, p, t, block).value[0];
    if Execution(vm, flushed, block).Err? { HybridFails(vm, p, flushed, block); }
  }

  // ---- a whole chain ----

  /** The block replayed `k`-th. */
  function BlockAt(h: History, k: nat): Block {
    h.chain(h.Next(h.base) + k)
  }

  /** A chain of numbered blocks of which each that carries diffs keeps to the nonce
      rules from the state the chain reaches it in. */
  ghost predicate Ruled(vm: Vm, p: Parsers, h: History) {
    && h.replay == ReplayWith(vm, p) && h.Next(h.base) <= U64_LIMIT
    && (forall n :: 0 <= n < U64_LIMIT ==> h.chain(n).number == n)
    && forall k :: h.At(k).Ok? && BlockAt(h, k).stateDiffs != [] ==> RulesFrom(vm, h.At(k).value, BlockAt(h, k))
  }

  lemma RuledFrom(vm: Vm, p: Parsers, h: History, k: nat)
    requires Ruled(vm, p, h) && h.At(k).Ok?
    ensures IdempotentFrom(vm, p, h.At(k).value, BlockAt(h, k))
  {
    if BlockAt(h, k).stateDiffs != [] && Execution(vm, h.At(k).value, BlockAt(h, k)).Ok? {
      ExecutesAgainIff(vm, p, h.At(k).value, BlockAt(h, k));
    }
  }

  lemma RuledIdempotent(vm: Vm, p: Parsers, h: History, k: nat)
    requires Ruled(vm, p, h)
    ensures h.Idempotent(k)
  {
    if h.At(k).Ok? {
      RuledFrom(vm, p, h, k);
      IdempotentBlock(vm, p, h.At(k).value, BlockAt(h, k));
    }
  }

  lemma RuledHarmless(vm: Vm, p: Parsers, h: History)
    requires Ruled(vm, p, h)
    ensures h.Valid() && h.Harmless() && NoGapErrors(h.replay)
  {
    ReplayMovesHead(vm, p);
    ReplayNoGapErrors(vm, p);
    forall k: nat ensures h.Idempotent(k) { RuledIdempotent(vm, p, h, k); }
  }

  /** No block of such a chain is ever applied twice: over any crashes and restarts the
      database is the exact fold of the chain, or between the commits of one block. */
  lemma HybridNeverTwice(vm: Vm, p: Parsers, h: History, sessions: seq<Session>)
    requires Ruled(vm, p, h) && GoodSessions(h, sessions)
    ensures h.Reached(AfterAll(h, sessions))
  {
    RuledHarmless(vm, p, h);
    RestartsSafe(h, sessions);
  }

  lemma FlushedReplaysIff(vm: Vm, p: Parsers, u: Tables, block: Block)
    requires block.stateDiffs != [] && RulesFrom(vm, u, block) && Execution(vm, u, block).Ok?
    ensures BlockCommits(vm, p, BlockCommits(vm, p, u, block).value[0], block).Ok? <==> AllSkipped(block)
  {
    ExecutesAgainIff(vm, p, u, block);
    var t := BlockCommits(vm, p, u, block).value[0];
    if Execution(vm, t, block).Ok? { HybridCommits(vm, p, t, block); } else { HybridFails(vm, p, t, block); }
  }

  /** A block with two commits carries diffs and executes. */
  lemma TwoCommitsHybrid(vm: Vm, p: Parsers, u: Tables, block: Block)
    requires BlockCommits(vm, p, u, block).Ok? && |BlockCommits(vm, p, u, block).value| == 2
    ensures block.stateDiffs != [] && Execution(vm, u, block).Ok?
  {
    if block.stateDiffs == [] { OneCommit(vm, p, u, block); }
  }

  lemma BetweenBlock(vm: Vm, p: Parsers, u: Tables, block: Block, t: Tables)
    requires var r := BlockCommits(vm, p, u, block); r.Ok? && |r.value| == 2 && r.value[0] == t
    requires block.stateDiffs != [] ==> RulesFrom(vm, u, block)
    ensures BlockCommits(vm, p, t, block).Ok? <==> AllSkipped(block)
  {
    TwoCommitsHybrid(vm, p, u, block);
    FlushedReplaysIff(vm, p, u, block);
  }

  lemma Replays(vm: Vm, p: Parsers, h: History, t: Tables, block: Block)
    requires h.replay == ReplayWith(vm, p)
    ensures h.replay(t, block) == BlockCommits(vm, p, t, block)
  {
  }

  lemma BetweenIs(h: History, t: Tables) returns (k: nat)
    requires h.Between(t)
    ensures h.At(k).Ok? && h.chain(h.Next(t)) == BlockAt(h, k)
    ensures var r := h.replay(h.At(k).value, BlockAt(h, k)); r.Ok? && |r.value| == 2 && r.value[0] == t
  {
    k := h.Next(t) - h.Next(h.base);
  }

  /** Between the commits of a block, replaying it succeeds exactly when it executes
      nothing. */
  lemma BetweenReplaysIff(vm: Vm, p: Parsers, h: History, t: Tables)
    requires Ruled(vm, p, h) && h.Between(t)
    ensures h.replay(t, h.chain(h.Next(t))).Ok? <==> AllSkipped(h.chain(h.Next(t)))
  {
    var k := BetweenIs(h, t);
    var u, block := h.At(k).value, BlockAt(h, k);
    Replays(vm, p, h, u, block);
    Replays(vm, p, h, t, block);
    assert block.stateDiffs != [] ==> RulesFrom(vm, u, block);
    BetweenBlock(vm, p, u, block, t);
  }

  /** After a crash between the commits a full run makes progress exactly when the block
      executes nothing... */
  lemma HybridProgressIff(vm: Vm, p: Parsers, h: History, t: Tables, s: Session)
    requires Ruled(vm, p, h) && h.Between(t) && OnChain(h, s) && StartsLowEnough(h, t, s)
    requires s.start <= h.Next(t) < s.start + |s.items| && forall i :: 0 <= i < |s.items| ==> s.items[i].Ok?
    requires s.cut >= |RunOn(h.replay, s.keepGoing, t, s.items, |s.items|).states|
    ensures h.Next(After(h, t, s)) > h.Next(t) <==> AllSkipped(h.chain(h.Next(t)))
  {
    RuledHarmless(vm, p, h);
    BetweenReplaysIff(vm, p, h, t);
    ProgressIff(h, t, s);
  }

  /** ...and otherwise the crash is for good: no later run changes the database again. */
  lemma HybridWedged(vm: Vm, p: Parsers, h: History, sessions: seq<Session>, later: seq<Session>)
    requires Ruled(vm, p, h) && GoodSessions(h, sessions + later)
    requires h.Between(AfterAll(h, sessions)) && !AllSkipped(h.chain(h.Next(AfterAll(h, sessions))))
    ensures AfterAll(h, sessions + later) == AfterAll(h, sessions)
  {
    RuledHarmless(vm, p, h);
    BetweenReplaysIff(vm, p, h, AfterAll(h, sessions));
    StuckForever(h, sessions, later);
  }

  // ---- one such block ----

  /** A transaction that increments slot 0 of contract 1, if its sender's nonce is right. */
  function AskNext(sender: Address, nonce: U64, answers: seq<Answer>): Step {
    if answers == [] then Ask(AskAccount(sender))
    else if SeenNonce(answers) == nonce && nonce + 1 < U64_LIMIT then Ask(AskSlot(1, 0))
    else Halt(Rejected("nonce"))
  }

  function SeenNonce(answers: seq<Answer>): nat {
    if answers != [] && answers[0].AccountAnswer? then NonceOf(answers[0].info) else 0
  }

  function Incremented(answers: seq<Answer>): Word {
    if |answers| == 2 && answers[1].SlotAnswer? && answers[1].word < 100 then answers[1].word + 1 else 0
  }

  function IncrementChanges(sender: Address, nonce: U64, answers: seq<Answer>): Changes {
    map[1 := Change(true, false, false, CONTRACT, None, map[0 := Incremented(answers)]),
        sender := Change(
          true, false, false, AccountInfo(if nonce + 1 < U64_LIMIT then nonce + 1 else 0, 0, 0), None, map[])]
  }

  function IncrementEvm(sender: Address, nonce: U64): Evm {
    Evm(2, answers => AskNext(sender, nonce, answers),
      answers => Finish.Executed(21000, true, [], IncrementChanges(sender, nonce, answers)))
  }

  const INCREMENT := Vm((block, i, isSystem) => IncrementEvm(9, 0))
  const COUNTER := Tables(map[1 := CONTRACT], map[(1, 0) := 0], map[], Some(4))
  const COUNT_BLOCK :=
    Block(5, [Transaction(Some(9), Some(21000), Some(0))], [StateDiff(Some(2), None, None, None)])

  lemma IncrementRun(base: Tables, c: Cache)
    ensures var (c', finish) := RunCached(base, c, TxEvm(INCREMENT, COUNT_BLOCK, 0), []);
      if NonceAt(base, c, 9) == 0
      then finish == Finish.Executed(21000, true, [], IncrementChanges(9, 0,
             [CachedAnswer(base, c, AskAccount(9)), CachedAnswer(base, Load(base, c, AskAccount(9)), AskSlot(1, 0))]))
      else finish == Rejected("nonce")
  {
    var evm := TxEvm(INCREMENT, COUNT_BLOCK, 0);
    var first := CachedAnswer(base, c, AskAccount(9));
    var c1 := Load(base, c, AskAccount(9));
    assert [] + [first] == [first];
    assert RunCached(base, c, evm, []) == RunCached(base, c1, evm, [first]);
    if NonceAt(base, c, 9) == 0 {
      var second := CachedAnswer(base, c1, AskSlot(1, 0));
      assert [first] + [second] == [first, second];
      assert RunCached(base, c1, evm, [first]) == RunCached(base, Load(base, c1, AskSlot(1, 0)), evm, [first, second]);
    }
  }

  lemma IncrementStep(base: Tables, c: Cache)
    ensures NonceStep(base, INCREMENT, COUNT_BLOCK, c, 0)
  {
    IncrementRun(base, c);
    var (c', finish) := RunCached(base, c, TxEvm(INCREMENT, COUNT_BLOCK, 0), []);
    if finish.Executed? { CommitAt(c', finish.state, 9); }
  }

  lemma IncrementAlong(t: Tables)
    ensures RulesAlong(INCREMENT, t, COUNT_BLOCK)
  {
    forall i | 0 <= i < |COUNT_BLOCK.transactions| ensures RuledAt(INCREMENT, t, COUNT_BLOCK, i) {
      if ExecTxs(t, INCREMENT, COUNT_BLOCK, i).Ok? { IncrementStep(t, ExecTxs(t, INCREMENT, COUNT_BLOCK, i).value.0); }
    }
  }

  lemma IncrementRules(t: Tables)
    ensures RulesFrom(INCREMENT, t, COUNT_BLOCK)
  {
    IncrementAlong(t);
    if Execution(INCREMENT, t, COUNT_BLOCK).Ok? {
      IncrementAlong(Flushed(t, Execution(INCREMENT, t, COUNT_BLOCK).value.0, None));
    }
  }

  /** The block's one transaction over tables where it is accepted. */
  lemma IncrementExecuted(base: Tables)
    requires NonceAt(base, EMPTY_CACHE, 9) == 0
    ensures var (c', finish) := RunCached(base, EMPTY_CACHE, TxEvm(INCREMENT, COUNT_BLOCK, 0), []);
      && finish.Executed?
      && Execution(INCREMENT, base, COUNT_BLOCK) == Ok((Commit(c', finish.state), [TxResult(21000, true)]))
  {
    IncrementRun(base, EMPTY_CACHE);
    assert ExecTxs(base, INCREMENT, COUNT_BLOCK, 0) == Ok((EMPTY_CACHE, []));
    assert [] + [TxResult(21000, true)] == [TxResult(21000, true)];
  }

  lemma IncrementSlot(base: Tables, changes: Changes, c: Cache)
    requires 1 in changes && changes[1] == Change(true, false, false, CONTRACT, None, map[0 := 1])
    ensures StorageRef(Flushed(base, Commit(c, changes), None), 1, 0) == 1
  {
    CommitAt(c, changes, 1);
    FlushedStorageAt(base.storage, Commit(c, changes), 1, 0);
  }

  lemma IncrementRefused(base: Tables)
    requires NonceAt(base, EMPTY_CACHE, 9) != 0
    ensures Execution(INCREMENT, base, COUNT_BLOCK) == Err(EvmError(5, 0, false, "nonce"))
  {
    IncrementRun(base, EMPTY_CACHE);
    assert ExecTxs(base, INCREMENT, COUNT_BLOCK, 0) == Ok((EMPTY_CACHE, []));
  }

  lemma IncrementNonce(base: Tables)
    requires NonceAt(base, EMPTY_CACHE, 9) == 0
    ensures Execution(INCREMENT, base, COUNT_BLOCK).Ok?
    ensures NonceAt(Flushed(base, Execution(INCREMENT, base, COUNT_BLOCK).value.0, None), EMPTY_CACHE, 9) > 0
  {
    IncrementAlong(base);
    IncrementExecuted(base);
    ExecMoves(base, INCREMENT, COUNT_BLOCK, 1);
    var c := Execution(INCREMENT, base, COUNT_BLOCK).value.0;
    assert !Skipped(COUNT_BLOCK, 0);
    FlushedAccountAndCode(base, c, None, 9, 0);
  }

  /** A slot increment, crashed between its commits: the slot is incremented, the head
      is not moved, and the restarted run is rejected for the sender's nonce. */
  lemma IncrementRejected(p: Parsers)
    ensures var r := BlockCommits(INCREMENT, p, COUNTER, COUNT_BLOCK);
      && r.Ok? && |r.value| == 2
      && StorageRef(r.value[0], 1, 0) == 1 && r.value[0].head == Some(4)
      && BlockCommits(INCREMENT, p, r.value[0], COUNT_BLOCK) == Err(EvmError(5, 0, false, "nonce"))
  {
    IncrementNonce(COUNTER);
    HybridCommits(INCREMENT, p, COUNTER, COUNT_BLOCK);
    IncrementFlushed();
    var flushed := Flushed(COUNTER, Execution(INCREMENT, COUNTER, COUNT_BLOCK).value.0, None);
    IncrementRefused(flushed);
    HybridFails(INCREMENT, p, flushed, COUNT_BLOCK);
  }

  lemma CounterRead()
    ensures CachedAnswer(COUNTER, Load(COUNTER, EMPTY_CACHE, AskAccount(9)), AskSlot(1, 0)) == SlotAnswer(0)
  {
    LoadAnswers(COUNTER, EMPTY_CACHE, AskAccount(9), AskSlot(1, 0));
    assert StorageRef(COUNTER, 1, 0) == 0;
  }

  lemma IncrementOf(first: Answer)
    ensures var changes := IncrementChanges(9, 0, [first, SlotAnswer(0)]);
      1 in changes && changes[1] == Change(true, false, false, CONTRACT, None, map[0 := 1])
  {
  }

  lemma IncrementFlushed()
    ensures Execution(INCREMENT, COUNTER, COUNT_BLOCK).Ok?
    ensures StorageRef(Flushed(COUNTER, Execution(INCREMENT, COUNTER, COUNT_BLOCK).value.0, None), 1, 0) == 1
  {
    IncrementExecuted(COUNTER);
    IncrementRun(COUNTER, EMPTY_CACHE);
    CounterRead();
    var first := CachedAnswer(COUNTER, EMPTY_CACHE, AskAccount(9));
    IncrementOf(first);
    IncrementSlot(COUNTER, IncrementChanges(9, 0, [first, SlotAnswer(0)]),
      RunCached(COUNTER, EMPTY_CACHE, TxEvm(INCREMENT, COUNT_BLOCK, 0), []).0);
  }
}
