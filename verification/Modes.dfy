/** What restart safety means for the replayer's two commit modes. */
module Modes {
  import opened Types
  import opened StateTables
  import opened Blocks
  import opened StateDiffs
  import opened Overlay
  import opened Flush
  import opened Replay
  import opened Pipeline
  import opened Restarts
  import Chains

  lemma {:induction false} ExecErrors(t: Tables, vm: Vm, block: Block, n: nat)
    requires n <= |block.transactions| && ExecTxs(t, vm, block, n).Err?
    ensures ExecTxs(t, vm, block, n).error.EvmError?
  {
    if n > 0 && ExecTxs(t, vm, block, n - 1).Err? { ExecErrors(t, vm, block, n - 1); }
  }

  lemma ReplayNoGapErrors(vm: Vm, p: Parsers)
    ensures NoGapErrors(ReplayWith(vm, p))
  {
    forall t, b | ReplayWith(vm, p)(t, b).Err? ensures !ReplayWith(vm, p)(t, b).error.BlockGap? {
      ExecErrors(t, vm, b, |b.transactions|);
    }
  }

  /** A chain of blocks without state diffs: whatever the crashes, the database is
      the exact fold of the chain up to its head. */
  lemma SingleModeSafe(vm: Vm, p: Parsers, h: History, sessions: seq<Session>)
    requires h.replay == ReplayWith(vm, p) && GoodSessions(h, sessions)
    requires h.Next(h.base) <= U64_LIMIT && forall n :: 0 <= n < U64_LIMIT ==> h.chain(n).number == n
    requires forall n :: h.chain(n).stateDiffs == []
    ensures h.Exact(AfterAll(h, sessions))
  {
    ReplayMovesHead(vm, p);
    ReplayNoGapErrors(vm, p);
    forall t, n | h.replay(t, h.chain(n)).Ok? ensures |h.replay(t, h.chain(n)).value| == 1 {
      OneCommit(vm, p, t, h.chain(n));
    }
    SingleCommitExact(h, sessions);
  }

  /** The blocks replayed to get to `t`. */
  function BlocksTo(h: History, t: Tables): seq<Block>
    requires h.Next(t) >= h.Next(h.base)
  {
    h.Blocks(h.Next(t) - h.Next(h.base))
  }

  /** Those blocks are clean, each from the state the chain reaches it in. */
  ghost predicate CleanTo(vm: Vm, p: Parsers, h: History, t: Tables)
    requires h.Next(t) >= h.Next(h.base)
  {
    Chains.CleanUpTo(vm, p, h.base, BlocksTo(h, t), |BlocksTo(h, t)|)
  }

  /** A database at the exact fold of a clean chain answers execution as plain tables do
      that the chain was executed on. */
  lemma ExactRefines(vm: Vm, p: Parsers, h: History, t: Tables)
    requires h.replay == ReplayWith(vm, p) && h.Exact(t) && CleanTo(vm, p, h, t)
    ensures Chains.Following(Ok(t), Chains.PlainAll(vm, p, Live(h.base), BlocksTo(h, t)))
  {
    FoldIsReplayAll(vm, p, h.base, BlocksTo(h, t));
    Chains.ChainRefines(vm, p, h.base, BlocksTo(h, t));
  }

  /** So, for a chain without state diffs, does the database after any crashes and restarts. */
  lemma SingleModeRefines(vm: Vm, p: Parsers, h: History, sessions: seq<Session>)
    requires h.replay == ReplayWith(vm, p) && GoodSessions(h, sessions)
    requires h.Next(h.base) <= U64_LIMIT && forall n :: 0 <= n < U64_LIMIT ==> h.chain(n).number == n
    requires forall n :: h.chain(n).stateDiffs == []
    ensures var t := AfterAll(h, sessions);
      && h.Exact(t)
      && (CleanTo(vm, p, h, t) ==>
           Chains.Following(Ok(t), Chains.PlainAll(vm, p, Live(h.base), BlocksTo(h, t))))
  {
    SingleModeSafe(vm, p, h, sessions);
    var t := AfterAll(h, sessions);
    if CleanTo(vm, p, h, t) { ExactRefines(vm, p, h, t); }
  }

  lemma OneCommit(vm: Vm, p: Parsers, t: Tables, block: Block)
    requires block.stateDiffs == [] && BlockCommits(vm, p, t, block).Ok?
    ensures |BlockCommits(vm, p, t, block).value| == 1
  {
  }

  /** The overlay a block's transactions leave, executed over `t`. */
  ghost function Execution(vm: Vm, t: Tables, block: Block): Result<(Cache, seq<TxResult>), Error> {
    ExecTxs(t, vm, block, |block.transactions|)
  }

  /** Re-executing the block over its own flushed output flushes to that output again. */
  ghost predicate IdempotentOver(vm: Vm, flushed: Tables, block: Block) {
    && Execution(vm, flushed, block).Ok?
    && Flushed(flushed, Execution(vm, flushed, block).value.0, None) == flushed
  }

  lemma HybridCommits(vm: Vm, p: Parsers, t: Tables, block: Block)
    requires block.stateDiffs != [] && Execution(vm, t, block).Ok?
    ensures var flushed := Flushed(t, Execution(vm, t, block).value.0, None);
      BlockCommits(vm, p, t, block) == Ok([flushed, Diffed(p, flushed, block)])
  {
  }

  lemma HybridFails(vm: Vm, p: Parsers, t: Tables, block: Block)
    requires Execution(vm, t, block).Err?
    ensures BlockCommits(vm, p, t, block) == Err(Execution(vm, t, block).error)
  {
  }

  /** Restarting between the two commits goes through the same states exactly when
      the block is idempotent over its own output. */
  lemma HybridSameStatesIff(vm: Vm, p: Parsers, t: Tables, block: Block)
    requires block.stateDiffs != [] && Execution(vm, t, block).Ok?
    ensures var r := BlockCommits(vm, p, t, block);
      BlockCommits(vm, p, r.value[0], block) == r <==> IdempotentOver(vm, r.value[0], block)
  {
    HybridCommits(vm, p, t, block);
    var flushed := BlockCommits(vm, p, t, block).value[0];
    if Execution(vm, flushed, block).Ok? {
      HybridCommits(vm, p, flushed, block);
      TwoStates(flushed, Flushed(flushed, Execution(vm, flushed, block).value.0, None), p, block);
    } else {
      HybridFails(vm, p, flushed, block);
    }
  }

  lemma TwoStates(x: Tables, y: Tables, p: Parsers, block: Block)
    ensures [y, Diffed(p, y, block)] == [x, Diffed(p, x, block)] <==> x == y
  {
    if x != y { assert [y, Diffed(p, y, block)][0] != [x, Diffed(p, x, block)][0]; }
  }

  /** A run restarted between the two commits ends in the uncrashed state exactly
      when re-execution succeeds and disturbs only what the diffs overwrite. */
  lemma HybridSameEndIff(vm: Vm, p: Parsers, t: Tables, block: Block)
    requires block.stateDiffs != [] && Execution(vm, t, block).Ok?
    ensures var states := BlockCommits(vm, p, t, block).value;
      AfterBlock(vm, p, states[0], block) == Ok(states[1]) <==>
        && Execution(vm, states[0], block).Ok?
        && var again := Flushed(states[0], Execution(vm, states[0], block).value.0, None);
           forall key :: SameUntouched(p, block, again, states[0], key)
  {
    HybridCommits(vm, p, t, block);
    var flushed := BlockCommits(vm, p, t, block).value[0];
    if Execution(vm, flushed, block).Ok? {
      HybridCommits(vm, p, flushed, block);
      DiffedEqualIff(p, block, Flushed(flushed, Execution(vm, flushed, block).value.0, None), flushed);
    } else {
      HybridFails(vm, p, flushed, block);
    }
  }

  /** If the block carries state diffs and executes again over its own output from
      `t`, it is idempotent over that output. */
  ghost predicate IdempotentFrom(vm: Vm, p: Parsers, t: Tables, block: Block) {
    block.stateDiffs != [] && Execution(vm, t, block).Ok? ==>
      var flushed := BlockCommits(vm, p, t, block).value[0];
      Execution(vm, flushed, block).Ok? ==> IdempotentOver(vm, flushed, block)
  }

  /** A chain whose blocks each either fail to execute again over their own output, or
      are idempotent over it, survives any number of crashes, between commits or
      between blocks. */
  lemma HybridModeSafe(vm: Vm, p: Parsers, h: History, sessions: seq<Session>)
    requires h.replay == ReplayWith(vm, p) && GoodSessions(h, sessions)
    requires h.Next(h.base) <= U64_LIMIT && forall n :: 0 <= n < U64_LIMIT ==> h.chain(n).number == n
    requires forall k :: h.At(k).Ok? ==> IdempotentFrom(vm, p, h.At(k).value, h.chain(h.Next(h.base) + k))
    ensures h.Reached(AfterAll(h, sessions))
  {
    ReplayMovesHead(vm, p);
    ReplayNoGapErrors(vm, p);
    forall k ensures h.Idempotent(k) {
      if h.At(k).Ok? { IdempotentBlock(vm, p, h.At(k).value, h.chain(h.Next(h.base) + k)); }
    }
    RestartsSafe(h, sessions);
  }

  lemma IdempotentBlock(vm: Vm, p: Parsers, t: Tables, block: Block)
    requires IdempotentFrom(vm, p, t, block)
    ensures var r := BlockCommits(vm, p, t, block);
      r.Ok? && |r.value| == 2 ==>
        var again := BlockCommits(vm, p, r.value[0], block);
        again.Ok? ==> again == r
  {
    if block.stateDiffs != [] && Execution(vm, t, block).Ok? { HybridSameStatesIff(vm, p, t, block); }
    if block.stateDiffs == [] && BlockCommits(vm, p, t, block).Ok? { OneCommit(vm, p, t, block); }
  }

  // ---- where a run may start ----

  predicate Processes(run: Run, n: nat) {
    exists i :: 0 <= i < |run.processed| && run.processed[i].number == n
  }

  /** Every number above the old head up to the new one has been processed. */
  ghost predicate NoHole(t: Tables, run: Run) {
    run.tables.head.Some? && t.head.Some? &&
    forall n: nat :: t.head.value < n <= run.tables.head.value ==> Processes(run, n)
  }

  /** What a run has processed: the numbers from its first block's to the new head. */
  lemma ProcessesIff(replay: BlockReplay, t: Tables, run: Run, n: nat)
    requires Sound(replay, t, run) && run.processed != []
    ensures run.tables.head.Some?
    ensures Processes(run, n) <==> run.processed[0].number <= n <= run.tables.head.value
  {
    if run.processed[0].number <= n <= run.tables.head.value {
      assert run.processed[n - run.processed[0].number].number == n;
    }
  }

  lemma NoHoleFrom(replay: BlockReplay, t: Tables, run: Run)
    requires Sound(replay, t, run) && t.head.Some?
    ensures NoHole(t, run) <==> run.processed == [] || run.processed[0].number == t.head.value + 1
  {
    if run.processed != [] {
      forall n: nat { ProcessesIff(replay, t, run, n); }
      ProcessesIff(replay, t, run, t.head.value + 1);
      assert !AlreadyDone(t.head, run.processed[0]);
      assert run.processed[0].number <= run.tables.head.value;
    }
  }

  /** The exact condition. Only the second block of a run on is checked for continuity,
      so a run leaves no hole above the old head exactly when it processes nothing, or
      the first block of the stream above the head is the one after it. */
  lemma NoHoleIff(replay: BlockReplay, keepGoing: nat -> bool, t: Tables, items: seq<Item>)
    requires MovesHead(replay) && t.head.Some?
    ensures var run := RunOn(replay, keepGoing, t, items, |items|); var wanted := Wanted(t.head, items);
      NoHole(t, run) <==> run.processed == [] || (wanted != [] && wanted[0].number == t.head.value + 1)
  {
    RunSound(replay, keepGoing, t, items, |items|);
    ProcessedWanted(replay, keepGoing, t, items, |items|);
    assert items[..|items|] == items;
    NoHoleFrom(replay, t, RunOn(replay, keepGoing, t, items, |items|));
  }

  /** A source that starts too high leaves a hole, and the run reports success. */
  lemma FirstBlockUnchecked(replay: BlockReplay, keepGoing: nat -> bool, t: Tables, block: Block)
    requires MovesHead(replay) && t.head.Some? && block.number > t.head.value + 1 && replay(t, block).Ok?
    ensures var run := RunOn(replay, keepGoing, t, [Ok(block)], 1);
      !run.status.Failed? && run.tables.head == Some(block.number) && !NoHole(t, run)
  {
    var items := [Ok(block)];
    assert RunOn(replay, keepGoing, t, items, 0) == NewRun(t);
    assert HeadMoved(t, block, replay(t, block).value);
    assert items[..0] == [];
    assert Wanted(t.head, items) == [block];
    NoHoleIff(replay, keepGoing, t, items);
  }
}
