/** What one transaction of a block is, what a block reports, and the code it leaves in the
    database, told from the fields of its transactions and of their changes
    (`replay_block`, crates/replayer). */
module Deployments {
  import opened Types
  import opened StateTables
  import opened Blocks
  import opened Overlay
  import opened StateDiffs
  import opened Flush
  import opened Replay
  import opened Replayer

  // ---- one transaction ----

  /** A transaction from the zero address that has no gas, or zero. */
  predicate FromConsensus(tx: Transaction) {
    tx.from == Some(0) && (tx.gas == None || tx.gas == Some(0))
  }

  /** In a block with state diffs a consensus transaction is passed over with an empty
      result. Any other is executed, a consensus one as a system call: a rejection is an
      error with its place in the block, and otherwise its changes are committed. */
  lemma TransactionIs(base: Tables, vm: Vm, block: Block, c: Cache, i: nat)
    requires i < |block.transactions|
    ensures var system := FromConsensus(block.transactions[i]); var r := ExecTx(base, vm, block, c, i);
      if system && block.stateDiffs != [] then r == Ok((c, TxResult(0, true)))
      else
        match RunCached(base, c, vm.execute(block, i, system), []) {
          case (_, Rejected(message)) => r == Err(EvmError(block.number, i, system, message))
          case (c', Executed(gas, success, _, changes)) => r == Ok((Commit(c', changes), TxResult(gas, success)))
        }
  {
  }

  lemma {:induction false} ResultsNext(base: Tables, vm: Vm, block: Block, n: nat, i: nat)
    requires i < n <= |block.transactions| && ExecTxs(base, vm, block, n).Ok?
    ensures |ExecTxs(base, vm, block, n).value.1| == n && ExecTxs(base, vm, block, i).Ok?
    ensures var tx := ExecTx(base, vm, block, ExecTxs(base, vm, block, i).value.0, i);
      tx.Ok? && ExecTxs(base, vm, block, n).value.1[i] == tx.value.1
    decreases n
  {
    if n > 1 { ResultsNext(base, vm, block, n - 1, if i < n - 1 then i else n - 2); }
  }

  /** A block reports its number and one result for each transaction, in order. */
  lemma BlockReports(base: Tables, vm: Vm, block: Block, i: nat)
    requires ReplayOutcome(vm, base, block).Ok?
    ensures var r := ReplayOutcome(vm, base, block).value;
      && r.blockNumber == block.number && |r.txResults| == |block.transactions|
      && (i < |block.transactions| ==>
           ExecTxs(base, vm, block, i).Ok? &&
           var tx := ExecTx(base, vm, block, ExecTxs(base, vm, block, i).value.0, i);
           tx.Ok? && r.txResults[i] == tx.value.1)
  {
    var n := |block.transactions|;
    if n > 0 { ResultsNext(base, vm, block, n, if i < n then i else 0); }
  }

  // ---- code that a change set deploys ----

  /** The change leaves `code` under `h`: it is touched and not destroyed, created or not. */
  predicate Leaves(ch: Change, h: Word, code: Bytes) {
    ch.touched && !ch.selfdestructed && ch.code == Some(code) && code != [] && ch.info.codeHash == h
  }

  ghost predicate AnyLeaves(changes: Changes, h: Word, code: Bytes) {
    exists a :: a in changes && Leaves(changes[a], h, code)
  }

  lemma DeployedCode(changes: Changes, h: Word, code: Bytes)
    requires AnyLeaves(changes, h, code)
    ensures Lookup(Deployed(changes), h) == Some(code)
  {
    var a :| a in changes && Leaves(changes[a], h, code);
    assert changes[a].Deploys();
    assert h in DeployedHashes(changes);
  }

  lemma NoneDeployed(changes: Changes, h: Word)
    requires !AnyLeft(changes, h)
    ensures h !in Deployed(changes)
  {
    if h in DeployedHashes(changes) {
      var a :| a in changes && changes[a].Deploys() && changes[a].info.codeHash == h;
      assert Leaves(changes[a], h, changes[a].code.value);
      assert AnyLeaves(changes, h, changes[a].code.value);
    }
  }

  ghost predicate AnyLeft(changes: Changes, h: Word) {
    exists code :: AnyLeaves(changes, h, code)
  }

  /** After a commit the overlay holds the code left under `h`, unless it held some already. */
  lemma CommitDeploys(c: Cache, changes: Changes, h: Word, code: Bytes)
    requires AnyLeaves(changes, h, code) && h !in c.contracts
    ensures Lookup(Commit(c, changes).contracts, h) == Some(code)
  {
    DeployedCode(changes, h, code);
    var deployed := Deployed(changes);
    assert Commit(c, changes).contracts == deployed + c.contracts;
  }

  /** ...and nothing changes where it did, or where no change leaves code. */
  lemma CommitLeaves(c: Cache, changes: Changes, h: Word)
    ensures h in c.contracts || !AnyLeft(changes, h) ==>
      Lookup(Commit(c, changes).contracts, h) == Lookup(c.contracts, h)
  {
    var deployed := Deployed(changes);
    assert Commit(c, changes).contracts == deployed + c.contracts;
    if !AnyLeft(changes, h) { NoneDeployed(changes, h); }
  }

  // ---- over a block ----

  /** Reading never changes the code the overlay holds, and only adds the base's. */
  lemma {:induction false} RunReadsCode(base: Tables, c: Cache, evm: Evm, answers: seq<Answer>, h: Word)
    requires |answers| <= evm.limit
    ensures var c' := RunCached(base, c, evm, answers).0;
      && (h in c.contracts ==> Lookup(c'.contracts, h) == Lookup(c.contracts, h))
      && CachedCode(base, c', h) == CachedCode(base, c, h)
    decreases evm.limit - |answers|
  {
    if |answers| < evm.limit && evm.next(answers).Ask? {
      var r := evm.next(answers).request;
      RunReadsCode(base, Load(base, c, r), evm, answers + [CachedAnswer(base, c, r)], h);
    }
  }

  predicate Skips(block: Block, i: nat)
    requires i < |block.transactions|
  {
    FromConsensus(block.transactions[i]) && block.stateDiffs != []
  }

  /** Transaction `i` of the block is executed from the overlay `c`, and leaves code under
      `h`. */
  ghost predicate TxLeaves(base: Tables, vm: Vm, block: Block, c: Cache, i: nat, h: Word, code: Bytes)
    requires i < |block.transactions|
  {
    !Skips(block, i) &&
    var (_, finish) := RunCached(base, c, vm.execute(block, i, FromConsensus(block.transactions[i])), []);
    finish.Executed? && AnyLeaves(finish.state, h, code)
  }

  /** The overlay still has room under `h` when transaction `i` commits. */
  ghost predicate Vacant(base: Tables, vm: Vm, block: Block, c: Cache, i: nat, h: Word)
    requires i < |block.transactions|
  {
    h !in RunCached(base, c, vm.execute(block, i, FromConsensus(block.transactions[i])), []).0.contracts
  }

  /** Code the overlay holds stays; and where no code is left, reads stay the same. */
  lemma TxKeepsCode(base: Tables, vm: Vm, block: Block, c: Cache, i: nat, h: Word, c': Cache)
    requires i < |block.transactions|
    requires ExecTx(base, vm, block, c, i).Ok? && c' == ExecTx(base, vm, block, c, i).value.0
    ensures h in c.contracts ==> Lookup(c'.contracts, h) == Lookup(c.contracts, h)
    ensures (forall code :: !TxLeaves(base, vm, block, c, i, h, code)) ==>
      CachedCode(base, c', h) == CachedCode(base, c, h)
  {
    TransactionIs(base, vm, block, c, i);
    var evm := vm.execute(block, i, FromConsensus(block.transactions[i]));
    var (run, finish) := RunCached(base, c, evm, []);
    RunReadsCode(base, c, evm, [], h);
    if finish.Executed? {
      CommitLeaves(run, finish.state, h);
      if AnyLeft(finish.state, h) {
        var code :| AnyLeaves(finish.state, h, code);
        assert Skips(block, i) || TxLeaves(base, vm, block, c, i, h, code);
      }
    }
  }

  /** The overlays before and after transaction `n` of a block that gets past it. */
  lemma OneMore(base: Tables, vm: Vm, block: Block, n: nat) returns (c: Cache, c': Cache)
    requires n < |block.transactions| && ExecTxs(base, vm, block, n + 1).Ok?
    ensures ExecTxs(base, vm, block, n).Ok? && c == ExecTxs(base, vm, block, n).value.0
    ensures c' == ExecTxs(base, vm, block, n + 1).value.0
    ensures ExecTx(base, vm, block, c, n).Ok? && c' == ExecTx(base, vm, block, c, n).value.0
  {
    c, c' := ExecTxs(base, vm, block, n).value.0, ExecTxs(base, vm, block, n + 1).value.0;
  }

  /** Transaction `i`, from where the block's run has come to, leaves code under `h`. */
  ghost predicate LeavesAt(base: Tables, vm: Vm, block: Block, i: nat, h: Word, code: Bytes)
    requires i < |block.transactions|
  {
    var r := ExecTxs(base, vm, block, i);
    r.Ok? && TxLeaves(base, vm, block, r.value.0, i, h, code)
  }

  ghost predicate VacantAt(base: Tables, vm: Vm, block: Block, i: nat, h: Word)
    requires i < |block.transactions|
  {
    var r := ExecTxs(base, vm, block, i);
    r.Ok? && Vacant(base, vm, block, r.value.0, i, h)
  }

  lemma TxDeploys(base: Tables, vm: Vm, block: Block, c: Cache, i: nat, h: Word, code: Bytes, c': Cache)
    requires i < |block.transactions|
    requires ExecTx(base, vm, block, c, i).Ok? && c' == ExecTx(base, vm, block, c, i).value.0
    requires TxLeaves(base, vm, block, c, i, h, code) && Vacant(base, vm, block, c, i, h)
    ensures Lookup(c'.contracts, h) == Some(code)
  {
    TransactionIs(base, vm, block, c, i);
    var (run, finish) := RunCached(base, c, vm.execute(block, i, FromConsensus(block.transactions[i])), []);
    CommitDeploys(run, finish.state, h, code);
  }

  lemma {:induction false} RunDeploys(vm: Vm, t: Tables, block: Block, i: nat, n: nat, h: Word, code: Bytes)
    requires i < n <= |block.transactions| && ExecTxs(t, vm, block, n).Ok?
    requires LeavesAt(t, vm, block, i, h, code) && VacantAt(t, vm, block, i, h)
    ensures Lookup(ExecTxs(t, vm, block, n).value.0.contracts, h) == Some(code)
    decreases n
  {
    var c, c' := OneMore(t, vm, block, n - 1);
    if i == n - 1 {
      TxDeploys(t, vm, block, c, i, h, code, c');
    } else {
      RunDeploys(vm, t, block, i, n - 1, h, code);
      TxKeepsCode(t, vm, block, c, n - 1, h, c');
    }
  }

  /** Code that a transaction of a replayed block deploys is in the database after the
      block's first commit, which is its only one unless it carries state diffs. */
  lemma BlockDeploys(vm: Vm, p: Parsers, t: Tables, block: Block, i: nat, h: Word, code: Bytes)
    requires BlockCommits(vm, p, t, block).Ok? && i < |block.transactions|
    requires LeavesAt(t, vm, block, i, h, code) && VacantAt(t, vm, block, i, h)
    ensures CodeByHashRef(BlockCommits(vm, p, t, block).value[0], h) == code
  {
    var n := |block.transactions|;
    var after := ExecTxs(t, vm, block, n).value.0;
    RunDeploys(vm, t, block, i, n, h, code);
    ExecTxsKeepOk(t, vm, block, n);
    StatesCode(p, t, after, block, h);
    PreloadedTaken(t, vm, block, ExecTxs(t, vm, block, i).value.0, i, h);
  }

  /** The two hashes for no code are taken from the start. */
  lemma PreloadedTaken(t: Tables, vm: Vm, block: Block, c: Cache, i: nat, h: Word)
    requires i < |block.transactions| && ExecTxs(t, vm, block, i).Ok? && c == ExecTxs(t, vm, block, i).value.0
    requires Vacant(t, vm, block, c, i, h)
    ensures !NoCodeHash(h)
  {
    ExecTxsKeepOk(t, vm, block, i);
    RunReadsCode(t, c, vm.execute(block, i, FromConsensus(block.transactions[i])), [], h);
  }

  lemma StatesCode(p: Parsers, t: Tables, c: Cache, block: Block, h: Word)
    requires CacheOk(t, c)
    ensures CodeByHashRef(CommitStates(p, t, c, block)[0], h) ==
      if NoCodeHash(h) then CodeByHashRef(t, h) else CachedCode(t, c, h)
  {
    FlushedAccountAndCode(t, c, if block.stateDiffs == [] then Some(block.number) else None, 0, h);
  }

  lemma {:induction false} NoneLeft(base: Tables, vm: Vm, block: Block, n: nat, h: Word)
    requires n <= |block.transactions| && ExecTxs(base, vm, block, n).Ok?
    requires forall i, code :: 0 <= i < n ==> !LeavesAt(base, vm, block, i, h, code)
    ensures CachedCode(base, ExecTxs(base, vm, block, n).value.0, h) == CachedCode(base, EMPTY_CACHE, h)
    decreases n
  {
    if n > 0 {
      var k := n - 1;
      var c, c' := OneMore(base, vm, block, k);
      NoneLeft(base, vm, block, k, h);
      forall code ensures !TxLeaves(base, vm, block, c, k, h, code) {
        assert !LeavesAt(base, vm, block, k, h, code);
      }
      TxKeepsCode(base, vm, block, c, k, h, c');
    }
  }

  /** Under a hash that none of its transactions leaves code under, nothing changes. */
  lemma NoOtherCode(vm: Vm, p: Parsers, t: Tables, block: Block, h: Word)
    requires BlockCommits(vm, p, t, block).Ok?
    requires forall i, code :: 0 <= i < |block.transactions| ==> !LeavesAt(t, vm, block, i, h, code)
    ensures CodeByHashRef(BlockCommits(vm, p, t, block).value[0], h) == CodeByHashRef(t, h)
  {
    var n := |block.transactions|;
    NoneLeft(t, vm, block, n, h);
    ExecTxsKeepOk(t, vm, block, n);
    StatesCode(p, t, ExecTxs(t, vm, block, n).value.0, block, h);
  }
}
