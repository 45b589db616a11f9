/** The replay pipeline (crates/replayer/src/pipeline.rs): resume, continuity,
    early stop, and restarts after crashes. */
module Pipeline {
  import opened Types
  import opened StateTables
  import opened Store
  import opened Blocks
  import opened StateDiffs
  import opened Overlay
  import opened Flush
  import opened Replay
  import opened Replayer

  /** Replaying one block from given tables: an error, or the states its commits
      leave behind. Everything below holds of any such function that, like
      `BlockCommits`, commits once or twice and moves the head with the last commit. */
  type BlockReplay = (Tables, Block) -> Result<seq<Tables>, Error>

  ghost predicate MovesHead(replay: BlockReplay) {
    forall t, block :: replay(t, block).Ok? ==> HeadMoved(t, block, replay(t, block).value)
  }

  predicate HeadMoved(t: Tables, block: Block, states: seq<Tables>) {
    && 1 <= |states| <= 2
    && states[|states| - 1].head == Some(block.number)
    && (|states| == 2 ==> states[0].head == t.head)
  }

  ghost function ReplayWith(vm: Vm, p: Parsers): BlockReplay {
    (t, block) => BlockCommits(vm, p, t, block)
  }

  lemma ReplayMovesHead(vm: Vm, p: Parsers)
    ensures MovesHead(ReplayWith(vm, p))
  {
    forall t, block | BlockCommits(vm, p, t, block).Ok?
      ensures HeadMoved(t, block, BlockCommits(vm, p, t, block).value)
    {
      CommitsMoveHead(vm, p, t, block);
    }
  }

  lemma CommitsMoveHead(vm: Vm, p: Parsers, t: Tables, block: Block)
    requires BlockCommits(vm, p, t, block).Ok?
    ensures HeadMoved(t, block, BlockCommits(vm, p, t, block).value)
  {
  }

  function LastOf(t: Tables, states: seq<Tables>): Tables {
    if states == [] then t else states[|states| - 1]
  }

  /** Replaying blocks one after the other. */
  function Fold(replay: BlockReplay, t: Tables, blocks: seq<Block>): Result<Tables, Error> {
    if blocks == [] then Ok(t)
    else
      match Fold(replay, t, blocks[..|blocks| - 1])
      case Err(e) => Err(e)
      case Ok(u) =>
        match replay(u, blocks[|blocks| - 1])
        case Err(e) => Err(e)
        case Ok(states) => Ok(LastOf(u, states))
  }

  lemma {:induction false} FoldIsReplayAll(vm: Vm, p: Parsers, t: Tables, blocks: seq<Block>)
    ensures Fold(ReplayWith(vm, p), t, blocks) == ReplayAll(vm, p, t, blocks)
  {
    if blocks != [] { FoldIsReplayAll(vm, p, t, blocks[..|blocks| - 1]); }
  }

  type Item = Result<Block, string>

  datatype Stats = Stats(blocksProcessed: nat, firstBlock: Option<U64>, lastBlock: Option<U64>)

  datatype Status = Going | Stopped | Failed(error: Error)

  /** A run after some items: what it reports, what it processed, and every state
      its commits left the database in. */
  datatype Run = Run(stats: Stats, processed: seq<Block>, states: seq<Tables>, tables: Tables, status: Status)

  function NewRun(t: Tables): Run {
    Run(Stats(0, None, None), [], [], t, Going)
  }

  predicate AlreadyDone(head: Option<U64>, block: Block) {
    head.Some? && block.number <= head.value
  }

  predicate Gap(stats: Stats, block: Block) {
    stats.lastBlock.Some? && block.number != stats.lastBlock.value + 1
  }

  /** A block has been replayed: count it, record it, and ask whether to go on. */
  function Process(run: Run, block: Block, states: seq<Tables>, keepGoing: nat -> bool): Run {
    var first := if run.stats.firstBlock.None? then Some(block.number) else run.stats.firstBlock;
    var n := run.stats.blocksProcessed + 1;
    Run(
      Stats(n, first, Some(block.number)),
      run.processed + [block],
      run.states + states,
      LastOf(run.tables, states),
      if keepGoing(n) then Going else Stopped)
  }

  /** One item of the stream. `keepGoing(k)` is the callback's answer after block `k`. */
  function Take(replay: BlockReplay, keepGoing: nat -> bool, head: Option<U64>, run: Run, item: Item): Run {
    if !run.status.Going? then run
    else
      match item
      case Err(message) => run.(status := Failed(SourceError(message)))
      case Ok(block) =>
        if AlreadyDone(head, block) then run
        else if Gap(run.stats, block) then
          run.(status := Failed(BlockGap(run.stats.lastBlock.value + 1, block.number)))
        else
          match replay(run.tables, block)
          case Err(e) => run.(status := Failed(e))
          case Ok(states) => Process(run, block, states, keepGoing)
  }

  /** The run over the first `n` items, resuming from the head of `t`. */
  function RunOn(replay: BlockReplay, keepGoing: nat -> bool, t: Tables, items: seq<Item>, n: nat): Run
    requires n <= |items|
  {
    if n == 0 then NewRun(t)
    else Take(replay, keepGoing, t.head, RunOn(replay, keepGoing, t, items, n - 1), items[n - 1])
  }

  // ---- what one run does on an arbitrary stream ----

  predicate Consecutive(blocks: seq<Block>) {
    forall i :: 0 <= i < |blocks| ==> blocks[i].number == blocks[0].number + i
  }

  /** The blocks of a stream that lie above the starting head, in stream order. */
  function Wanted(head: Option<U64>, items: seq<Item>): seq<Block> {
    if items == [] then []
    else
      match items[|items| - 1]
      case Err(_) => Wanted(head, items[..|items| - 1])
      case Ok(block) =>
        Wanted(head, items[..|items| - 1]) + (if AlreadyDone(head, block) then [] else [block])
  }

  predicate StatsOf(stats: Stats, blocks: seq<Block>) {
    && stats.blocksProcessed == |blocks|
    && (blocks == [] ==> stats.firstBlock == None && stats.lastBlock == None)
    && (blocks != [] ==>
         stats.firstBlock == Some(blocks[0].number) && stats.lastBlock == Some(blocks[|blocks| - 1].number))
  }

  /** What holds of a run at every point, whatever the stream. */
  ghost predicate Sound(replay: BlockReplay, t: Tables, run: Run) {
    && Consecutive(run.processed)
    && (forall i :: 0 <= i < |run.processed| ==> !AlreadyDone(t.head, run.processed[i]))
    && StatsOf(run.stats, run.processed)
    && Fold(replay, t, run.processed) == Ok(run.tables)
    && run.tables.head == (if run.processed == [] then t.head else run.stats.lastBlock)
    && run.tables == LastOf(t, run.states)
  }

  lemma FoldNext(replay: BlockReplay, t: Tables, blocks: seq<Block>, block: Block, u: Tables)
    requires Fold(replay, t, blocks) == Ok(u) && replay(u, block).Ok?
    ensures Fold(replay, t, blocks + [block]) == Ok(LastOf(u, replay(u, block).value))
  {
    assert (blocks + [block])[..|blocks|] == blocks;
  }

  lemma NumbersNext(head: Option<U64>, stats: Stats, blocks: seq<Block>, block: Block)
    requires Consecutive(blocks) && StatsOf(stats, blocks) && !Gap(stats, block)
    requires forall i :: 0 <= i < |blocks| ==> !AlreadyDone(head, blocks[i])
    requires !AlreadyDone(head, block)
    ensures Consecutive(blocks + [block])
    ensures forall i :: 0 <= i < |blocks + [block]| ==> !AlreadyDone(head, (blocks + [block])[i])
    ensures StatsOf(
      Stats(stats.blocksProcessed + 1,
        if stats.firstBlock.None? then Some(block.number) else stats.firstBlock, Some(block.number)),
      blocks + [block])
  {
  }

  lemma LastOfConcat(t: Tables, states: seq<Tables>, more: seq<Tables>)
    ensures LastOf(t, states + more) == LastOf(LastOf(t, states), more)
  {
    if more == [] { assert states + more == states; }
  }

  lemma ProcessSound(replay: BlockReplay, keepGoing: nat -> bool, t: Tables, run: Run, block: Block)
    requires Sound(replay, t, run) && !AlreadyDone(t.head, block) && !Gap(run.stats, block)
    requires replay(run.tables, block).Ok? && HeadMoved(run.tables, block, replay(run.tables, block).value)
    ensures Sound(replay, t, Process(run, block, replay(run.tables, block).value, keepGoing))
  {
    var states := replay(run.tables, block).value;
    var next := Process(run, block, states, keepGoing);
    FoldNext(replay, t, run.processed, block, run.tables);
    NumbersNext(t.head, run.stats, run.processed, block);
    LastOfConcat(t, run.states, states);
    assert next.processed == run.processed + [block] && next.tables == LastOf(run.tables, states);
  }

  lemma TakeSound(replay: BlockReplay, keepGoing: nat -> bool, t: Tables, run: Run, item: Item)
    requires MovesHead(replay) && Sound(replay, t, run)
    ensures Sound(replay, t, Take(replay, keepGoing, t.head, run, item))
  {
    if run.status.Going? && item.Ok? && !AlreadyDone(t.head, item.value) && !Gap(run.stats, item.value)
      && replay(run.tables, item.value).Ok? {
      ProcessSound(replay, keepGoing, t, run, item.value);
    }
  }

  lemma {:induction false} RunSound(replay: BlockReplay, keepGoing: nat -> bool, t: Tables, items: seq<Item>, n: nat)
    requires MovesHead(replay) && n <= |items|
    ensures Sound(replay, t, RunOn(replay, keepGoing, t, items, n))
  {
    if n > 0 {
      RunSound(replay, keepGoing, t, items, n - 1);
      TakeSound(replay, keepGoing, t, RunOn(replay, keepGoing, t, items, n - 1), items[n - 1]);
    }
  }

  /** The reported count is the span of the reported numbers, and the head is the
      last processed block or has not moved. */
  lemma RunReport(replay: BlockReplay, keepGoing: nat -> bool, t: Tables, items: seq<Item>)
    requires MovesHead(replay)
    ensures var run := RunOn(replay, keepGoing, t, items, |items|);
      run.stats.firstBlock.Some? ==>
        && run.stats.lastBlock.Some?
        && run.stats.blocksProcessed == run.stats.lastBlock.value - run.stats.firstBlock.value + 1
        && run.tables.head == run.stats.lastBlock
        && (t.head.Some? ==> t.head.value < run.stats.firstBlock.value)
    ensures var run := RunOn(replay, keepGoing, t, items, |items|);
      run.stats.firstBlock.None? ==> run.tables == t
  {
    RunSound(replay, keepGoing, t, items, |items|);
  }

  /** `item` ends a run that was still going as `before`: a source error, a gap, a
      block that fails to replay, or a callback that says stop after the block. */
  ghost predicate Ending(
    replay: BlockReplay, keepGoing: nat -> bool, head: Option<U64>, before: Run, item: Item, run: Run)
  {
    before.status.Going? &&
    match item
    case Err(message) => run == before.(status := Failed(SourceError(message)))
    case Ok(block) =>
      && !AlreadyDone(head, block)
      && if Gap(before.stats, block)
         then run == before.(status := Failed(BlockGap(before.stats.lastBlock.value + 1, block.number)))
         else match replay(before.tables, block) {
           case Err(e) => run == before.(status := Failed(e))
           case Ok(states) =>
             && run.status.Stopped? && run.processed == before.processed + [block]
             && run.tables == LastOf(before.tables, states)
             && !keepGoing(run.stats.blocksProcessed)
         }
  }

  lemma TakeEnds(replay: BlockReplay, keepGoing: nat -> bool, head: Option<U64>, before: Run, item: Item)
    requires before.status.Going?
    ensures var run := Take(replay, keepGoing, head, before, item);
      if run.status.Going?
      then run.processed == before.processed + (if item.Err? || AlreadyDone(head, item.value) then [] else [item.value])
      else Ending(replay, keepGoing, head, before, item, run)
  {
  }

  ghost predicate Ends(replay: BlockReplay, keepGoing: nat -> bool, t: Tables, items: seq<Item>, n: nat)
    requires n <= |items|
  {
    var run := RunOn(replay, keepGoing, t, items, n);
    if run.status.Going? then run.processed == Wanted(t.head, items[..n])
    else exists k :: 0 <= k < n && EndedAt(replay, keepGoing, t, items, k, run)
  }

  /** The run ended at item `k`, with exactly the wanted blocks before it processed. */
  ghost predicate EndedAt(replay: BlockReplay, keepGoing: nat -> bool, t: Tables, items: seq<Item>, k: nat, run: Run)
    requires k < |items|
  {
    var before := RunOn(replay, keepGoing, t, items, k);
    before.processed == Wanted(t.head, items[..k]) && Ending(replay, keepGoing, t.head, before, items[k], run)
  }

  lemma WantedNext(head: Option<U64>, items: seq<Item>, n: nat)
    requires n < |items|
    ensures Wanted(head, items[..n + 1]) == Wanted(head, items[..n]) +
      (if items[n].Err? || AlreadyDone(head, items[n].value) then [] else [items[n].value])
  {
    assert items[..n + 1][..n] == items[..n];
  }

  /** A run either takes its whole stream, processing exactly the blocks above the
      starting head, or ends at an offending item (or a callback's refusal) with
      exactly the wanted blocks before it in the database. */
  lemma {:induction false} RunEnds(replay: BlockReplay, keepGoing: nat -> bool, t: Tables, items: seq<Item>, n: nat)
    requires MovesHead(replay) && n <= |items|
    ensures Ends(replay, keepGoing, t, items, n)
  {
    if n > 0 {
      RunEnds(replay, keepGoing, t, items, n - 1);
      var before := RunOn(replay, keepGoing, t, items, n - 1);
      var run := RunOn(replay, keepGoing, t, items, n);
      if before.status.Going? {
        TakeEnds(replay, keepGoing, t.head, before, items[n - 1]);
        WantedNext(t.head, items, n - 1);
        if !run.status.Going? { assert EndedAt(replay, keepGoing, t, items, n - 1, run); }
      } else {
        var k :| 0 <= k < n - 1 && EndedAt(replay, keepGoing, t, items, k, before);
        assert EndedAt(replay, keepGoing, t, items, k, run);
      }
    }
  }

  // ---- which blocks, and where the callback ends it ----

  predicate IsPrefix<T(==)>(xs: seq<T>, ys: seq<T>) {
    |xs| <= |ys| && xs == ys[..|xs|]
  }

  lemma TakeWanted(
    replay: BlockReplay, keepGoing: nat -> bool, head: Option<U64>, run: Run, item: Item, wanted: seq<Block>)
    requires if run.status.Going? then run.processed == wanted else IsPrefix(run.processed, wanted)
    ensures var next := Take(replay, keepGoing, head, run, item);
      var wanted' := wanted + (if item.Err? || AlreadyDone(head, item.value) then [] else [item.value]);
      if next.status.Going? then next.processed == wanted' else IsPrefix(next.processed, wanted')
  {
  }

  /** A run processes the blocks above the starting head in stream order, and all of
      them as long as it goes on. */
  lemma {:induction false} ProcessedWanted(
    replay: BlockReplay, keepGoing: nat -> bool, t: Tables, items: seq<Item>, n: nat)
    requires n <= |items|
    ensures var run := RunOn(replay, keepGoing, t, items, n); var wanted := Wanted(t.head, items[..n]);
      if run.status.Going? then run.processed == wanted else IsPrefix(run.processed, wanted)
    decreases n
  {
    if n > 0 {
      ProcessedWanted(replay, keepGoing, t, items, n - 1);
      WantedNext(t.head, items, n - 1);
      TakeWanted(replay, keepGoing, t.head, RunOn(replay, keepGoing, t, items, n - 1), items[n - 1],
        Wanted(t.head, items[..n - 1]));
    }
  }

  /** What the stream wants: the blocks above the starting head. */
  lemma {:induction false} WantedMembers(head: Option<U64>, items: seq<Item>, block: Block)
    ensures block in Wanted(head, items) <==>
      (exists i :: 0 <= i < |items| && items[i] == Ok(block)) && (head.Some? ==> block.number > head.value)
  {
    if items != [] {
      var n := |items| - 1;
      WantedMembers(head, items[..n], block);
      if i :| 0 <= i < n && items[i] == Ok(block) { assert items[..n][i] == Ok(block); }
      if i :| 0 <= i < n && items[..n][i] == Ok(block) { assert items[i] == Ok(block); }
    }
  }

  /** The callback agreed after each of the first `n` blocks. */
  predicate Agreed(keepGoing: nat -> bool, n: nat) {
    forall k: nat :: 1 <= k <= n ==> keepGoing(k)
  }

  /** A run that has not stopped had the callback's agreement after every block; one that
      has stopped had it after every block but the last. */
  ghost predicate Asked(keepGoing: nat -> bool, run: Run) {
    var n := |run.processed|;
    && run.stats.blocksProcessed == n
    && if run.status.Stopped? then n >= 1 && Agreed(keepGoing, n - 1) && !keepGoing(n) else Agreed(keepGoing, n)
  }

  lemma TakeAsked(replay: BlockReplay, keepGoing: nat -> bool, head: Option<U64>, run: Run, item: Item)
    requires Asked(keepGoing, run)
    ensures Asked(keepGoing, Take(replay, keepGoing, head, run, item))
  {
  }

  lemma {:induction false} CallbackAsked(
    replay: BlockReplay, keepGoing: nat -> bool, t: Tables, items: seq<Item>, n: nat)
    requires n <= |items|
    ensures Asked(keepGoing, RunOn(replay, keepGoing, t, items, n))
    decreases n
  {
    if n > 0 {
      CallbackAsked(replay, keepGoing, t, items, n - 1);
      TakeAsked(replay, keepGoing, t.head, RunOn(replay, keepGoing, t, items, n - 1), items[n - 1]);
    }
  }

  /** A callback that first refuses after block `k` leaves exactly the first `k` wanted
      blocks, if nothing failed before; and all of them if there are fewer. */
  lemma RefusalStops(replay: BlockReplay, keepGoing: nat -> bool, t: Tables, items: seq<Item>, k: nat)
    requires k >= 1 && Agreed(keepGoing, k - 1) && !keepGoing(k)
    ensures var run := RunOn(replay, keepGoing, t, items, |items|); var wanted := Wanted(t.head, items);
      if run.status.Failed? then |run.processed| < k && IsPrefix(run.processed, wanted)
      else if |wanted| < k then run.status.Going? && run.processed == wanted
      else run.status.Stopped? && run.processed == wanted[..k]
  {
    CallbackAsked(replay, keepGoing, t, items, |items|);
    ProcessedWanted(replay, keepGoing, t, items, |items|);
    assert items[..|items|] == items;
  }

  // ---- the imperative pipeline ----

  lemma {:induction false} RunSticks(
    replay: BlockReplay, keepGoing: nat -> bool, t: Tables, items: seq<Item>, n: nat, m: nat)
    requires n <= m <= |items| && !RunOn(replay, keepGoing, t, items, n).status.Going?
    ensures RunOn(replay, keepGoing, t, items, m) == RunOn(replay, keepGoing, t, items, n)
    decreases m
  {
    if n < m { RunSticks(replay, keepGoing, t, items, n, m - 1); }
  }

  /** The database and the variables of the loop are where `run` says. */
  ghost predicate InStep(db: StateDb, before: seq<Tables>, stats: Stats, run: Run)
    reads db
  {
    && db.Valid() && db.tables == run.tables && db.history == before + run.states
    && stats == run.stats
  }

  lemma OutcomeIsCommits(vm: Vm, p: Parsers, t: Tables, block: Block)
    ensures match ReplayOutcome(vm, t, block) {
      case Err(e) => ReplayWith(vm, p)(t, block) == Err(e)
      case Ok(_) => ReplayWith(vm, p)(t, block) == BlockCommits(vm, p, t, block) && BlockCommits(vm, p, t, block).Ok?
    }
  {
  }

  lemma LastOfNonEmpty(t: Tables, states: seq<Tables>)
    requires states != []
    ensures LastOf(t, states) == states[|states| - 1]
  {
  }

  /** One block of the loop body, from the skip test to the callback. */
  method HandleBlock(
    vm: Vm, p: Parsers, db: StateDb, keepGoing: nat -> bool, head: Option<U64>, block: Block,
    before: Stats, ghost history: seq<Tables>, ghost run: Run)
    returns (stats: Stats, status: Status)
    requires InStep(db, history, before, run) && run.status.Going? && p.HashInjective()
    modifies db
    ensures var next := Take(ReplayWith(vm, p), keepGoing, head, run, Ok(block));
      InStep(db, history, stats, next) && status == next.status
  {
    stats := before;
    if head.Some? && block.number <= head.value {
      return stats, Going;
    }
    if stats.lastBlock.Some? && block.number != stats.lastBlock.value + 1 {
      return stats, Failed(BlockGap(stats.lastBlock.value + 1, block.number));
    }
    OutcomeIsCommits(vm, p, db.tables, block);
    ghost var t := db.tables;
    var result := ReplayBlock(vm, p, db, block);
    if result.Err? {
      return stats, Failed(result.error);
    }
    ghost var states := BlockCommits(vm, p, t, block).value;
    LastOfNonEmpty(t, states);
    assert history + (run.states + states) == (history + run.states) + states;
    stats := stats.(blocksProcessed := stats.blocksProcessed + 1);
    if stats.firstBlock.None? {
      stats := stats.(firstBlock := Some(block.number));
    }
    stats := stats.(lastBlock := Some(block.number));
    status := if keepGoing(stats.blocksProcessed) then Going else Stopped;
  }

  /** One item of the stream. */
  method HandleItem(
    vm: Vm, p: Parsers, db: StateDb, keepGoing: nat -> bool, head: Option<U64>, item: Item,
    before: Stats, ghost history: seq<Tables>, ghost run: Run)
    returns (stats: Stats, status: Status)
    requires InStep(db, history, before, run) && run.status.Going? && p.HashInjective()
    modifies db
    ensures var next := Take(ReplayWith(vm, p), keepGoing, head, run, item);
      InStep(db, history, stats, next) && status == next.status
  {
    match item
    case Err(message) =>
      return before, Failed(SourceError(message));
    case Ok(block) =>
      stats, status := HandleBlock(vm, p, db, keepGoing, head, block, before, history, run);
  }

  /** The outcome `r` reported for a run and the database it leaves. */
  ghost predicate Reports(db: StateDb, before: seq<Tables>, run: Run, r: Result<Stats, Error>)
    reads db
  {
    && InStep(db, before, run.stats, run)
    && r == if run.status.Failed? then Err(run.status.error) else Ok(run.stats)
  }

  ghost predicate Looping(
    replay: BlockReplay, keepGoing: nat -> bool, t: Tables, items: seq<Item>, i: nat, status: Status, run: Run)
  {
    i <= |items| && run == RunOn(replay, keepGoing, t, items, i) && status == run.status
  }

  lemma LoopNext(replay: BlockReplay, keepGoing: nat -> bool, t: Tables, items: seq<Item>, i: nat, run: Run)
    requires i < |items| && run == RunOn(replay, keepGoing, t, items, i)
    ensures var next := Take(replay, keepGoing, t.head, run, items[i]);
      Looping(replay, keepGoing, t, items, i + 1, next.status, next)
  {
  }

  lemma LoopDone(
    replay: BlockReplay, keepGoing: nat -> bool, t: Tables, items: seq<Item>, i: nat, status: Status, run: Run)
    requires Looping(replay, keepGoing, t, items, i, status, run) && (i == |items| || !status.Going?)
    ensures run == RunOn(replay, keepGoing, t, items, |items|)
  {
    if i < |items| { RunSticks(replay, keepGoing, t, items, i, |items|); }
  }

  /** Consumes the stream, resuming from the head; `keepGoing` answers for the
      progress callback. */
  method RunPipeline(vm: Vm, p: Parsers, db: StateDb, items: seq<Item>, keepGoing: nat -> bool)
    returns (r: Result<Stats, Error>)
    requires db.Valid() && p.HashInjective()
    modifies db
    ensures var run := RunOn(ReplayWith(vm, p), keepGoing, old(db.tables), items, |items|);
      Reports(db, old(db.history), run, r)
  {
    var head := db.GetHeadBlock();
    var stats, status: Status := Stats(0, None, None), Going;
    var i := 0;
    ghost var t, history := db.tables, db.history;
    ghost var replay := ReplayWith(vm, p);
    ghost var run := NewRun(t);
    while i < |items| && status.Going?
      invariant Looping(replay, keepGoing, t, items, i, status, run)
      invariant InStep(db, history, stats, run)
      decreases |items| - i
    {
      stats, status := HandleItem(vm, p, db, keepGoing, head.value, items[i], stats, history, run);
      LoopNext(replay, keepGoing, t, items, i, run);
      run := Take(replay, keepGoing, t.head, run, items[i]);
      i := i + 1;
    }
    LoopDone(replay, keepGoing, t, items, i, status, run);
    r := if status.Failed? then Err(status.error) else Ok(stats);
  }
}
