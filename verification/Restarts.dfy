/** Crash and restart safety of the pipeline: any sequence of runs over one chain,
    each cut after any of its commits. */
module Restarts {
  import opened Types
  import opened StateTables
  import opened Blocks
  import opened Replay
  import opened Pipeline

  const U64_LIMIT: nat := 0x1_0000_0000_0000_0000

  /** A chain being replayed into a database that starts out as `base`. */
  datatype History = History(replay: BlockReplay, chain: nat -> Block, genesis: nat, base: Tables) {

    /** The height replay continues from: the block after the head. */
    function Next(t: Tables): nat {
      if t.head.Some? then t.head.value + 1 else genesis
    }

    /** The first `k` blocks this history replays. */
    function Blocks(k: nat): seq<Block> {
      seq(k, i requires 0 <= i < k => chain(Next(base) + i))
    }

    /** The tables after the first `k` blocks. */
    function At(k: nat): Result<Tables, Error> {
      Fold(replay, base, Blocks(k))
    }

    /** `t` is the exact fold of the chain up to its head. */
    predicate Exact(t: Tables) {
      Next(t) >= Next(base) && At(Next(t) - Next(base)) == Ok(t)
    }

    /** `t` is what a two-commit block leaves between its commits. */
    predicate Between(t: Tables) {
      && Next(t) >= Next(base)
      && At(Next(t) - Next(base)).Ok?
      && var r := replay(At(Next(t) - Next(base)).value, chain(Next(t)));
         r.Ok? && |r.value| == 2 && r.value[0] == t
    }

    predicate Reached(t: Tables) {
      Exact(t) || Between(t)
    }

    /** Replaying block `k` again over the output of its own first commit, if it
        succeeds at all, goes through the same states. */
    predicate Idempotent(k: nat) {
      At(k).Ok? ==>
        var r := replay(At(k).value, chain(Next(base) + k));
        r.Ok? && |r.value| == 2 ==> Repeats(r, replay(r.value[0], chain(Next(base) + k)))
    }

    predicate Repeats(r: Result<seq<Tables>, Error>, again: Result<seq<Tables>, Error>) {
      again.Ok? ==> again == r
    }

    ghost predicate Valid() {
      && MovesHead(replay)
      && (forall n :: 0 <= n < U64_LIMIT ==> chain(n).number == n)
      && Next(base) <= U64_LIMIT
    }

    ghost predicate Harmless() {
      forall k :: Idempotent(k)
    }
  }

  lemma AtNext(h: History, k: nat)
    requires h.Valid() && h.At(k).Ok?
    ensures h.At(k + 1) ==
      match h.replay(h.At(k).value, h.chain(h.Next(h.base) + k)) {
        case Err(e) => Err(e)
        case Ok(states) => Ok(LastOf(h.At(k).value, states))
      }
  {
    assert h.Blocks(k + 1)[..k] == h.Blocks(k);
  }

  lemma {:induction false} HeadAt(h: History, k: nat)
    requires h.Valid() && h.At(k).Ok? && h.Next(h.base) + k <= U64_LIMIT
    ensures h.Next(h.At(k).value) == h.Next(h.base) + k
  {
    if k > 0 {
      assert h.Blocks(k)[..k - 1] == h.Blocks(k - 1);
      AtNext(h, k - 1);
      var u := h.At(k - 1).value;
      var b := h.chain(h.Next(h.base) + k - 1);
      assert HeadMoved(u, b, h.replay(u, b).value);
    }
  }

  /** Replaying the next block from any reached state reaches only such states,
      ending exactly one block further. */
  lemma ReplayNext(h: History, t: Tables)
    requires h.Valid() && h.Harmless() && h.Reached(t) && h.Next(t) < U64_LIMIT
    requires h.replay(t, h.chain(h.Next(t))).Ok?
    ensures var states := h.replay(t, h.chain(h.Next(t))).value;
      && 1 <= |states| <= 2
      && h.Exact(states[|states| - 1]) && h.Next(states[|states| - 1]) == h.Next(t) + 1
      && (|states| == 2 ==> h.Between(states[0]) && h.Next(states[0]) == h.Next(t))
  {
    var k := h.Next(t) - h.Next(h.base);
    var u, b := h.At(k).value, h.chain(h.Next(t));
    HeadAt(h, k);
    assert h.Idempotent(k);
    assert h.Repeats(h.replay(u, b), h.replay(t, b));
    var states := h.replay(u, b).value;
    assert HeadMoved(u, b, states);
    AtNext(h, k);
  }

  // ---- one run over the chain ----

  /** A run of the pipeline over a source that starts at height `start`, cut off
      after `cut` of its commits (or completed, if it makes no more). */
  datatype Session = Session(start: nat, items: seq<Item>, keepGoing: nat -> bool, cut: nat)

  /** The source yields consecutive blocks of the chain, possibly with errors. */
  ghost predicate OnChain(h: History, s: Session) {
    && s.start + |s.items| <= U64_LIMIT
    && forall i :: 0 <= i < |s.items| && s.items[i].Ok? ==> s.items[i].value == h.chain(s.start + i)
  }

  /** The source starts at or below the height to continue from; on a database
      without a head, exactly there. */
  predicate StartsLowEnough(h: History, t: Tables, s: Session) {
    if t.head.None? then s.start == h.Next(t) else s.start <= h.Next(t)
  }

  function After(h: History, t: Tables, s: Session): Tables {
    var states := RunOn(h.replay, s.keepGoing, t, s.items, |s.items|).states;
    LastOf(t, if s.cut <= |states| then states[..s.cut] else states)
  }

  /** Progress of a run over the chain: where it is, and that no commit left it. */
  ghost predicate Progress(h: History, t: Tables, s: Session, n: nat, run: Run) {
    && h.Reached(run.tables) && h.Next(run.tables) >= h.Next(t)
    && (run.processed != [] ==> run.stats.lastBlock.Some? && run.stats.lastBlock.value + 1 == h.Next(run.tables))
    && (run.processed == [] ==> run.tables == t && run.stats.lastBlock.None?)
    && (forall i :: 0 <= i < |run.states| ==> h.Reached(run.states[i]) && h.Next(run.states[i]) >= h.Next(t))
    && !(run.status.Failed? && run.status.error.BlockGap?)
    && (run.status.Going? ==> h.Next(run.tables) == if s.start + n <= h.Next(t) then h.Next(t) else s.start + n)
  }

  /** Replaying a block never reports a gap; only the pipeline does. */
  ghost predicate NoGapErrors(replay: BlockReplay) {
    forall t, b :: replay(t, b).Err? ==> !replay(t, b).error.BlockGap?
  }

  lemma ProgressProcess(h: History, t: Tables, s: Session, n: nat, run: Run, block: Block)
    requires h.Valid() && h.Harmless() && Progress(h, t, s, n, run) && run.status.Going?
    requires h.Next(run.tables) == s.start + n < U64_LIMIT && s.start + n >= h.Next(t)
    requires block == h.chain(s.start + n) && h.replay(run.tables, block).Ok?
    ensures Progress(h, t, s, n + 1, Process(run, block, h.replay(run.tables, block).value, s.keepGoing))
  {
    ReplayNext(h, run.tables);
    var states := h.replay(run.tables, block).value;
    var next := Process(run, block, states, s.keepGoing);
    forall i | 0 <= i < |next.states| ensures h.Reached(next.states[i]) && h.Next(next.states[i]) >= h.Next(t) {
      if i >= |run.states| { assert next.states[i] == states[i - |run.states|]; }
    }
  }

  /** Progress as a property of the run's state alone. */
  ghost function ProgressOf(h: History, t: Tables, s: Session): (nat, Run) -> bool {
    (n: nat, run: Run) => Progress(h, t, s, n, run)
  }

  lemma ProgressTake(h: History, t: Tables, s: Session, n: nat, run: Run)
    requires h.Valid() && h.Harmless() && NoGapErrors(h.replay)
    requires OnChain(h, s) && StartsLowEnough(h, t, s) && n < |s.items|
    requires ProgressOf(h, t, s)(n, run)
    ensures ProgressOf(h, t, s)(n + 1, Take(h.replay, s.keepGoing, t.head, run, s.items[n]))
  {
    if run.status.Going? && s.items[n].Ok? {
      var block := s.items[n].value;
      assert block.number == s.start + n;
      if !AlreadyDone(t.head, block) {
        assert !Gap(run.stats, block);
        if h.replay(run.tables, block).Ok? { ProgressProcess(h, t, s, n, run, block); }
      }
    }
  }

  lemma FirstProgress(h: History, t: Tables, s: Session)
    requires h.Reached(t) && StartsLowEnough(h, t, s)
    ensures ProgressOf(h, t, s)(0, NewRun(t))
  {
  }

  ghost predicate Preserves(h: History, t: Tables, s: Session, inv: (nat, Run) -> bool, n: nat, run: Run)
    requires n < |s.items|
  {
    inv(n, run) ==> inv(n + 1, Take(h.replay, s.keepGoing, t.head, run, s.items[n]))
  }

  /** Induction over the items of a session from item `k` on, for any property of the
      run's state. */
  lemma {:induction false} ItemsInduction(h: History, t: Tables, s: Session, inv: (nat, Run) -> bool, k: nat, n: nat)
    requires k <= n <= |s.items| && inv(k, RunOn(h.replay, s.keepGoing, t, s.items, k))
    requires forall m, run :: 0 <= m < |s.items| ==> Preserves(h, t, s, inv, m, run)
    ensures inv(n, RunOn(h.replay, s.keepGoing, t, s.items, n))
    decreases n
  {
    if k < n {
      ItemsInduction(h, t, s, inv, k, n - 1);
      assert Preserves(h, t, s, inv, n - 1, RunOn(h.replay, s.keepGoing, t, s.items, n - 1));
    }
  }

  lemma RunProgress(h: History, t: Tables, s: Session, n: nat)
    requires h.Valid() && h.Harmless() && NoGapErrors(h.replay)
    requires OnChain(h, s) && StartsLowEnough(h, t, s) && h.Reached(t) && n <= |s.items|
    ensures ProgressOf(h, t, s)(n, RunOn(h.replay, s.keepGoing, t, s.items, n))
  {
    FirstProgress(h, t, s);
    forall m, run | 0 <= m < |s.items| ensures Preserves(h, t, s, ProgressOf(h, t, s), m, run) {
      if ProgressOf(h, t, s)(m, run) { ProgressTake(h, t, s, m, run); }
    }
    ItemsInduction(h, t, s, ProgressOf(h, t, s), 0, n);
  }

  /** One run, cut anywhere, keeps to the chain and never moves the head back. */
  lemma SessionSafe(h: History, t: Tables, s: Session)
    requires h.Valid() && h.Harmless() && NoGapErrors(h.replay)
    requires OnChain(h, s) && StartsLowEnough(h, t, s) && h.Reached(t)
    ensures h.Reached(After(h, t, s)) && h.Next(After(h, t, s)) >= h.Next(t)
  {
    RunProgress(h, t, s, |s.items|);
  }

  // ---- any sequence of runs ----

  function AfterAll(h: History, sessions: seq<Session>): Tables {
    if sessions == [] then h.base else After(h, AfterAll(h, sessions[..|sessions| - 1]), sessions[|sessions| - 1])
  }

  ghost predicate GoodSessions(h: History, sessions: seq<Session>) {
    sessions == [] ||
    (&& GoodSessions(h, sessions[..|sessions| - 1])
     && OnChain(h, sessions[|sessions| - 1])
     && StartsLowEnough(h, AfterAll(h, sessions[..|sessions| - 1]), sessions[|sessions| - 1]))
  }

  /** Over any sequence of crashed and completed runs, the database is the exact
      fold of the chain up to its head, or between the two commits of the next block. */
  lemma {:induction false} RestartsSafe(h: History, sessions: seq<Session>)
    requires h.Valid() && h.Harmless() && NoGapErrors(h.replay) && GoodSessions(h, sessions)
    ensures h.Reached(AfterAll(h, sessions))
  {
    if sessions == [] {
      assert h.Blocks(0) == [];
    } else {
      RestartsSafe(h, sessions[..|sessions| - 1]);
      SessionSafe(h, AfterAll(h, sessions[..|sessions| - 1]), sessions[|sessions| - 1]);
    }
  }

  /** The head after more runs is at least the head before them. */
  lemma HeadNeverBack(h: History, sessions: seq<Session>, n: nat)
    requires h.Valid() && h.Harmless() && NoGapErrors(h.replay) && GoodSessions(h, sessions) && n <= |sessions|
    ensures h.Next(AfterAll(h, sessions[..n])) <= h.Next(AfterAll(h, sessions))
    decreases |sessions|
  {
    if n == |sessions| {
      assert sessions[..n] == sessions;
    } else {
      var init := sessions[..|sessions| - 1];
      assert init[..n] == sessions[..n];
      HeadNeverBack(h, init, n);
      RestartsSafe(h, init);
      SessionSafe(h, AfterAll(h, init), sessions[|sessions| - 1]);
    }
  }

  /** With one commit per block no condition on the blocks is needed, and every
      reachable state is the exact fold. */
  lemma SingleCommitExact(h: History, sessions: seq<Session>)
    requires h.Valid() && NoGapErrors(h.replay) && GoodSessions(h, sessions)
    requires forall t, n :: h.replay(t, h.chain(n)).Ok? ==> |h.replay(t, h.chain(n)).value| == 1
    ensures h.Exact(AfterAll(h, sessions))
  {
    assert h.Harmless();
    RestartsSafe(h, sessions);
  }

  // ---- when a restarted run makes progress ----

  /** A run that can only skip blocks, or fail, changes nothing. */
  ghost predicate Stuck(h: History, t: Tables, s: Session, n: nat, run: Run) {
    && run.tables == t && run.states == [] && run.stats.lastBlock.None?
    && (run.status.Going? ==> s.start + n <= h.Next(t))
  }

  lemma StuckTake(h: History, t: Tables, s: Session, n: nat, run: Run)
    requires h.Valid() && OnChain(h, s) && StartsLowEnough(h, t, s) && n < |s.items|
    requires h.replay(t, h.chain(h.Next(t))).Err? && Stuck(h, t, s, n, run)
    ensures Stuck(h, t, s, n + 1, Take(h.replay, s.keepGoing, t.head, run, s.items[n]))
  {
    if run.status.Going? && s.items[n].Ok? {
      assert s.items[n].value.number == s.start + n;
    }
  }

  lemma {:induction false} StuckRun(h: History, t: Tables, s: Session, n: nat)
    requires h.Valid() && OnChain(h, s) && StartsLowEnough(h, t, s) && n <= |s.items|
    requires h.replay(t, h.chain(h.Next(t))).Err?
    ensures Stuck(h, t, s, n, RunOn(h.replay, s.keepGoing, t, s.items, n))
    decreases n
  {
    if n > 0 {
      StuckRun(h, t, s, n - 1);
      StuckTake(h, t, s, n - 1, RunOn(h.replay, s.keepGoing, t, s.items, n - 1));
    }
  }

  /** If the next block is rejected over the database as it stands, no run over the
      chain changes the database... */
  lemma StuckSession(h: History, t: Tables, s: Session)
    requires h.Valid() && OnChain(h, s) && StartsLowEnough(h, t, s)
    requires h.replay(t, h.chain(h.Next(t))).Err?
    ensures After(h, t, s) == t
  {
    StuckRun(h, t, s, |s.items|);
  }

  /** ...however often it is restarted. */
  lemma {:induction false} StuckForever(h: History, sessions: seq<Session>, later: seq<Session>)
    requires h.Valid() && GoodSessions(h, sessions + later)
    requires var t := AfterAll(h, sessions); h.replay(t, h.chain(h.Next(t))).Err?
    ensures AfterAll(h, sessions + later) == AfterAll(h, sessions)
    decreases |later|
  {
    if later == [] {
      assert sessions + later == sessions;
    } else {
      var all := sessions + later;
      assert all[..|all| - 1] == sessions + later[..|later| - 1];
      StuckForever(h, sessions, later[..|later| - 1]);
      StuckSession(h, AfterAll(h, sessions), all[|all| - 1]);
    }
  }

  /** The run reaches the next block having only skipped others. */
  lemma {:induction false} SkipsToNext(h: History, t: Tables, s: Session, n: nat)
    requires h.Valid() && OnChain(h, s) && n <= |s.items| && s.start + n <= h.Next(t)
    requires t.head.Some? || n == 0
    requires forall i :: 0 <= i < n ==> s.items[i].Ok?
    ensures RunOn(h.replay, s.keepGoing, t, s.items, n) == NewRun(t)
    decreases n
  {
    if n > 0 {
      SkipsToNext(h, t, s, n - 1);
      assert s.items[n - 1].value.number == s.start + n - 1;
    }
  }

  ghost function PastOf(h: History, t: Tables, s: Session): (nat, Run) -> bool {
    (n: nat, run: Run) => Progress(h, t, s, n, run) && h.Next(run.tables) > h.Next(t)
  }

  lemma TakeStaysPast(h: History, t: Tables, s: Session, n: nat, run: Run)
    requires h.Valid() && h.Harmless() && NoGapErrors(h.replay)
    requires OnChain(h, s) && StartsLowEnough(h, t, s) && n < |s.items| && PastOf(h, t, s)(n, run)
    ensures PastOf(h, t, s)(n + 1, Take(h.replay, s.keepGoing, t.head, run, s.items[n]))
  {
    ProgressTake(h, t, s, n, run);
    if run.status.Going? && s.items[n].Ok? {
      var block := s.items[n].value;
      assert block.number == s.start + n;
      if h.replay(run.tables, block).Ok? { assert HeadMoved(run.tables, block, h.replay(run.tables, block).value); }
    }
  }

  /** Once past the next block the head stays past it. */
  lemma StaysPast(h: History, t: Tables, s: Session, k: nat, n: nat)
    requires h.Valid() && h.Harmless() && NoGapErrors(h.replay)
    requires OnChain(h, s) && StartsLowEnough(h, t, s) && h.Reached(t) && k <= n <= |s.items|
    requires PastOf(h, t, s)(k, RunOn(h.replay, s.keepGoing, t, s.items, k))
    ensures PastOf(h, t, s)(n, RunOn(h.replay, s.keepGoing, t, s.items, n))
  {
    forall m, run | 0 <= m < |s.items| ensures Preserves(h, t, s, PastOf(h, t, s), m, run) {
      if PastOf(h, t, s)(m, run) { TakeStaysPast(h, t, s, m, run); }
    }
    ItemsInduction(h, t, s, PastOf(h, t, s), k, n);
  }

  /** Taking the next block as the first one that counts. */
  lemma TakesNext(h: History, t: Tables, s: Session, k: nat)
    requires h.Valid() && h.Harmless() && NoGapErrors(h.replay)
    requires OnChain(h, s) && h.Reached(t) && StartsLowEnough(h, t, s)
    requires k < |s.items| && s.start + k == h.Next(t) && s.items[k].Ok?
    requires h.replay(t, h.chain(h.Next(t))).Ok?
    ensures PastOf(h, t, s)(k + 1, Take(h.replay, s.keepGoing, t.head, NewRun(t), s.items[k]))
  {
    assert s.items[k].value.number == h.Next(t);
    assert ProgressOf(h, t, s)(k, NewRun(t));
    ProgressTake(h, t, s, k, NewRun(t));
    ReplayNext(h, t);
  }

  lemma GetsPast(h: History, t: Tables, s: Session, k: nat)
    requires h.Valid() && h.Harmless() && NoGapErrors(h.replay)
    requires OnChain(h, s) && h.Reached(t) && StartsLowEnough(h, t, s)
    requires k < |s.items| && s.start + k == h.Next(t) && forall i :: 0 <= i <= k ==> s.items[i].Ok?
    requires h.replay(t, h.chain(h.Next(t))).Ok?
    ensures PastOf(h, t, s)(k + 1, RunOn(h.replay, s.keepGoing, t, s.items, k + 1))
  {
    SkipsToNext(h, t, s, k);
    TakesNext(h, t, s, k);
  }

  lemma UncutAfter(h: History, t: Tables, s: Session)
    requires MovesHead(h.replay) && s.cut >= |RunOn(h.replay, s.keepGoing, t, s.items, |s.items|).states|
    ensures After(h, t, s) == RunOn(h.replay, s.keepGoing, t, s.items, |s.items|).tables
  {
    var states := RunOn(h.replay, s.keepGoing, t, s.items, |s.items|).states;
    assert states[..|states|] == states;
    RunSound(h.replay, s.keepGoing, t, s.items, |s.items|);
  }

  lemma EndsPast(h: History, t: Tables, s: Session, k: nat)
    requires h.Valid() && h.Harmless() && NoGapErrors(h.replay)
    requires OnChain(h, s) && h.Reached(t) && StartsLowEnough(h, t, s)
    requires k < |s.items| && s.start + k == h.Next(t) && forall i :: 0 <= i < |s.items| ==> s.items[i].Ok?
    requires h.replay(t, h.chain(h.Next(t))).Ok?
    requires s.cut >= |RunOn(h.replay, s.keepGoing, t, s.items, |s.items|).states|
    ensures h.Next(After(h, t, s)) > h.Next(t)
  {
    UncutAfter(h, t, s);
    GetsPast(h, t, s, k);
    StaysPast(h, t, s, k + 1, |s.items|);
  }

  /** A run that is given the next block and is not cut short moves the head exactly
      when that block replays over the database as it stands, even one left between
      two commits. */
  lemma ProgressIff(h: History, t: Tables, s: Session)
    requires h.Valid() && h.Harmless() && NoGapErrors(h.replay)
    requires OnChain(h, s) && StartsLowEnough(h, t, s) && h.Reached(t)
    requires s.start <= h.Next(t) < s.start + |s.items| && forall i :: 0 <= i < |s.items| ==> s.items[i].Ok?
    requires s.cut >= |RunOn(h.replay, s.keepGoing, t, s.items, |s.items|).states|
    ensures h.Next(After(h, t, s)) > h.Next(t) <==> h.replay(t, h.chain(h.Next(t))).Ok?
  {
    if h.replay(t, h.chain(h.Next(t))).Ok? {
      EndsPast(h, t, s, h.Next(t) - s.start);
    } else {
      StuckSession(h, t, s);
    }
  }
}
