/** The fetcher's stream as the pipeline's input. */
module Feed {
  import opened Types
  import opened Blocks
  import opened StateTables
  import opened Replay
  import opened Pipeline
  import opened Restarts
  import Fetcher

  predicate Contiguous(data: seq<Block>) {
    forall i :: 0 <= i < |data| ==> data[i].number == data[0].number + i
  }

  lemma ContiguousAscends(data: seq<Block>)
    requires Contiguous(data)
    ensures Fetcher.AscendingNumbers(data)
  {
  }

  lemma ContiguousNext(blocks: seq<Block>, last: Block)
    requires Contiguous(blocks) && (blocks != [] ==> last.number == blocks[|blocks| - 1].number + 1)
    ensures Contiguous(blocks + [last])
  {
  }

  /** A range of a contiguous dataset is contiguous, and ends where the dataset does
      if that is in range. */
  lemma {:induction false} RangeContiguous(data: seq<Block>, from: nat, to: Option<U64>)
    requires Contiguous(data)
    ensures Contiguous(Fetcher.Range(data, from, to))
  {
    if data != [] {
      var init, last := data[..|data| - 1], data[|data| - 1];
      var before := Fetcher.Range(init, from, to);
      RangeContiguous(init, from, to);
      if Fetcher.InRange(last, from, to) {
        if before != [] { RangeReachesEnd(init, from, to); }
        ContiguousNext(before, last);
      } else {
        assert before + [] == before;
      }
    }
  }

  lemma RangeReachesEnd(data: seq<Block>, from: nat, to: Option<U64>)
    requires Contiguous(data) && Fetcher.Range(data, from, to) != []
    requires !Fetcher.Past(to, data[|data| - 1].number)
    ensures var range := Fetcher.Range(data, from, to); range[|range| - 1] == data[|data| - 1]
  {
    var n: nat := data[|data| - 1].number;
    Fetcher.RangeIn(data, from, to);
    Fetcher.RangeBelow(data, from, to, n + 1);
    assert Fetcher.InRange(Fetcher.Range(data, from, to)[0], from, to);
    assert from <= Fetcher.Range(data, from, to)[0].number <= n;
  }

  /** What the pipeline is fed: the blocks yielded so far, then the error that
      ended the stream, if one did. */
  function Items(s: Fetcher.Stream, message: string): seq<Item> {
    seq(|s.blocks|, i requires 0 <= i < |s.blocks| => Ok(s.blocks[i])) +
    (if s.status.Failed? then [Err(message)] else [])
  }

  /** The last block processed is the last one taken. */
  ghost predicate Following(blocks: seq<Block>, head: Option<U64>, n: nat, run: Run) {
    && !(run.status.Failed? && run.status.error.BlockGap?)
    && (run.status.Going? && run.stats.lastBlock.Some? ==>
         0 < n <= |blocks| && run.stats.lastBlock.value == blocks[n - 1].number && !AlreadyDone(head, blocks[n - 1]))
  }

  lemma FollowingNext(
    replay: BlockReplay, keepGoing: nat -> bool, blocks: seq<Block>, head: Option<U64>, n: nat, run: Run)
    requires NoGapErrors(replay) && Contiguous(blocks) && n < |blocks| && Following(blocks, head, n, run)
    ensures Following(blocks, head, n + 1, Take(replay, keepGoing, head, run, Ok(blocks[n])))
  {
  }

  /** Contiguous blocks never trip the pipeline's gap check, whatever the head it
      resumes from and whatever the blocks do. */
  lemma {:induction false} ContiguousNeverGaps(
    replay: BlockReplay, keepGoing: nat -> bool, t: Tables, s: Fetcher.Stream, message: string, n: nat)
    requires NoGapErrors(replay) && Contiguous(s.blocks) && n <= |s.blocks|
    ensures n <= |Items(s, message)|
    ensures Following(s.blocks, t.head, n, RunOn(replay, keepGoing, t, Items(s, message), n))
  {
    if n > 0 {
      ContiguousNeverGaps(replay, keepGoing, t, s, message, n - 1);
      FollowingNext(replay, keepGoing, s.blocks, t.head, n - 1, RunOn(replay, keepGoing, t, Items(s, message), n - 1));
    }
  }

  /** From an honest portal over a contiguous dataset, replay takes in the whole
      range without a gap error. */
  lemma FetchedNeverGaps(
    wire: Fetcher.Ndjson.Wire, portal: Fetcher.Portal, data: seq<Block>, from: U64, to: Option<U64>, turns: nat,
    replay: BlockReplay, keepGoing: nat -> bool, t: Tables)
    requires Contiguous(data) && Fetcher.Serves(wire, portal, data) && turns > |Fetcher.Range(data, from, to)|
    requires NoGapErrors(replay)
    ensures var items := Items(Fetcher.Turns(wire, portal, from, to, turns), "");
      var run := RunOn(replay, keepGoing, t, items, |items|);
      && |items| == |Fetcher.Range(data, from, to)|
      && !(run.status.Failed? && run.status.error.BlockGap?)
  {
    var s := Fetcher.Turns(wire, portal, from, to, turns);
    ContiguousAscends(data);
    Fetcher.WholeRange(wire, portal, data, from, to, turns);
    RangeContiguous(data, from, to);
    ContiguousNeverGaps(replay, keepGoing, t, s, "", |s.blocks|);
  }

  /** Consecutive blocks of a chain. */
  ghost predicate Stretch(chain: nat -> Block, blocks: seq<Block>) {
    Contiguous(blocks) && forall i :: 0 <= i < |blocks| ==> blocks[i] == chain(blocks[i].number)
  }

  lemma RangeStretch(chain: nat -> Block, data: seq<Block>, from: U64, to: Option<U64>)
    requires Stretch(chain, data)
    ensures Stretch(chain, Fetcher.Range(data, from, to))
  {
    RangeContiguous(data, from, to);
    var range := Fetcher.Range(data, from, to);
    forall i | 0 <= i < |range| ensures range[i] == chain(range[i].number) {
      Fetcher.RangeMembers(data, from, to, range[i]);
    }
  }

  lemma StreamOnChain(h: History, s: Fetcher.Stream, keepGoing: nat -> bool, cut: nat)
    requires s.status.Finished? && s.blocks != [] && Stretch(h.chain, s.blocks)
    ensures OnChain(h, Session(s.blocks[0].number, Items(s, ""), keepGoing, cut))
  {
    assert |Items(s, "")| == |s.blocks|;
    assert s.blocks[|s.blocks| - 1].number == s.blocks[0].number + |s.blocks| - 1;
  }

  /** A dataset that is a stretch of the chain gives sessions on the chain: the
      restart theorems hold of runs fed by such a portal. */
  lemma FetchedOnChain(
    h: History, wire: Fetcher.Ndjson.Wire, portal: Fetcher.Portal, data: seq<Block>, from: U64, to: Option<U64>,
    turns: nat, keepGoing: nat -> bool, cut: nat)
    requires Stretch(h.chain, data) && Fetcher.Serves(wire, portal, data)
    requires turns > |Fetcher.Range(data, from, to)| > 0
    ensures var s := Fetcher.Turns(wire, portal, from, to, turns);
      && s.blocks == Fetcher.Range(data, from, to)
      && OnChain(h, Session(s.blocks[0].number, Items(s, ""), keepGoing, cut))
  {
    ContiguousAscends(data);
    Fetcher.WholeRange(wire, portal, data, from, to, turns);
    RangeStretch(h.chain, data, from, to);
    StreamOnChain(h, Fetcher.Turns(wire, portal, from, to, turns), keepGoing, cut);
  }
}
