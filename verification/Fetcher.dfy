/** Pagination over a portal's stream endpoint (crates/sqd-fetcher). */
module Fetcher {
  import opened Types
  import opened Blocks
  import opened Ndjson
  import Stepwise

  datatype Response = Refusal(message: string) | Body(chunks: seq<Chunk>)

  /** What the portal answers to request number `i`, for blocks `from` up to `to`. */
  type Portal = (nat, nat, Option<U64>) -> Response

  datatype Status = Going | Finished | Failed(error: FetchError)

  /** The stream after some requests. */
  datatype Stream = Stream(current: nat, blocks: seq<Block>, requests: nat, status: Status)

  function Respond(wire: Wire, response: Response): Outcome {
    match response
    case Refusal(message) => Outcome([], Some(Refused(message)))
    case Body(chunks) => Read(wire, chunks)
  }

  predicate Past(to: Option<U64>, number: nat) {
    to.Some? && number > to.value
  }

  /** The stream after one more response. */
  function AfterPage(to: Option<U64>, s: Stream, page: Outcome): Stream {
    var next := s.(blocks := s.blocks + page.blocks, requests := s.requests + 1);
    if page.error.Some? then next.(status := Failed(page.error.value))
    else if page.blocks == [] then next.(status := Finished)
    else
      var last := page.blocks[|page.blocks| - 1].number;
      if to.Some? && last >= to.value then next.(status := Finished)
      else next.(current := last + 1)
  }

  /** One turn of the pagination loop. */
  function Turn(wire: Wire, portal: Portal, to: Option<U64>, s: Stream): Stream {
    if !s.status.Going? then s
    else if Past(to, s.current) then s.(status := Finished)
    else AfterPage(to, s, Respond(wire, portal(s.requests, s.current, to)))
  }

  /** The stream after at most `turns` turns of the loop. */
  function Turns(wire: Wire, portal: Portal, from: U64, to: Option<U64>, turns: nat): Stream {
    if turns == 0 then Stream(from, [], 0, Going) else Turn(wire, portal, to, Turns(wire, portal, from, to, turns - 1))
  }

  /** One turn of the loop, from the end test to the next page's start. */
  method TakePage(wire: Wire, portal: Portal, to: Option<U64>, s: Stream) returns (next: Stream)
    requires s.status.Going?
    ensures next == Turn(wire, portal, to, s)
  {
    if to.Some? && s.current > to.value {
      return s.(status := Finished);
    }
    var response := portal(s.requests, s.current, to);
    if response.Refusal? {
      assert s.blocks + [] == s.blocks;
      return s.(requests := s.requests + 1, status := Failed(Refused(response.message)));
    }
    var page, error := ReadBody(wire, response.chunks);
    assert Respond(wire, response) == Outcome(page, error);
    next := s.(blocks := s.blocks + page, requests := s.requests + 1);
    if error.Some? {
      return next.(status := Failed(error.value));
    }
    if page == [] {
      return next.(status := Finished);
    }
    var lastBlock := page[|page| - 1].number;
    if to.Some? && lastBlock >= to.value {
      return next.(status := Finished);
    }
    next := next.(current := lastBlock + 1);
  }

  /** The block stream, for a consumer that stops asking after `turns` turns. */
  method StreamBlocks(wire: Wire, portal: Portal, from: U64, to: Option<U64>, turns: nat) returns (s: Stream)
    ensures s == Turns(wire, portal, from, to, turns)
  {
    s := Stream(from, [], 0, Going);
    var turn := 0;
    while turn < turns && s.status.Going?
      invariant turn <= turns && s == Turns(wire, portal, from, to, turn)
    {
      s := TakePage(wire, portal, to, s);
      turn := turn + 1;
    }
    if turn < turns { TurnsEnd(wire, portal, from, to, turn, turns); }
  }

  lemma {:induction false} TurnsEnd(wire: Wire, portal: Portal, from: U64, to: Option<U64>, n: nat, m: nat)
    requires n <= m && !Turns(wire, portal, from, to, n).status.Going?
    ensures Turns(wire, portal, from, to, m) == Turns(wire, portal, from, to, n)
    decreases m
  {
    if n < m { TurnsEnd(wire, portal, from, to, n, m - 1); }
  }

  // ---- against a portal that serves a dataset ----

  predicate AscendingNumbers(data: seq<Block>) {
    forall i, j :: 0 <= i < j < |data| ==> data[i].number < data[j].number
  }

  predicate InRange(block: Block, from: nat, to: Option<U64>) {
    from <= block.number && !Past(to, block.number)
  }

  /** The blocks of the dataset in range, in order. */
  function Range(data: seq<Block>, from: nat, to: Option<U64>): seq<Block> {
    if data == [] then []
    else
      var last := data[|data| - 1];
      Range(data[..|data| - 1], from, to) + (if InRange(last, from, to) then [last] else [])
  }

  /** Every answer is a first part of the blocks still in range, and not the empty
      one unless none are left. */
  ghost predicate Serves(wire: Wire, portal: Portal, data: seq<Block>) {
    forall i, from, to :: ServedPage(Range(data, from, to), Respond(wire, portal(i, from, to)))
  }

  predicate ServedPage(range: seq<Block>, page: Outcome) {
    && page.error.None? && |page.blocks| <= |range| && page.blocks == range[..|page.blocks|]
    && (page.blocks == [] ==> range == [])
  }

  lemma {:induction false} RangeBelow(data: seq<Block>, from: nat, to: Option<U64>, n: nat)
    requires forall i :: 0 <= i < |data| ==> data[i].number < n
    ensures forall i :: 0 <= i < |Range(data, from, to)| ==>
      Range(data, from, to)[i].number < n && InRange(Range(data, from, to)[i], from, to)
  {
    if data != [] { RangeBelow(data[..|data| - 1], from, to, n); }
  }

  lemma {:induction false} RangeAscends(data: seq<Block>, from: nat, to: Option<U64>)
    requires AscendingNumbers(data)
    ensures AscendingNumbers(Range(data, from, to))
  {
    if data != [] {
      var init := data[..|data| - 1];
      RangeAscends(init, from, to);
      RangeBelow(init, from, to, data[|data| - 1].number);
    }
  }

  lemma RangeIn(data: seq<Block>, from: nat, to: Option<U64>)
    ensures forall i :: 0 <= i < |Range(data, from, to)| ==> InRange(Range(data, from, to)[i], from, to)
  {
    RangeBelow(data, from, to, 0x1_0000_0000_0000_0000);
  }

  lemma RangeEmpty(data: seq<Block>, from: nat, to: Option<U64>)
    requires Past(to, from)
    ensures Range(data, from, to) == []
  {
    RangeIn(data, from, to);
    assert |Range(data, from, to)| > 0 ==> !InRange(Range(data, from, to)[0], from, to);
  }

  /** Asking again after block `k - 1` of a range asks for exactly the rest of it. */
  lemma RangeAfter(data: seq<Block>, from: nat, to: Option<U64>, k: nat)
    requires AscendingNumbers(data) && 0 < k <= |Range(data, from, to)|
    ensures Range(data, Range(data, from, to)[k - 1].number + 1, to) == Range(data, from, to)[k..]
  {
    RangeAscends(data, from, to);
    RangeIn(data, from, to);
    var range := Range(data, from, to);
    RangeFiltered(data, from, range[k - 1].number + 1, to);
    FilterAscending(range, k);
  }

  function From(blocks: seq<Block>, from: nat): seq<Block> {
    if blocks == [] then []
    else
      From(blocks[..|blocks| - 1], from) +
        (if from <= blocks[|blocks| - 1].number then [blocks[|blocks| - 1]] else [])
  }

  lemma FromNext(blocks: seq<Block>, from: nat, last: Block)
    ensures From(blocks + [last], from) == From(blocks, from) + (if from <= last.number then [last] else [])
  {
    assert (blocks + [last])[..|blocks|] == blocks;
  }

  lemma {:induction false} RangeFiltered(data: seq<Block>, from: nat, next: nat, to: Option<U64>)
    requires from <= next
    ensures Range(data, next, to) == From(Range(data, from, to), next)
  {
    if data != [] {
      var init, last := data[..|data| - 1], data[|data| - 1];
      RangeFiltered(init, from, next, to);
      FromNext(Range(init, from, to), next, last);
      assert Range(init, from, to) + [] == Range(init, from, to);
    }
  }

  lemma {:induction false} FilterAscending(blocks: seq<Block>, k: nat)
    requires AscendingNumbers(blocks) && 0 < k <= |blocks|
    ensures From(blocks, blocks[k - 1].number + 1) == blocks[k..]
    decreases |blocks|
  {
    var init := blocks[..|blocks| - 1];
    if k == |blocks| {
      NoneFrom(init, blocks[k - 1].number + 1);
    } else {
      FilterAscending(init, k);
      SliceLast(blocks, k);
    }
  }

  lemma SliceLast<T>(xs: seq<T>, k: nat)
    requires k < |xs|
    ensures xs[k..] == xs[..|xs| - 1][k..] + [xs[|xs| - 1]]
  {
  }

  lemma {:induction false} NoneFrom(blocks: seq<Block>, from: nat)
    requires forall i :: 0 <= i < |blocks| ==> blocks[i].number < from
    ensures From(blocks, from) == []
  {
    if blocks != [] { NoneFrom(blocks[..|blocks| - 1], from); }
  }

  /** The range is what has been yielded, and then what the next request asks for. */
  ghost predicate OnTrack(data: seq<Block>, from: U64, to: Option<U64>, s: Stream) {
    && !s.status.Failed?
    && s.requests <= |s.blocks| + (if s.status.Finished? then 1 else 0)
    && (s.status.Going? ==> Range(data, from, to) == s.blocks + Range(data, s.current, to))
    && (s.status.Finished? ==> Range(data, from, to) == s.blocks)
  }

  /** A page splits what is still in range into itself and what comes after it. */
  lemma PageSplits(data: seq<Block>, current: nat, to: Option<U64>, page: seq<Block>)
    requires AscendingNumbers(data) && page != []
    requires |page| <= |Range(data, current, to)| && page == Range(data, current, to)[..|page|]
    ensures var last := page[|page| - 1].number;
      Range(data, current, to) == page + (if to.Some? && last >= to.value then [] else Range(data, last + 1, to))
  {
    var last := page[|page| - 1].number;
    RangeAfter(data, current, to, |page|);
    if to.Some? && last >= to.value { RangeEmpty(data, last + 1, to); }
    assert Range(data, current, to) == page + Range(data, current, to)[|page|..];
  }

  lemma Reassociate<T>(a: seq<T>, b: seq<T>, c: seq<T>)
    ensures a + (b + c) == (a + b) + c
  {
  }

  lemma EmptyPage(data: seq<Block>, from: U64, to: Option<U64>, s: Stream, page: Outcome)
    requires OnTrack(data, from, to, s) && s.status.Going?
    requires ServedPage(Range(data, s.current, to), page) && page.blocks == []
    ensures OnTrack(data, from, to, AfterPage(to, s, page)) && AfterPage(to, s, page).status.Finished?
  {
    assert s.blocks + [] == s.blocks;
  }

  lemma LastPage(data: seq<Block>, from: U64, to: Option<U64>, s: Stream, page: Outcome)
    requires OnTrack(data, from, to, s) && s.status.Going? && page.error.None? && page.blocks != []
    requires to.Some? && page.blocks[|page.blocks| - 1].number >= to.value
    requires Range(data, s.current, to) == page.blocks + []
    ensures OnTrack(data, from, to, AfterPage(to, s, page))
  {
    assert s.blocks + (page.blocks + []) == s.blocks + page.blocks;
  }

  lemma NextPage(data: seq<Block>, from: U64, to: Option<U64>, s: Stream, page: Outcome, next: nat)
    requires OnTrack(data, from, to, s) && s.status.Going? && page.error.None? && page.blocks != []
    requires next == page.blocks[|page.blocks| - 1].number + 1 && (to.Some? ==> next <= to.value)
    requires Range(data, s.current, to) == page.blocks + Range(data, next, to)
    ensures OnTrack(data, from, to, AfterPage(to, s, page))
  {
    Reassociate(s.blocks, page.blocks, Range(data, next, to));
  }

  lemma FullPage(data: seq<Block>, from: U64, to: Option<U64>, s: Stream, page: Outcome)
    requires AscendingNumbers(data) && OnTrack(data, from, to, s) && s.status.Going?
    requires ServedPage(Range(data, s.current, to), page) && page.blocks != []
    ensures OnTrack(data, from, to, AfterPage(to, s, page)) && |AfterPage(to, s, page).blocks| > |s.blocks|
  {
    PageSplits(data, s.current, to, page.blocks);
    var last := page.blocks[|page.blocks| - 1].number;
    if to.Some? && last >= to.value {
      LastPage(data, from, to, s, page);
    } else {
      NextPage(data, from, to, s, page, last + 1);
    }
  }

  lemma TurnOnTrack(wire: Wire, portal: Portal, data: seq<Block>, from: U64, to: Option<U64>, s: Stream)
    requires AscendingNumbers(data) && Serves(wire, portal, data) && OnTrack(data, from, to, s) && s.status.Going?
    ensures var next := Turn(wire, portal, to, s);
      OnTrack(data, from, to, next) && (next.status.Finished? || |next.blocks| > |s.blocks|)
  {
    var page := Respond(wire, portal(s.requests, s.current, to));
    assert ServedPage(Range(data, s.current, to), page);
    if Past(to, s.current) {
      RangeEmpty(data, s.current, to);
      assert s.blocks + [] == s.blocks;
    } else if page.blocks == [] {
      EmptyPage(data, from, to, s, page);
    } else {
      FullPage(data, from, to, s, page);
    }
  }

  /** On track, and at least one more block for each turn while it goes on. */
  ghost predicate Advancing(data: seq<Block>, from: U64, to: Option<U64>, s: Stream, n: nat) {
    OnTrack(data, from, to, s) && (s.status.Going? ==> |s.blocks| >= n)
  }

  lemma TurnAdvances(wire: Wire, portal: Portal, data: seq<Block>, from: U64, to: Option<U64>, s: Stream, n: nat)
    requires AscendingNumbers(data) && Serves(wire, portal, data) && Advancing(data, from, to, s, n)
    ensures Advancing(data, from, to, Turn(wire, portal, to, s), n + 1)
  {
    if s.status.Going? { TurnOnTrack(wire, portal, data, from, to, s); }
  }

  lemma {:induction false} TurnsOnTrack(
    wire: Wire, portal: Portal, data: seq<Block>, from: U64, to: Option<U64>, n: nat)
    requires AscendingNumbers(data) && Serves(wire, portal, data)
    ensures Advancing(data, from, to, Turns(wire, portal, from, to, n), n)
    decreases n
  {
    if n > 0 {
      TurnsOnTrack(wire, portal, data, from, to, n - 1);
      TurnAdvances(wire, portal, data, from, to, Turns(wire, portal, from, to, n - 1), n - 1);
    }
  }

  /** Against any portal that answers each request with some non-empty part of the
      remaining blocks, from its start, the stream yields every block of the dataset
      in range once and in order, and ends after at most one request per block plus one. */
  lemma WholeRange(wire: Wire, portal: Portal, data: seq<Block>, from: U64, to: Option<U64>, turns: nat)
    requires AscendingNumbers(data) && Serves(wire, portal, data)
    requires turns > |Range(data, from, to)|
    ensures var s := Turns(wire, portal, from, to, turns);
      && s.status == Finished && s.blocks == Range(data, from, to)
      && s.requests <= |Range(data, from, to)| + 1
  {
    TurnsOnTrack(wire, portal, data, from, to, turns);
  }

  /** The block stream itself, with no bound on its turns: against such a portal it ends. */
  method StreamAll(wire: Wire, portal: Portal, from: U64, to: Option<U64>, ghost data: seq<Block>)
    returns (s: Stream)
    requires AscendingNumbers(data) && Serves(wire, portal, data)
    ensures s.status == Finished && s.blocks == Range(data, from, to)
    ensures s.requests <= |Range(data, from, to)| + 1
  {
    s := Stream(from, [], 0, Going);
    while s.status.Going?
      invariant OnTrack(data, from, to, s)
      decreases s.status.Going?, |Range(data, from, to)| - |s.blocks|
    {
      TurnOnTrack(wire, portal, data, from, to, s);
      s := TakePage(wire, portal, to, s);
    }
  }

  /** `Range` keeps exactly the blocks whose number is in range. */
  lemma {:induction false} RangeMembers(data: seq<Block>, from: nat, to: Option<U64>, b: Block)
    ensures b in Range(data, from, to) <==>
      b in data && from <= b.number && (to == None || b.number <= to.value)
  {
    if data != [] {
      RangeMembers(data[..|data| - 1], from, to, b);
      assert data == data[..|data| - 1] + [data[|data| - 1]];
    }
  }

  // ---- against a portal that may also fail ----

  /** The response ends the stream with the error `e`: the request is refused, or the body
      breaks off or has a bad line. */
  predicate Fails(wire: Wire, response: Response, e: FetchError) {
    match response
    case Refusal(message) => e == Refused(message)
    case Body(chunks) => Read(wire, chunks).error == Some(e)
  }

  /** The blocks a response yields before it ends or fails. */
  function Yields(wire: Wire, response: Response): seq<Block> {
    match response
    case Refusal(_) => []
    case Body(chunks) => Read(wire, chunks).blocks
  }

  /** Every answer's blocks are a first part of those still in range, and an answer that
      does not fail has some unless none are left. */
  ghost predicate ServesOrFails(wire: Wire, portal: Portal, data: seq<Block>) {
    forall i, from, to :: PartServed(wire, Range(data, from, to), portal(i, from, to))
  }

  ghost predicate PartServed(wire: Wire, range: seq<Block>, response: Response) {
    && FirstPart(Yields(wire, response), range)
    && (Yields(wire, response) == [] && range != [] ==> exists e :: Fails(wire, response, e))
  }

  predicate FirstPart(xs: seq<Block>, ys: seq<Block>) {
    |xs| <= |ys| && xs == ys[..|xs|]
  }

  /** A request that fails ends the stream after the blocks it yielded, and only such a
      request does so with an error. */
  lemma TurnFailsIff(wire: Wire, portal: Portal, to: Option<U64>, s: Stream, e: FetchError)
    requires s.status.Going? && (to.Some? ==> s.current <= to.value)
    ensures var next, response := Turn(wire, portal, to, s), portal(s.requests, s.current, to);
      && next.requests == s.requests + 1 && next.blocks == s.blocks + Yields(wire, response)
      && (next.status == Failed(e) <==> Fails(wire, response, e))
  {
  }

  /** Request number `i` fails. */
  ghost predicate RequestFails(wire: Wire, portal: Portal, i: nat, to: Option<U64>, e: FetchError) {
    exists current :: Fails(wire, portal(i, current, to), e)
  }

  /** The stream has failed on its last request, after a first part of the range. */
  ghost predicate FailedPart(wire: Wire, portal: Portal, data: seq<Block>, from: U64, to: Option<U64>, s: Stream) {
    && s.status.Failed? && s.requests > 0
    && FirstPart(s.blocks, Range(data, from, to)) && RequestFails(wire, portal, s.requests - 1, to, s.status.error)
  }

  /** A stream that goes on asks for the rest of the range next, and one that finished
      yielded all of it. */
  ghost predicate OnTrackOrFailed(
    wire: Wire, portal: Portal, data: seq<Block>, from: U64, to: Option<U64>, s: Stream)
  {
    if s.status.Failed? then FailedPart(wire, portal, data, from, to, s) else OnTrack(data, from, to, s)
  }

  lemma FirstPartMore(xs: seq<Block>, more: seq<Block>, rest: seq<Block>)
    requires FirstPart(more, rest)
    ensures FirstPart(xs + more, xs + rest)
  {
  }

  lemma FailingTurn(
    wire: Wire, portal: Portal, data: seq<Block>, from: U64, to: Option<U64>, s: Stream, e: FetchError)
    requires s.status.Going? && (to.Some? ==> s.current <= to.value) && OnTrack(data, from, to, s)
    requires Fails(wire, portal(s.requests, s.current, to), e)
    requires FirstPart(Yields(wire, portal(s.requests, s.current, to)), Range(data, s.current, to))
    ensures FailedPart(wire, portal, data, from, to, Turn(wire, portal, to, s))
  {
    TurnFailsIff(wire, portal, to, s, e);
    FirstPartMore(s.blocks, Yields(wire, portal(s.requests, s.current, to)), Range(data, s.current, to));
  }

  lemma GoodTurn(data: seq<Block>, from: U64, to: Option<U64>, s: Stream, page: Outcome)
    requires AscendingNumbers(data) && s.status.Going? && OnTrack(data, from, to, s)
    requires ServedPage(Range(data, s.current, to), page)
    ensures OnTrack(data, from, to, AfterPage(to, s, page))
  {
    if page.blocks == [] {
      EmptyPage(data, from, to, s, page);
    } else {
      FullPage(data, from, to, s, page);
    }
  }

  lemma TurnOrFails(wire: Wire, portal: Portal, data: seq<Block>, from: U64, to: Option<U64>, s: Stream)
    requires AscendingNumbers(data) && ServesOrFails(wire, portal, data)
    requires s.status.Going? && OnTrack(data, from, to, s)
    ensures OnTrackOrFailed(wire, portal, data, from, to, Turn(wire, portal, to, s))
  {
    var response := portal(s.requests, s.current, to);
    assert PartServed(wire, Range(data, s.current, to), response);
    var page := Respond(wire, response);
    if Past(to, s.current) {
      RangeEmpty(data, s.current, to);
      assert s.blocks + [] == s.blocks;
    } else if page.error.Some? {
      FailingTurn(wire, portal, data, from, to, s, page.error.value);
    } else {
      GoodTurn(data, from, to, s, page);
    }
  }

  lemma TurnKeeps(wire: Wire, portal: Portal, data: seq<Block>, from: U64, to: Option<U64>, s: Stream)
    requires AscendingNumbers(data) && ServesOrFails(wire, portal, data)
    requires OnTrackOrFailed(wire, portal, data, from, to, s)
    ensures OnTrackOrFailed(wire, portal, data, from, to, Turn(wire, portal, to, s))
  {
    if s.status.Going? { TurnOrFails(wire, portal, data, from, to, s); }
  }

  ghost function OnTrackAt(
    wire: Wire, portal: Portal, data: seq<Block>, from: U64, to: Option<U64>): nat -> bool
  {
    (n: nat) => OnTrackOrFailed(wire, portal, data, from, to, Turns(wire, portal, from, to, n))
  }

  lemma NextOnTrack(wire: Wire, portal: Portal, data: seq<Block>, from: U64, to: Option<U64>, n: nat)
    requires AscendingNumbers(data) && ServesOrFails(wire, portal, data)
    requires OnTrackAt(wire, portal, data, from, to)(n)
    ensures OnTrackAt(wire, portal, data, from, to)(n + 1)
  {
    TurnKeeps(wire, portal, data, from, to, Turns(wire, portal, from, to, n));
  }

  /** Whatever fails and when: the stream has yielded a first part of the range, in order. */
  lemma PartOfRange(wire: Wire, portal: Portal, data: seq<Block>, from: U64, to: Option<U64>, turns: nat)
    requires AscendingNumbers(data) && ServesOrFails(wire, portal, data)
    ensures OnTrackOrFailed(wire, portal, data, from, to, Turns(wire, portal, from, to, turns))
  {
    var onTrack := OnTrackAt(wire, portal, data, from, to);
    forall n: nat | n < turns && onTrack(n) ensures onTrack(n + 1) { NextOnTrack(wire, portal, data, from, to, n); }
    Stepwise.Preserved(onTrack, turns);
    assert onTrack(turns);
  }
}
