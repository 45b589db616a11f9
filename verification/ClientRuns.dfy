/** When the native client's reads and calls fail, when they need the server at all, and a
    call that its cache gets wrong (crates/client). */
module ClientRuns {
  import opened Types
  import opened StateTables
  import opened Overlay
  import opened Lru
  import opened ClientCache
  import CodeCache
  import opened RemoteDbs
  import opened StateClients
  import opened Stepwise
  import Recorder

  // ---- a read fails exactly when a request of its own does ----

  /** The next step sends a request to the server. */
  predicate Requesting(l: Local) {
    l.FetchAccount? || l.FetchCode? || l.FetchSlot? || l.Prefetch?
  }

  lemma MoveFailsIff(t: Tables, c: Caches, l: Local, up: bool)
    ensures Move(t, c, l, up).1.Failed? <==> l.Failed? || (Requesting(l) && !up)
  {
  }

  /** Step `j` of the thread sends a request that does not get through. */
  ghost function FailsAt(t: Tables, c: Caches, l: Local, net: nat -> bool): nat -> bool {
    (j: nat) => Requesting(Steps(t, c, l, net, j).1) && !net(j)
  }

  lemma FailsAtIs(t: Tables, c: Caches, l: Local, net: nat -> bool, j: nat, l': Local)
    requires l' == Steps(t, c, l, net, j).1
    ensures FailsAt(t, c, l, net)(j) <==> Requesting(l') && !net(j)
  {
  }

  ghost function FailedAt(t: Tables, c: Caches, l: Local, net: nat -> bool): nat -> bool {
    (k: nat) => Steps(t, c, l, net, k).1.Failed?
  }

  lemma FailedAtIs(t: Tables, c: Caches, l: Local, net: nat -> bool, j: nat, l': Local)
    requires l' == Steps(t, c, l, net, j).1
    ensures FailedAt(t, c, l, net)(j) <==> l'.Failed?
  {
  }

  lemma NextFails(t: Tables, c: Caches, l: Local, net: nat -> bool, n: nat)
    ensures FailedAt(t, c, l, net)(n + 1) <==> FailedAt(t, c, l, net)(n) || FailsAt(t, c, l, net)(n)
  {
    var (c', l') := Steps(t, c, l, net, n);
    NextStep(t, c, l, net, n, c', l');
    FailsAtIs(t, c, l, net, n, l');
    FailedAtIs(t, c, l, net, n, l');
    FailedAtIs(t, c, l, net, n + 1, Move(t, c', l', net(n)).1);
    MoveFailsIff(t, c', l', net(n));
  }

  lemma StepsFailIff(t: Tables, c: Caches, l: Local, net: nat -> bool, n: nat)
    requires !l.Failed?
    ensures FailedAt(t, c, l, net)(n) <==> Before(FailsAt(t, c, l, net), n)
  {
    var failed, fails := FailedAt(t, c, l, net), FailsAt(t, c, l, net);
    FailedAtIs(t, c, l, net, 0, l);
    forall k: nat | k < n ensures failed(k + 1) <==> failed(k) || fails(k) { NextFails(t, c, l, net, k); }
    SetsIn(failed, fails, n);
  }

  /** Otherwise it returns an answer to its request. */
  lemma ReadFailsIff(t: Tables, c: Caches, r: Request, net: nat -> bool)
    ensures var l := Steps(t, c, StartOf(r), net, OPERATION).1;
      if Before(FailsAt(t, c, StartOf(r), net), OPERATION) then l == Failed
      else l.Returned? && l.request == r
  {
    StepsFailIff(t, c, StartOf(r), net, OPERATION);
    FailedAtIs(t, c, StartOf(r), net, OPERATION, Steps(t, c, StartOf(r), net, OPERATION).1);
    ReadEnds(t, c, r, net);
  }

  /** A run all of whose requests get through comes to an end. */
  lemma {:induction false} RunGetsThrough(
    t: Tables, c: Caches, net: (nat, nat) -> bool, evm: Evm, answers: seq<Answer>)
    requires |answers| <= evm.limit && forall i, j :: net(i, j)
    ensures RunThrough(t, c, net, evm, answers).1.Some?
    decreases evm.limit - |answers|
  {
    if |answers| < evm.limit && evm.next(answers).Ask? {
      var r := evm.next(answers).request;
      ReadFailsIff(t, c, r, NetOf(net, |answers|));
      var (c', l) := Steps(t, c, StartOf(r), NetOf(net, |answers|), OPERATION);
      assert l.Returned?;
      RunGetsThrough(t, c', net, evm, answers + [l.answer]);
    }
  }

  /** An account read asks for code only if the account is a contract whose code is not
      cached: otherwise the account's own request is enough. */
  lemma OneRequestEnough(t: Tables, c: Caches, a: Address, net: nat -> bool)
    requires a in t.accounts ==> !Contract(t.accounts[a]) || t.accounts[a].codeHash in c.code.entries
    requires net(1)
    ensures Steps(t, c, ReadAccount(a), net, OPERATION).1.Returned?
  {
    var l := ReadAccount(a);
    var (c1, l1) := Move(t, c, l, net(0));
    NextStep(t, c, l, net, 0, c, l);
    if l1.Returned? {
      RestStays(t, c, l, net, 1, OPERATION);
    } else {
      var (c2, l2) := Move(t, c1, l1, net(1));
      NextStep(t, c, l, net, 1, c1, l1);
      var (c3, l3) := Move(t, c2, l2, net(2));
      NextStep(t, c, l, net, 2, c2, l2);
      if l3.Returned? {
        RestStays(t, c, l, net, 3, OPERATION);
      } else {
        NextStep(t, c, l, net, 3, c3, l3);
        RestStays(t, c, l, net, 4, OPERATION);
      }
    }
  }

  // ---- what is cached is not asked for again ----

  predicate Held(c: Caches, r: Request) {
    match r
    case AskAccount(a) => a in c.accounts.entries
    case AskSlot(a, s) => (a, s) in c.storage.entries
    case AskCode(h) => h in c.code.entries
  }

  function HeldAnswer(c: Caches, r: Request): Answer
    requires Held(c, r)
  {
    match r
    case AskAccount(a) => AccountAnswer(c.accounts.entries[a])
    case AskSlot(a, s) => SlotAnswer(c.storage.entries[(a, s)])
    case AskCode(h) => CodeAnswer(c.code.entries[h])
  }

  predicate ValidCaches(c: Caches) {
    c.accounts.Valid() && c.storage.Valid() && c.code.Valid()
  }

  predicate SameEntries(c: Caches, c': Caches) {
    && c'.accounts.entries == c.accounts.entries && c'.storage.entries == c.storage.entries
    && c'.code.entries == c.code.entries
  }

  /** A read that returns leaves what it read in the cache; a code read only looks. */
  lemma MoveCaches(t: Tables, c: Caches, l: Local, up: bool)
    requires ValidCaches(c) && (l.Returned? && !l.request.AskCode? ==> Held(c, l.request))
    ensures var (c', l') := Move(t, c, l, up);
      ValidCaches(c') && (l'.Returned? && !l'.request.AskCode? ==> Held(c', l'.request))
  {
    match l
    case ReadAccount(a) => GetValid(c.accounts, a);
    case ReadSlot(a, s) => GetValid(c.storage, (a, s));
    case ReadCode(h) => GetValid(c.code, h);
    case PutCode(_, info, code) => PutValid(c.code, info.codeHash, code);
    case PutAccount(a, account) => PutValid(c.accounts, a, account);
    case PutSlot(a, s, word) => PutValid(c.storage, (a, s), word);
    case Pour(slice) => PourValid(c, slice);
    case _ =>
  }

  lemma PourValid(c: Caches, slice: Slice)
    requires ValidCaches(c)
    ensures ValidCaches(PourInto(c, slice))
  {
    PutAllValid(c.accounts, slice.accounts);
    PutAllValid(c.storage, slice.storage);
    PutAllValid(c.code, slice.code);
  }

  lemma {:induction false} ReadCaches(t: Tables, c: Caches, r: Request, net: nat -> bool, n: nat)
    requires ValidCaches(c)
    ensures var (c', l) := Steps(t, c, StartOf(r), net, n);
      ValidCaches(c') && (l.Returned? && !l.request.AskCode? ==> Held(c', l.request))
  {
    if n > 0 {
      ReadCaches(t, c, r, net, n - 1);
      MoveCaches(t, Steps(t, c, StartOf(r), net, n - 1).0, Steps(t, c, StartOf(r), net, n - 1).1, net(n - 1));
    }
  }

  lemma OneStep(t: Tables, c: Caches, r: Request, net: nat -> bool)
    requires ValidCaches(c) && (Held(c, r) || r.AskCode?)
    ensures var (c', l) := Move(t, c, StartOf(r), net(0));
      && ValidCaches(c') && SameEntries(c, c')
      && l == Returned(r, if Held(c, r) then HeldAnswer(c, r) else CodeAnswer([]))
  {
    match r
    case AskAccount(a) => GetValid(c.accounts, a);
    case AskSlot(a, s) => GetValid(c.storage, (a, s));
    case AskCode(h) => GetValid(c.code, h);
  }

  /** A cached read is answered from the cache, whatever the network does; so is every code
      read, with no code on a miss. */
  lemma HeldRead(t: Tables, c: Caches, r: Request, net: nat -> bool)
    requires ValidCaches(c) && (Held(c, r) || r.AskCode?)
    ensures var (c', l) := Steps(t, c, StartOf(r), net, OPERATION);
      && ValidCaches(c') && SameEntries(c, c')
      && l == Returned(r, if Held(c, r) then HeldAnswer(c, r) else CodeAnswer([]))
  {
    OneStep(t, c, r, net);
    var (c', l) := Move(t, c, StartOf(r), net(0));
    NextStep(t, c, StartOf(r), net, 0, c, StartOf(r));
    RestStays(t, c, StartOf(r), net, 1, OPERATION);
  }

  /** Exactly these reads go on without the server. */
  lemma OfflineReadIff(t: Tables, c: Caches, r: Request)
    requires ValidCaches(c)
    ensures Steps(t, c, StartOf(r), _ => false, OPERATION).1.Returned? <==> Held(c, r) || r.AskCode?
  {
    var net: nat -> bool := _ => false;
    if Held(c, r) || r.AskCode? {
      HeldRead(t, c, r, net);
    } else {
      var (c', l) := Move(t, c, StartOf(r), net(0));
      NextStep(t, c, StartOf(r), net, 0, c, StartOf(r));
      FailsAtIs(t, c, StartOf(r), net, 1, l);
      StepsFailIff(t, c, StartOf(r), net, OPERATION);
    }
  }

  /** The same read a second time makes no request. */
  lemma ReadTwice(t: Tables, c: Caches, r: Request, net: nat -> bool, net': nat -> bool)
    requires ValidCaches(c) && !r.AskCode? && Steps(t, c, StartOf(r), net, OPERATION).1.Returned?
    ensures Steps(t, Steps(t, c, StartOf(r), net, OPERATION).0, StartOf(r), net', OPERATION).1.Returned?
  {
    ReadEnds(t, c, r, net);
    ReadCaches(t, c, r, net, OPERATION);
    HeldRead(t, Steps(t, c, StartOf(r), net, OPERATION).0, r, net');
  }

  // ---- no further requests ----

  lemma HeldTrue(t: Tables, c: Caches, r: Request)
    requires TrueCaches(t, c) && Held(c, r)
    ensures HeldAnswer(c, r) == PlainAnswer(t, r)
  {
    match r
    case AskAccount(a) => assert AccountTruth(t)(a, c.accounts.entries[a]);
    case AskSlot(a, s) => assert SlotTruth(t)((a, s), c.storage.entries[(a, s)]);
    case AskCode(h) => assert CodeTruth(t)(h, c.code.entries[h]);
  }

  /** Each read of the server's run is held by the caches, or is of code that the server
      has none of. */
  ghost predicate HeldRun(t: Tables, c: Caches, evm: Evm, answers: seq<Answer>)
    requires |answers| <= evm.limit
    decreases evm.limit - |answers|
  {
    |answers| == evm.limit ||
    match evm.next(answers)
    case Halt(_) => true
    case Ask(r) =>
      && (Held(c, r) || (r.AskCode? && CodeByHashRef(t, r.hash) == []))
      && HeldRun(t, c, evm, answers + [PlainAnswer(t, r)])
  }

  lemma {:induction false} HeldRunStays(t: Tables, c: Caches, c': Caches, evm: Evm, answers: seq<Answer>)
    requires |answers| <= evm.limit && HeldRun(t, c, evm, answers) && SameEntries(c, c')
    ensures HeldRun(t, c', evm, answers)
    decreases evm.limit - |answers|
  {
    if |answers| < evm.limit && evm.next(answers).Ask? {
      HeldRunStays(t, c, c', evm, answers + [PlainAnswer(t, evm.next(answers).request)]);
    }
  }

  lemma TrueStays(t: Tables, c: Caches, c': Caches)
    requires TrueCaches(t, c) && ValidCaches(c') && SameEntries(c, c')
    ensures TrueCaches(t, c')
  {
  }

  /** Such a run needs no request: it comes to the server's outcome even if none gets
      through. */
  lemma {:induction false} HeldRunSuffices(
    t: Tables, c: Caches, net: (nat, nat) -> bool, evm: Evm, answers: seq<Answer>)
    requires |answers| <= evm.limit && TrueCaches(t, c) && HeldRun(t, c, evm, answers)
    ensures RunThrough(t, c, net, evm, answers).1 == Some(RunPlain(t, evm, answers))
    decreases evm.limit - |answers|
  {
    if |answers| < evm.limit && evm.next(answers).Ask? {
      var r := evm.next(answers).request;
      HeldRead(t, c, r, NetOf(net, |answers|));
      if Held(c, r) { HeldTrue(t, c, r); }
      var (c', l) := Steps(t, c, StartOf(r), NetOf(net, |answers|), OPERATION);
      TrueStays(t, c, c');
      HeldRunStays(t, c, c', evm, answers + [PlainAnswer(t, r)]);
      HeldRunSuffices(t, c', net, evm, answers + [l.answer]);
    }
  }

  /** The cache has room for everything in `xs` beside what it holds. */
  predicate Room<K(==), V>(c: LruCache<K, V>, xs: seq<(K, V)>) {
    |c.entries.Keys + set i | 0 <= i < |xs| :: xs[i].0| <= c.capacity
  }

  predicate Fits(c: Caches, slice: Slice) {
    Room(c.accounts, slice.accounts) && Room(c.storage, slice.storage) && Room(c.code, slice.code)
  }

  /** The slice answers the request. */
  ghost predicate Sent(slice: Slice, r: Request) {
    match r
    case AskAccount(a) => exists i :: 0 <= i < |slice.accounts| && slice.accounts[i].0 == a
    case AskSlot(a, s) => exists i :: 0 <= i < |slice.storage| && slice.storage[i].0 == (a, s)
    case AskCode(h) => exists i :: 0 <= i < |slice.code| && slice.code[i].0 == h
  }

  lemma PutAllHeld<K, V>(c: LruCache<K, V>, xs: seq<(K, V)>)
    requires c.Valid() && Room(c, xs)
    ensures c.entries.Keys <= PutAll(c, xs).entries.Keys
    ensures forall i :: 0 <= i < |xs| ==> xs[i].0 in PutAll(c, xs).entries
  {
    PutAllWithin(c, xs, c.entries.Keys + set i | 0 <= i < |xs| :: xs[i].0);
  }

  /** A prefetch with room for the slice leaves all of it in the caches, and all that was
      there. */
  lemma PouredHeld(c: Caches, slice: Slice, r: Request)
    requires ValidCaches(c) && Fits(c, slice) && (Held(c, r) || Sent(slice, r))
    ensures Held(PourInto(c, slice), r)
  {
    PutAllHeld(c.accounts, slice.accounts);
    PutAllHeld(c.storage, slice.storage);
    PutAllHeld(c.code, slice.code);
  }

  /** Each read of the server's run is in the slice or was cached before, or is of code that
      the server has none of. */
  ghost predicate SentRun(t: Tables, c: Caches, slice: Slice, evm: Evm, answers: seq<Answer>)
    requires |answers| <= evm.limit
    decreases evm.limit - |answers|
  {
    |answers| == evm.limit ||
    match evm.next(answers)
    case Halt(_) => true
    case Ask(r) =>
      && (Held(c, r) || Sent(slice, r) || (r.AskCode? && CodeByHashRef(t, r.hash) == []))
      && SentRun(t, c, slice, evm, answers + [PlainAnswer(t, r)])
  }

  lemma {:induction false} SentRunHeld(t: Tables, c: Caches, slice: Slice, evm: Evm, answers: seq<Answer>)
    requires ValidCaches(c) && Fits(c, slice) && |answers| <= evm.limit && SentRun(t, c, slice, evm, answers)
    ensures HeldRun(t, PourInto(c, slice), evm, answers)
    decreases evm.limit - |answers|
  {
    if |answers| < evm.limit && evm.next(answers).Ask? {
      var r := evm.next(answers).request;
      if Held(c, r) || Sent(slice, r) { PouredHeld(c, slice, r); }
      SentRunHeld(t, c, slice, evm, answers + [PlainAnswer(t, r)]);
    }
  }

  /** The promise of a prefetch: a call that reads only what was sent or cached before, over
      caches with room for it, comes to the server's outcome with no further request. */
  lemma NoFurtherRequests(t: Tables, c: Caches, slice: Slice, net: (nat, nat) -> bool, evm: Evm)
    requires TrueCaches(t, c) && TrueSlice(t, slice) && Fits(c, slice) && SentRun(t, c, slice, evm, [])
    ensures RunThrough(t, PourInto(c, slice), net, evm, []).1 == Some(RunPlain(t, evm, []))
  {
    PourTrue(t, c, slice);
    SentRunHeld(t, c, slice, evm, []);
    HeldRunSuffices(t, PourInto(c, slice), net, evm, []);
  }

  // ---- a call that the caches get wrong ----

  function LastCode(answers: seq<Answer>): Bytes {
    if answers != [] && answers[|answers| - 1].CodeAnswer? then answers[|answers| - 1].code else []
  }

  /** Reads the accounts of two contracts and then the code of the first, and returns it. */
  const READ_BACK := Evm(
    3,
    (answers: seq<Answer>) =>
      Ask(if |answers| == 0 then AskAccount(1) else if |answers| == 1 then AskAccount(2) else AskCode(11)),
    (answers: seq<Answer>) => Executed(0, true, LastCode(answers), map[]))

  const CONNECTED: (nat, nat) -> bool := (i, j) => true
  const NO_SLICE := Slice([], [], [])

  lemma StepsAreMoved(c: Caches, l: Local, n: nat)
    ensures Steps(CodeCache.TWO_CONTRACTS, c, l, _ => true, n) == CodeCache.Moved(c, l, n)
  {
    if n > 0 { StepsAreMoved(c, l, n - 1); }
  }

  lemma SameNet(t: Tables, c: Caches, l: Local, net: nat -> bool, net': nat -> bool, n: nat)
    requires forall j :: net(j) == net'(j)
    ensures Steps(t, c, l, net, n) == Steps(t, c, l, net', n)
  {
    if n > 0 { SameNet(t, c, l, net, net', n - 1); }
  }

  /** One contract read that the caches miss, with the network up. */
  lemma ContractRead(c: Caches, a: Address, info: AccountInfo, code: Bytes, i: nat)
    requires a in CodeCache.TWO_CONTRACTS.accounts && info == CodeCache.TWO_CONTRACTS.accounts[a]
    requires a !in c.accounts.entries && info.codeHash !in c.code.entries
    requires CodeCache.TWO_CONTRACTS.code[info.codeHash] == code
    ensures Steps(CodeCache.TWO_CONTRACTS, c, ReadAccount(a), NetOf(CONNECTED, i), OPERATION) ==
      (c.(code := c.code.Put(info.codeHash, code), accounts := c.accounts.Put(a, Some(info))),
       Returned(AskAccount(a), AccountAnswer(Some(info))))
  {
    CodeCache.SixMoves(c, a, info, code);
    StepsAreMoved(c, ReadAccount(a), OPERATION);
    SameNet(CodeCache.TWO_CONTRACTS, c, ReadAccount(a), NetOf(CONNECTED, i), _ => true, OPERATION);
  }

  const FIRST_ANSWERS: seq<Answer> := [AccountAnswer(Some(CodeCache.FIRST_INFO))]
  const BOTH_ANSWERS: seq<Answer> := FIRST_ANSWERS + [AccountAnswer(Some(CodeCache.SECOND_INFO))]
  const SECOND_CACHES := CodeCache.FIRST_CACHES.(
    code := CodeCache.FIRST_CACHES.code.Put(22, [0xbb]),
    accounts := CodeCache.FIRST_CACHES.accounts.Put(2, Some(CodeCache.SECOND_INFO)))

  lemma ServerReadsBack()
    ensures RunPlain(CodeCache.TWO_CONTRACTS, READ_BACK, []) == Executed(0, true, [0xaa], map[])
  {
    var t, answers := CodeCache.TWO_CONTRACTS, BOTH_ANSWERS;
    assert PlainAnswer(t, AskAccount(1)) == FIRST_ANSWERS[0] && PlainAnswer(t, AskAccount(2)) == answers[1];
    assert RunPlain(t, READ_BACK, answers + [CodeAnswer([0xaa])]) == Executed(0, true, [0xaa], map[]);
    assert RunPlain(t, READ_BACK, answers) == RunPlain(t, READ_BACK, answers + [CodeAnswer([0xaa])]);
    assert RunPlain(t, READ_BACK, FIRST_ANSWERS) == RunPlain(t, READ_BACK, answers);
    assert [] + [PlainAnswer(t, AskAccount(1))] == FIRST_ANSWERS;
  }

  lemma LastRead(c: Caches)
    requires ValidCaches(c) && 11 !in c.code.entries
    ensures RunThrough(CodeCache.TWO_CONTRACTS, c, CONNECTED, READ_BACK, BOTH_ANSWERS).1 ==
      Some(Executed(0, true, [], map[]))
  {
    HeldRead(CodeCache.TWO_CONTRACTS, c, AskCode(11), NetOf(CONNECTED, 2));
    var answers := BOTH_ANSWERS + [CodeAnswer([])];
    assert answers[2] == CodeAnswer([]) && |answers| == 3;
  }

  lemma SecondRead()
    ensures RunThrough(CodeCache.TWO_CONTRACTS, CodeCache.FIRST_CACHES, CONNECTED, READ_BACK, FIRST_ANSWERS).1 ==
      Some(Executed(0, true, [], map[]))
  {
    var c := CodeCache.FIRST_CACHES;
    ContractRead(c, 2, CodeCache.SECOND_INFO, [0xbb], 1);
    CodeCache.OnlyTheLast<Word, Bytes>(11, [0xaa], 22, [0xbb]);
    PutValid(c.code, 22, [0xbb]);
    PutValid(c.accounts, 2, Some(CodeCache.SECOND_INFO));
    LastRead(SECOND_CACHES);
  }

  /** With room for one bytecode the second contract's pushes out the first's, and the local
      run returns nothing. */
  lemma ClientReadsBack()
    ensures RunThrough(CodeCache.TWO_CONTRACTS, CodeCache.EMPTY_CACHES, CONNECTED, READ_BACK, []).1 ==
      Some(Executed(0, true, [], map[]))
  {
    var c := CodeCache.EMPTY_CACHES;
    ContractRead(c, 1, CodeCache.FIRST_INFO, [0xaa], 0);
    assert c.code.Put(11, [0xaa]) == CodeCache.FIRST_CACHES.code;
    assert c.accounts.Put(1, Some(CodeCache.FIRST_INFO)) == CodeCache.FIRST_CACHES.accounts;
    assert [] + FIRST_ANSWERS == FIRST_ANSWERS;
    SecondRead();
  }

  /** The call itself: the client notices, and says so. */
  method ReadBackCall() returns (r: Option<CallResult>)
    ensures r == Some(CallResult([], true, Some(false)))
  {
    ServerReadsBack();
    ClientReadsBack();
    var db := new RemoteDB(1);
    var client := new StateClient(db, true);
    ghost var sent := Recorder.StateSlice(map[], map[], map[]);
    r := client.Call(
      CodeCache.TWO_CONTRACTS, CONNECTED, READ_BACK, NO_SLICE, Executed(0, true, [0xaa], map[]), map[], sent, {});
  }
}
