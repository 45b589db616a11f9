/** Calls through the native client: prefetch, and re-execution over the caching
    remote database (`StateClient::call`, crates/client). */
module StateClients {
  import opened Types
  import opened StateTables
  import opened Overlay
  import opened Lru
  import opened ClientCache
  import opened CodeCache
  import opened RemoteDbs
  import Recorder
  import WasmClient

  function StartOf(r: Request): Local {
    match r
    case AskAccount(a) => ReadAccount(a)
    case AskSlot(a, s) => ReadSlot(a, s)
    case AskCode(h) => ReadCode(h)
  }

  /** Which of the requests of read `i` get through. */
  function NetOf(net: (nat, nat) -> bool, i: nat): nat -> bool {
    (j: nat) => net(i, j)
  }

  /** Execution that reads through the caches; `None` when a request does not get
      through. `net(i, j)` says whether step `j` of read `i` does. */
  function RunThrough(
    t: Tables, c: Caches, net: (nat, nat) -> bool, evm: Evm, answers: seq<Answer>): (Caches, Option<Finish>)
    requires |answers| <= evm.limit
    decreases evm.limit - |answers|
  {
    if |answers| == evm.limit then (c, Some(evm.outOfGas(answers)))
    else
      match evm.next(answers)
      case Halt(f) => (c, Some(f))
      case Ask(r) =>
        var (c', l) := Steps(t, c, StartOf(r), NetOf(net, |answers|), OPERATION);
        if l.Returned? then RunThrough(t, c', net, evm, answers + [l.answer]) else (c', None)
  }

  // ---- one read, taken to its end ----

  /** How many steps an operation still takes at most. */
  function Rank(l: Local): nat {
    match l
    case ReadAccount(_) => 6
    case FetchAccount(_) => 5
    case CheckCode(_, _) => 4
    case FetchCode(_, _) => 3
    case PutCode(_, _, _) => 2
    case PutAccount(_, _) => 1
    case ReadSlot(_, _) => 3
    case FetchSlot(_, _) => 2
    case PutSlot(_, _, _) => 1
    case ReadCode(_) => 1
    case Prefetch(_) => 2
    case Pour(_) => 1
    case _ => 0
  }

  function Serving(l: Local): Option<Request> {
    match l
    case ReadAccount(a) => Some(AskAccount(a))
    case FetchAccount(a) => Some(AskAccount(a))
    case CheckCode(a, _) => Some(AskAccount(a))
    case FetchCode(a, _) => Some(AskAccount(a))
    case PutCode(a, _, _) => Some(AskAccount(a))
    case PutAccount(a, _) => Some(AskAccount(a))
    case ReadSlot(a, s) => Some(AskSlot(a, s))
    case FetchSlot(a, s) => Some(AskSlot(a, s))
    case PutSlot(a, s, _) => Some(AskSlot(a, s))
    case ReadCode(h) => Some(AskCode(h))
    case Returned(request, _) => Some(request)
    case _ => None
  }

  /** Every step brings an operation closer to its end, and it stays about the same
      request unless it fails. */
  lemma MoveProgress(t: Tables, c: Caches, l: Local, up: bool)
    ensures Rank(Move(t, c, l, up).1) < Rank(l) || Rank(l) == 0 == Rank(Move(t, c, l, up).1)
    ensures Serving(l).Some? ==> Serving(Move(t, c, l, up).1) == Serving(l) || Move(t, c, l, up).1.Failed?
  {
  }

  lemma {:induction false} StepsProgress(t: Tables, c: Caches, l: Local, net: nat -> bool, n: nat)
    requires Serving(l).Some?
    ensures var l' := Steps(t, c, l, net, n).1;
      && (Rank(l') + n <= Rank(l) || Rank(l') == 0)
      && (Serving(l') == Serving(l) || l'.Failed?)
  {
    if n > 0 {
      StepsProgress(t, c, l, net, n - 1);
      MoveProgress(t, Steps(t, c, l, net, n - 1).0, Steps(t, c, l, net, n - 1).1, net(n - 1));
    }
  }

  lemma {:induction false} StepsKeep(t: Tables, keys: set<Word>, c: Caches, l: Local, net: nat -> bool, n: nat)
    requires CachesCovered(t, keys, c) && ThreadCovered(t, keys, c.code, l)
    ensures var (c', l') := Steps(t, c, l, net, n);
      CachesCovered(t, keys, c') && CodeGrows(c, c') && ThreadCovered(t, keys, c'.code, l')
  {
    if n > 0 {
      StepsKeep(t, keys, c, l, net, n - 1);
      var (c', l') := Steps(t, c, l, net, n - 1);
      MoveKeeps(t, keys, c', l', net(n - 1));
      MoveTrue(t, c', l', net(n - 1));
    }
  }

  /** An operation ends with the answer to its request, or fails. */
  lemma ReadEnds(t: Tables, c: Caches, r: Request, net: nat -> bool)
    ensures var l := Steps(t, c, StartOf(r), net, OPERATION).1;
      l.Failed? || (l.Returned? && l.request == r)
  {
    StepsProgress(t, c, StartOf(r), net, OPERATION);
  }

  /** A read that touches only code hashes in `keys`. */
  predicate RequestWithin(t: Tables, keys: set<Word>, r: Request) {
    r.AskAccount? ==> HashAt(t, r.address) <= keys
  }

  /** A code read can only be for the hash of an account read before, and the two
      hashes that mean no code have none. */
  ghost predicate Known(t: Tables, answers: seq<Answer>, r: Request) {
    r.AskCode? ==>
      if NoCodeHash(r.hash) then CodeByHashRef(t, r.hash) == []
      else Told(answers, r.hash)
  }

  ghost predicate Told(answers: seq<Answer>, h: Word) {
    exists i :: 0 <= i < |answers| && Tells(answers[i], h)
  }

  predicate Tells(answer: Answer, h: Word) {
    answer.AccountAnswer? && answer.info.Some? && answer.info.value.codeHash == h
  }

  /** The caches hold the code of every account read so far. */
  ghost predicate Ready(t: Tables, keys: set<Word>, c: Caches, answers: seq<Answer>) {
    CachesCovered(t, keys, c) && forall h :: Told(answers, h) ==> Available(t, c.code, h)
  }

  lemma CodeReadExact(t: Tables, keys: set<Word>, c: Caches, h: Word, net: nat -> bool)
    requires CachesCovered(t, keys, c)
    requires if NoCodeHash(h) then CodeByHashRef(t, h) == [] else Available(t, c.code, h)
    ensures Steps(t, c, ReadCode(h), net, OPERATION).1 == Returned(AskCode(h), CodeAnswer(CodeByHashRef(t, h)))
  {
    GetValid(c.code, h);
    NextStep(t, c, ReadCode(h), net, 0, c, ReadCode(h));
    RestStays(t, c, ReadCode(h), net, 1, OPERATION);
  }

  lemma ToldNext(answers: seq<Answer>, answer: Answer, h: Word)
    requires Told(answers + [answer], h)
    ensures Told(answers, h) || Tells(answer, h)
  {
    var i :| 0 <= i < |answers + [answer]| && Tells((answers + [answer])[i], h);
    if i < |answers| { assert Tells(answers[i], h); }
  }

  /** What one more answer tells of is there if it was before, or with this answer. */
  lemma ReadyNext(t: Tables, keys: set<Word>, c: Caches, c': Caches, answers: seq<Answer>, answer: Answer)
    requires Ready(t, keys, c, answers) && CachesCovered(t, keys, c') && CodeGrows(c, c')
    requires forall h :: Tells(answer, h) ==> Available(t, c'.code, h)
    ensures Ready(t, keys, c', answers + [answer])
  {
    forall h | Told(answers + [answer], h) ensures Available(t, c'.code, h) {
      ToldNext(answers, answer, h);
      if Told(answers, h) { assert Available(t, c.code, h); }
    }
  }

  /** What an operation came to is the server's answer; and the answer's code is there. */
  lemma ReturnedTrue(t: Tables, keys: set<Word>, c: Caches, l: Local, r: Request)
    requires ThreadCovered(t, keys, c.code, l) && l.Returned? && l.request == r
    ensures !r.AskCode? ==> l.answer == PlainAnswer(t, r)
    ensures r.AskAccount? ==> forall h :: Tells(l.answer, h) ==> Available(t, c.code, h)
  {
  }

  /** One more read: the server's answer, or a failure; and the caches stay ready. */
  lemma ReadKeepsReady(t: Tables, keys: set<Word>, c: Caches, answers: seq<Answer>, r: Request, net: nat -> bool)
    requires Ready(t, keys, c, answers) && RequestWithin(t, keys, r) && Known(t, answers, r)
    ensures var (c', l) := Steps(t, c, StartOf(r), net, OPERATION);
      && CachesCovered(t, keys, c')
      && (l.Failed? || (l == Returned(r, PlainAnswer(t, r)) && Ready(t, keys, c', answers + [l.answer])))
  {
    StepsKeep(t, keys, c, StartOf(r), net, OPERATION);
    ReadEnds(t, c, r, net);
    if r.AskCode? { CodeReadExact(t, keys, c, r.hash, net); }
    var (c', l) := Steps(t, c, StartOf(r), net, OPERATION);
    if l.Returned? {
      ReturnedTrue(t, keys, c', l, r);
      ReadyNext(t, keys, c, c', answers, l.answer);
    }
  }

  /** Along the server's own run, every read is within `keys`, and every code read is
      for an account read before. */
  ghost predicate WellAsked(t: Tables, keys: set<Word>, evm: Evm, answers: seq<Answer>)
    requires |answers| <= evm.limit
    decreases evm.limit - |answers|
  {
    |answers| == evm.limit ||
    match evm.next(answers)
    case Halt(_) => true
    case Ask(r) =>
      RequestWithin(t, keys, r) && Known(t, answers, r) && WellAsked(t, keys, evm, answers + [PlainAnswer(t, r)])
  }

  /** Re-execution over the client's caches comes to what the server's did, whichever
      of its reads the caches already held, unless a request fails. */
  lemma {:induction false} RunsAlike(
    t: Tables, keys: set<Word>, c: Caches, net: (nat, nat) -> bool, evm: Evm, answers: seq<Answer>)
    requires |answers| <= evm.limit && Ready(t, keys, c, answers) && WellAsked(t, keys, evm, answers)
    ensures var (c', finish) := RunThrough(t, c, net, evm, answers);
      CachesCovered(t, keys, c') && (finish == None || finish == Some(RunPlain(t, evm, answers)))
    decreases evm.limit - |answers|
  {
    if |answers| < evm.limit && evm.next(answers).Ask? {
      var r := evm.next(answers).request;
      ReadKeepsReady(t, keys, c, answers, r, NetOf(net, |answers|));
      var (c', l) := Steps(t, c, StartOf(r), NetOf(net, |answers|), OPERATION);
      if l.Returned? { RunsAlike(t, keys, c', net, evm, answers + [l.answer]); }
    }
  }

  // ---- the prefetch ----

  /** Prefetching a true and complete slice into true caches leaves them ready. */
  lemma PrefetchReady(t: Tables, keys: set<Word>, c: Caches, slice: Slice)
    requires CachesCovered(t, keys, c) && WithinOp(t, keys, Prefetch(slice))
    ensures Ready(t, keys, PourInto(c, slice), [])
  {
    PourCovered(t, keys, c, slice);
  }

  /** `slice` is the server's slice, written out in some order. */
  ghost predicate WritesOut(slice: Slice, served: Recorder.StateSlice) {
    && (forall i :: 0 <= i < |slice.accounts| ==> slice.accounts[i].1.Some?)
    && (forall i :: 0 <= i < |slice.accounts| ==> Lookup(served.accounts, slice.accounts[i].0) == slice.accounts[i].1)
    && (forall i :: 0 <= i < |slice.storage| ==> Lookup(served.storage, slice.storage[i].0) == Some(slice.storage[i].1))
    && (forall i :: 0 <= i < |slice.code| ==> Lookup(served.code, slice.code[i].0) == Some(slice.code[i].1))
    && (forall h :: h in served.code ==> HasCodeFor(slice, h))
  }

  lemma ServedCode(t: Tables, acc: Recorder.Accesses, served: Recorder.StateSlice, slice: Slice, i: nat)
    requires Recorder.SliceOf(t, acc, acc.Keys, served) && WritesOut(slice, served)
    requires i < |slice.accounts| && slice.accounts[i].0 in t.accounts
    ensures var info := t.accounts[slice.accounts[i].0];
      Contract(info) && info.codeHash in t.code ==> HasCodeFor(slice, info.codeHash)
  {
    var a := slice.accounts[i].0;
    var h := t.accounts[a].codeHash;
    WasmClient.SliceAt(t, acc, served, a, 0, h);
    assert a in acc.Keys;
    if Contract(t.accounts[a]) && h in t.code { assert Recorder.CodeIncluded(t, acc.Keys, h); }
  }

  /** What the prefetch endpoint sends is true and complete, whatever was accessed. */
  lemma ServedSlices(t: Tables, acc: Recorder.Accesses, served: Recorder.StateSlice, slice: Slice)
    requires Recorder.SliceOf(t, acc, acc.Keys, served) && WritesOut(slice, served)
    ensures TrueSlice(t, slice) && CodeComplete(t, slice)
  {
    forall i | 0 <= i < |slice.accounts| ensures slice.accounts[i].1 == BasicRef(t, slice.accounts[i].0) {
      WasmClient.SliceAt(t, acc, served, slice.accounts[i].0, 0, 0);
    }
    forall i | 0 <= i < |slice.storage|
      ensures slice.storage[i].1 == StorageRef(t, slice.storage[i].0.0, slice.storage[i].0.1)
    {
      WasmClient.SliceAt(t, acc, served, slice.storage[i].0.0, slice.storage[i].0.1, 0);
    }
    forall i | 0 <= i < |slice.code| ensures Lookup(t.code, slice.code[i].0) == Some(slice.code[i].1) {
      IncludedStored(t, acc, served, slice.code[i].0);
    }
    forall i | 0 <= i < |slice.accounts| && slice.accounts[i].0 in t.accounts
      ensures var info := t.accounts[slice.accounts[i].0];
        Contract(info) && info.codeHash in t.code ==> HasCodeFor(slice, info.codeHash)
    {
      ServedCode(t, acc, served, slice, i);
    }
  }

  lemma IncludedStored(t: Tables, acc: Recorder.Accesses, served: Recorder.StateSlice, h: Word)
    requires Recorder.SliceOf(t, acc, acc.Keys, served) && h in served.code
    ensures Lookup(t.code, h) == Some(served.code[h])
  {
  }

  /** Pouring what the endpoint sent leaves the caches ready for the call. */
  lemma ServedReady(
    t: Tables, keys: set<Word>, c: Caches, acc: Recorder.Accesses, served: Recorder.StateSlice, slice: Slice)
    requires CachesCovered(t, keys, c) && served.code.Keys <= keys
    requires Recorder.SliceOf(t, acc, acc.Keys, served) && WritesOut(slice, served)
    ensures Ready(t, keys, PourInto(c, slice), [])
  {
    ServedSlices(t, acc, served, slice);
    forall h | h in Hashes(t, Prefetch(slice)) ensures h in keys {
      var i :| 0 <= i < |slice.code| && slice.code[i].0 == h;
    }
    PrefetchReady(t, keys, c, slice);
  }

  // ---- the call interface ----

  /** The caches are covered, and slice and run touch only code hashes in `keys`. */
  ghost predicate CallWithin(t: Tables, keys: set<Word>, c: Caches, evm: Evm, sent: Recorder.StateSlice) {
    CachesCovered(t, keys, c) && sent.code.Keys <= keys && WellAsked(t, keys, evm, [])
  }

  datatype CallResult = CallResult(output: Bytes, success: bool, verified: Option<bool>)

  /** What a call in verify mode returns when its local run came to `local`: an error if a
      request failed or the run was rejected; else the local outcome, verified exactly
      when it is the server's. */
  ghost predicate Compared(local: Option<Finish>, output: Bytes, success: bool, r: Option<CallResult>) {
    match local
    case None => r == None
    case Some(Rejected(_)) => r == None
    case Some(Executed(_, success', output', _)) =>
      r == Some(CallResult(output', success', Some(output' == output && success' == success)))
  }

  class StateClient {
    const db: RemoteDB
    const verify: bool

    constructor (db: RemoteDB, verify: bool)
      ensures this.db == db && this.verify == verify
    {
      this.db := db;
      this.verify := verify;
    }

    method ExecuteLocally(t: Tables, net: (nat, nat) -> bool, evm: Evm) returns (r: Option<Finish>)
      modifies db
      ensures RunThrough(t, old(db.Model()), net, evm, []) == (db.Model(), r)
    {
      var answers: seq<Answer> := [];
      while |answers| < evm.limit
        invariant |answers| <= evm.limit
        invariant RunThrough(t, db.Model(), net, evm, answers) == RunThrough(t, old(db.Model()), net, evm, [])
        decreases evm.limit - |answers|
      {
        match evm.next(answers) {
          case Halt(f) => return Some(f);
          case Ask(r) =>
            var answer := Answer(t, NetOf(net, |answers|), r);
            if answer.None? {
              return None;
            }
            answers := answers + [answer.value];
        }
      }
      return Some(evm.outOfGas(answers));
    }

    method Answer(t: Tables, net: nat -> bool, r: Request) returns (answer: Option<Answer>)
      modifies db
      ensures var (c, l) := Steps(t, old(db.Model()), StartOf(r), net, OPERATION);
        db.Model() == c && (if l.Returned? then answer == Some(l.answer) else answer == None)
    {
      match r
      case AskAccount(a) =>
        var account := db.BasicRef(t, net, a);
        answer := if account.Ok? then Some(AccountAnswer(account.value)) else None;
      case AskSlot(a, s) =>
        var word := db.StorageRef(t, net, a, s);
        answer := if word.Ok? then Some(SlotAnswer(word.value)) else None;
      case AskCode(h) =>
        var code := db.CodeByHashRef(t, net, h);
        answer := Some(CodeAnswer(code));
    }

    /** A call that the server ran to `served` and answered with the slice `sent` of the
        accesses `acc`, written out as `slice`. In verify mode it is run again over the
        caches and the outcomes are compared. `keys` are the code hashes in play; what
        this call needs of the caches, it leaves to the next one. */
    method Call(
      t: Tables, net: (nat, nat) -> bool, evm: Evm, slice: Slice, served: Finish,
      ghost acc: Recorder.Accesses, ghost sent: Recorder.StateSlice, ghost keys: set<Word>)
      returns (r: Option<CallResult>)
      requires served == RunPlain(t, evm, []) && served.Executed?
      requires Recorder.SliceOf(t, acc, acc.Keys, sent) && WritesOut(slice, sent)
      modifies db
      ensures !verify ==>
        r == Some(CallResult(served.output, served.success, None)) && db.Model() == PourInto(old(db.Model()), slice)
      ensures verify ==>
        var (c, local) := RunThrough(t, PourInto(old(db.Model()), slice), net, evm, []);
        db.Model() == c && Compared(local, served.output, served.success, r)
      ensures CallWithin(t, keys, old(db.Model()), evm, sent) ==>
        && CachesCovered(t, keys, db.Model())
        && (verify && r.Some? ==> r == Some(CallResult(served.output, served.success, Some(true))))
    {
      ghost var before := db.Model();
      db.Prefetch(slice);
      ghost var c := db.Model();
      if CallWithin(t, keys, before, evm, sent) { ServedReady(t, keys, before, acc, sent, slice); }
      if !verify {
        return Some(CallResult(served.output, served.success, None));
      }
      var local := ExecuteLocally(t, net, evm);
      if CallWithin(t, keys, before, evm, sent) { RunsAlike(t, keys, c, net, evm, []); }
      if local.None? || local.value.Rejected? {
        return None;
      }
      var matches := local.value.output == served.output && local.value.success == served.success;
      return Some(CallResult(local.value.output, local.value.success, Some(matches)));
    }
  }
}
