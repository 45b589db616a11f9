/** What the prefetched slice does not cover: calls into unrecorded accounts, which
    only a reader that fetches on a miss gets right, and code stored under the zero
    hash. */
module SliceLimits {
  import opened Types
  import opened StateTables
  import opened Store
  import opened Overlay
  import opened StackMachine
  import opened Recorder
  import opened WasmClient

  /** Prepares a call to account 2, and returns what it returned; any other code
      returns seven. */
  const FORWARDER: Bytes := [1, CALL, 2]
  const SEVEN: Bytes := [3]

  function ForwardLogic(f: Frame): Local {
    if Opcode(f) == 1 then Goto(1, [0, 2, 0, 0, 0, 0, 0], [])
    else if Opcode(f) == 2 then Return(f.returned)
    else Return([7])
  }

  const FORWARD := Tx(0, 1, 0, [])
  const FORWARDING := Tables(
    map[1 := AccountInfo(0, 0, 11), 2 := AccountInfo(0, 0, 22)], map[], map[11 := FORWARDER, 22 := SEVEN], None)

  /** The caller has no account, and account 1 is the forwarder. */
  predicate Forwards(r: Reader) {
    r.account(0) == None && AccountCode(r, 1) == FORWARDER
  }

  lemma ForwardStart(r: Reader)
    requires Forwards(r)
    ensures Start(r, FORWARD).Some?
    ensures var m := Start(r, FORWARD).value;
      m.Running? && |m.frames| == 1 && m.frames[0].code == FORWARDER && m.frames[0].pc == 0 && m.frames[0].target == 1
  {
  }

  /** The machine once the call is prepared. */
  lemma ForwardPrepared(r: Reader)
    requires Forwards(r)
    ensures var start := Start(r, FORWARD).value; var m := Run(ForwardLogic, r, start, 1);
      && m.Running? && |m.frames| == 1 && m.frames[0].code == FORWARDER && m.frames[0].pc == 1
      && m.frames[0].stack == [0, 2, 0, 0, 0, 0, 0] && m.frames[0].target == 1
  {
    ForwardStart(r);
    var start := Start(r, FORWARD).value;
    assert Run(ForwardLogic, r, start, 0) == start;
  }

  lemma ForwardCalls(r: Reader)
    requires Forwards(r)
    ensures var start := Start(r, FORWARD).value; var m := Run(ForwardLogic, r, start, 2);
      && m.Running? && |m.frames| == 2 && m.frames[0].code == FORWARDER && m.frames[0].pc == 2
      && m.frames[1].code == AccountCode(r, 2) && m.frames[1].pc == 0
  {
    ForwardPrepared(r);
    var start := Start(r, FORWARD).value;
    var m := Run(ForwardLogic, r, start, 1);
    assert Opcode(m.frames[0]) == CALL && ToAddress(2) == 2;
    assert StackMachine.Step(ForwardLogic, r, m) == StepCall(r, m.frames, m.writes);
  }

  lemma CalleeReturns(r: Reader, m: Machine)
    requires m.Running? && |m.frames| == 2 && m.frames[0].code == FORWARDER && m.frames[0].pc == 2
    requires m.frames[1].code == SEVEN || m.frames[1].code == []
    requires m.frames[1].pc == 0
    ensures var m' := StackMachine.Step(ForwardLogic, r, m);
      && m'.Running? && |m'.frames| == 1 && m'.frames[0].code == FORWARDER && m'.frames[0].pc == 2
      && m'.frames[0].returned == if m.frames[1].code == SEVEN then [7] else []
  {
    var f := m.frames[1];
    var output := if f.code == SEVEN then [7] else [];
    assert Opcode(f) == if f.code == SEVEN then 3 else STOP;
    assert StackMachine.Step(ForwardLogic, r, m) == EndFrame(m.frames, m.writes, output, true);
  }

  lemma ForwardReturns(r: Reader)
    requires Forwards(r) && (AccountCode(r, 2) == SEVEN || AccountCode(r, 2) == [])
    ensures Start(r, FORWARD).Some?
    ensures var start := Start(r, FORWARD).value; var m := Run(ForwardLogic, r, start, 3);
      && m.Running? && |m.frames| == 1 && m.frames[0].code == FORWARDER && m.frames[0].pc == 2
      && m.frames[0].returned == if AccountCode(r, 2) == SEVEN then [7] else []
  {
    ForwardStart(r);
    ForwardCalls(r);
    CalleeReturns(r, Run(ForwardLogic, r, Start(r, FORWARD).value, 2));
  }

  /** The call's output is whatever the reader knows of account 2's code. */
  lemma ForwardOutput(r: Reader)
    requires Forwards(r) && (AccountCode(r, 2) == SEVEN || AccountCode(r, 2) == [])
    ensures Start(r, FORWARD).Some?
    ensures Run(ForwardLogic, r, Start(r, FORWARD).value, 4) ==
      Done(if AccountCode(r, 2) == SEVEN then [7] else [], true)
  {
    ForwardStart(r);
    ForwardReturns(r);
    ForwardEnds(r, Run(ForwardLogic, r, Start(r, FORWARD).value, 3));
  }

  lemma ForwardEnds(r: Reader, m: Machine)
    requires m.Running? && |m.frames| == 1 && m.frames[0].code == FORWARDER && m.frames[0].pc == 2
    ensures StackMachine.Step(ForwardLogic, r, m) == Done(m.frames[0].returned, true)
  {
    assert Opcode(m.frames[0]) == 2;
  }

  lemma RecordsNothing(logic: Logic, r: Reader, start: Machine, k: nat)
    requires Recorded(logic, r, start, k) == map[] && RecordStep(map[], Run(logic, r, start, k)) == map[]
    ensures Recorded(logic, r, start, k + 1) == map[]
  {
  }

  lemma NothingToRecord(m: Machine)
    requires m.Running? && m.frames != [] && Opcode(m.frames[|m.frames| - 1]) in {STOP, 1, 2, 3, CALL}
    ensures RecordStep(map[], m) == map[]
  {
  }

  lemma PreparationRecords(r: Reader)
    requires Forwards(r)
    ensures Start(r, FORWARD).Some? && Recorded(ForwardLogic, r, Start(r, FORWARD).value, 2) == map[]
  {
    ForwardStart(r);
    var start := Start(r, FORWARD).value;
    RecordsNothing(ForwardLogic, r, start, 0);
    ForwardPrepared(r);
    RecordsNothing(ForwardLogic, r, start, 1);
  }

  /** Nothing but the caller and the target is recorded. */
  lemma ForwardRecords(r: Reader)
    requires Forwards(r) && (AccountCode(r, 2) == SEVEN || AccountCode(r, 2) == [])
    ensures Start(r, FORWARD).Some?
    ensures CallAccesses(ForwardLogic, r, FORWARD, Start(r, FORWARD).value, 4).Keys == {0, 1}
  {
    PreparationRecords(r);
    var start := Start(r, FORWARD).value;
    ForwardCalls(r);
    NothingToRecord(Run(ForwardLogic, r, start, 2));
    RecordsNothing(ForwardLogic, r, start, 2);
    ForwardReturns(r);
    NothingToRecord(Run(ForwardLogic, r, start, 3));
    RecordsNothing(ForwardLogic, r, start, 3);
  }

  /** What the server and the slice know of an account's code. */
  lemma ServedCode(r: Reader, t: Tables, a: Address)
    requires ReadsFrom(r, t) && a in t.accounts && t.accounts[a].codeHash != KECCAK_EMPTY
    ensures AccountCode(r, a) == CodeByHashRef(t, t.accounts[a].codeHash)
  {
    ReadsAt(r, t, a, 0, t.accounts[a].codeHash);
  }

  /** A new client knows of no account that the server does not have. */
  lemma NoAccount(t: Tables, acc: Accesses, slice: StateSlice, a: Address)
    requires SliceOf(t, acc, acc.Keys, slice) && a !in t.accounts
    ensures CacheReader(Pour(NEW_CACHE, slice)).account(a) == None
  {
    if a in acc {
      PouredKnows(t, acc, NEW_CACHE, slice, a);
    } else {
      NewCacheUnknown(t, acc, slice, a);
    }
  }

  /** What a new client with a slice poured in knows of an account's code. */
  lemma SliceCode(t: Tables, acc: Accesses, slice: StateSlice, a: Address)
    requires SliceOf(t, acc, acc.Keys, slice)
    ensures AccountCode(CacheReader(Pour(NEW_CACHE, slice)), a) ==
      if a in acc && a in t.accounts && HasCode(t, t.accounts[a].codeHash)
      then CodeByHashRef(t, t.accounts[a].codeHash) else []
  {
    if a in acc {
      PouredKnows(t, acc, NEW_CACHE, slice, a);
    } else {
      NewCacheUnknown(t, acc, slice, a);
    }
  }

  lemma ServedForwarder(r: Reader)
    requires ReadsFrom(r, FORWARDING)
    ensures Forwards(r) && AccountCode(r, 2) == SEVEN
  {
    ReadsAt(r, FORWARDING, 0, 0, 0);
    ServedCode(r, FORWARDING, 1);
    ServedCode(r, FORWARDING, 2);
  }

  ghost predicate HasForwarder(t: Tables) {
    && 0 !in t.accounts && 1 in t.accounts && HasCode(t, t.accounts[1].codeHash)
    && CodeByHashRef(t, t.accounts[1].codeHash) == FORWARDER
  }

  lemma SlicedForwarder(t: Tables, acc: Accesses, slice: StateSlice, local: Reader)
    requires SliceOf(t, acc, acc.Keys, slice) && 1 in acc && 2 !in acc && HasForwarder(t)
    requires local == CacheReader(Pour(NEW_CACHE, slice))
    ensures Forwards(local) && AccountCode(local, 2) == []
  {
    NoAccount(t, acc, slice, 0);
    SliceCode(t, acc, slice, 1);
    SliceCode(t, acc, slice, 2);
  }

  lemma ForwardAnswered(r: Reader, p: Prefetched)
    requires Forwards(r) && AccountCode(r, 2) == SEVEN && Start(r, FORWARD).Some?
    requires Answers(FORWARDING, ForwardLogic, r, FORWARD, 4, Start(r, FORWARD).value, p)
    ensures (p.output, p.success) == ([7], true) && 1 in p.accesses && 2 !in p.accesses
  {
    ForwardOutput(r);
    ForwardRecords(r);
    assert 1 in p.accesses.Keys && 2 !in p.accesses.Keys;
  }

  /** A call into an unrecorded account: the server returns seven, and re-execution
      over the slice it sent returns nothing. */
  lemma UnrecordedCall(r: Reader, p: Prefetched)
    requires ReadsFrom(r, FORWARDING)
    requires Start(r, FORWARD).Some? && Answers(FORWARDING, ForwardLogic, r, FORWARD, 4, Start(r, FORWARD).value, p)
    ensures var local := CacheReader(Pour(NEW_CACHE, p.slice));
      && (p.output, p.success) == ([7], true)
      && Start(local, FORWARD).Some?
      && Outcome(Run(ForwardLogic, local, Start(local, FORWARD).value, 4)) == ([], true)
  {
    ServedForwarder(r);
    ForwardAnswered(r, p);
    SlicedForwarder(FORWARDING, p.accesses, p.slice, CacheReader(Pour(NEW_CACHE, p.slice)));
    ForwardOutput(CacheReader(Pour(NEW_CACHE, p.slice)));
  }

  lemma FilledForwarder(t: Tables, acc: Accesses, after: WasmCache, local: Reader)
    requires Filling(t, acc, NEW_CACHE, after) && 1 in acc && 2 !in acc && HasForwarder(t)
    requires local == CacheReader(after)
    ensures Forwards(local) && AccountCode(local, 2) == []
  {
    var slice :| SliceOf(t, acc, acc.Keys, slice) && after == Pour(NEW_CACHE, slice);
    SlicedForwarder(t, acc, slice, local);
  }

  /** A call that is over stays as it is, and records no more. */
  lemma {:induction false} Over(logic: Logic, r: Reader, start: Machine, k: nat, n: nat)
    requires k <= n && Run(logic, r, start, k).Done?
    ensures Run(logic, r, start, n) == Run(logic, r, start, k)
    ensures Recorded(logic, r, start, n) == Recorded(logic, r, start, k)
    decreases n
  {
    if k < n { Over(logic, r, start, k, n - 1); }
  }

  lemma ForwardComesTo(r: Reader, n: nat)
    requires Forwards(r) && (AccountCode(r, 2) == SEVEN || AccountCode(r, 2) == []) && n >= 4
    ensures ComesTo(ForwardLogic, r, FORWARD, n, (if AccountCode(r, 2) == SEVEN then [7] else [], true))
  {
    ForwardOutput(r);
    Over(ForwardLogic, r, Start(r, FORWARD).value, 4, n);
  }

  lemma ForwardAccesses(r: Reader, start: Machine, n: nat, acc: Accesses)
    requires Forwards(r) && (AccountCode(r, 2) == SEVEN || AccountCode(r, 2) == []) && n >= 4
    requires Start(r, FORWARD) == Some(start) && acc == CallAccesses(ForwardLogic, r, FORWARD, start, n)
    ensures 1 in acc && 2 !in acc
  {
    ForwardOutput(r);
    ForwardRecords(r);
    Over(ForwardLogic, r, start, 4, n);
    assert acc.Keys == {0, 1};
  }

  lemma ForwarderThere()
    ensures HasForwarder(FORWARDING)
  {
  }

  /** A new client's cache gives another output than the server. */
  lemma ClientOutputs(t: Tables, local: Reader, after: WasmCache, n: nat, acc: Accesses)
    requires 1 in acc && 2 !in acc && n >= 4 && local == CacheReader(after)
    requires HasForwarder(t) && Filling(t, acc, NEW_CACHE, after)
    ensures ComesTo(ForwardLogic, local, FORWARD, n, ([], true))
  {
    FilledForwarder(t, acc, after, local);
    ForwardComesTo(local, n);
  }

  lemma ServerOutputs(server: Reader, n: nat)
    requires ReadsFrom(server, FORWARDING) && n >= 4
    ensures Forwards(server) && AccountCode(server, 2) == SEVEN
    ensures ComesTo(ForwardLogic, server, FORWARD, n, ([7], true))
  {
    ServedForwarder(server);
    ForwardComesTo(server, n);
  }

  /** On a server that holds `t` the call comes to `served`, and over what a new client gets
      of it to `o`. */
  ghost function Diverges(
    t: Tables, logic: Logic, tx: Tx, n: nat, served: (Bytes, bool), o: (Bytes, bool)): () -> bool
  {
    () => forall server :: ReadsFrom(server, t) ==> DivergesFrom(t, logic, server, tx, n, served, o)
  }

  ghost predicate DivergesFrom(
    t: Tables, logic: Logic, server: Reader, tx: Tx, n: nat, served: (Bytes, bool), o: (Bytes, bool))
  {
    && ComesTo(logic, server, tx, n, served)
    && forall after ::
         Filling(t, CallAccesses(logic, server, tx, Start(server, tx).value, n), NEW_CACHE, after) ==>
           ComesTo(logic, CacheReader(after), tx, n, o)
  }

  /** Such a call returns the client's own outcome. */
  method DivergingCall(
    db: StateDb, logic: Logic, tx: Tx, n: nat, ghost served: (Bytes, bool), ghost o: (Bytes, bool))
    returns (r: Option<CallResult>)
    requires db.Valid() && Diverges(db.tables, logic, tx, n, served, o)()
    ensures r == Some(CallResult(o.0, o.1, Some(o == served)))
  {
    ghost var server, t := DbReader(db.raw), db.tables;
    DbReaderReads(db.raw, t);
    assert DivergesFrom(t, logic, server, tx, n, served, o);
    var client := new WasmStateClient(true);
    r := client.Call(db, logic, tx, n);
    AnsweredIs(t, logic, server, tx, n, NEW_CACHE, client.cache, served, r);
    ReexecutedAs(CacheReader(client.cache), logic, tx, n, served, o, r);
  }

  lemma ForwardingFrom(t: Tables, server: Reader, n: nat)
    requires Forwards(server) && AccountCode(server, 2) == SEVEN && HasForwarder(t) && n >= 4
    requires ComesTo(ForwardLogic, server, FORWARD, n, ([7], true))
    ensures DivergesFrom(t, ForwardLogic, server, FORWARD, n, ([7], true), ([], true))
  {
    var start := Start(server, FORWARD).value;
    var acc := CallAccesses(ForwardLogic, server, FORWARD, start, n);
    ForwardAccesses(server, start, n, acc);
    forall after | Filling(t, acc, NEW_CACHE, after)
      ensures ComesTo(ForwardLogic, CacheReader(after), FORWARD, n, ([], true))
    {
      ClientOutputs(t, CacheReader(after), after, n, acc);
    }
  }

  lemma ForwardingDiverges(n: nat)
    requires n >= 4
    ensures Diverges(FORWARDING, ForwardLogic, FORWARD, n, ([7], true), ([], true))()
  {
    ForwarderThere();
    forall server | ReadsFrom(server, FORWARDING)
      ensures DivergesFrom(FORWARDING, ForwardLogic, server, FORWARD, n, ([7], true), ([], true))
    {
      ServerOutputs(server, n);
      ForwardingFrom(FORWARDING, server, n);
    }
  }

  /** The call above, given the instructions it needs: the client's own outcome, and that it
      is not the server's. */
  method UnverifiedCall(db: StateDb, n: nat) returns (r: Option<CallResult>)
    requires db.Valid() && db.tables == FORWARDING && n >= 4
    ensures r == Some(CallResult([], true, Some(false)))
  {
    ForwardingDiverges(n);
    r := DivergingCall(db, ForwardLogic, FORWARD, n, ([7], true), ([], true));
  }

  // ---- a reader that fetches on a miss ----

  /** The cache where it has an entry, and the server everywhere else. */
  function FetchReader(c: WasmCache, r: Reader): Reader {
    Reader(
      (a: Address) => Lookup(c.accounts, a).UnwrapOr(r.account(a)),
      (a: Address, s: Word) => Lookup(c.storage, (a, s)).UnwrapOr(r.slot(a, s)),
      (h: Word) => Lookup(c.code, h).UnwrapOr(r.code(h)))
  }

  lemma SameCode(r: Reader, r': Reader, a: Address)
    requires r.account(a) == r'.account(a)
    requires r.account(a).Some? && r.account(a).value.codeHash != KECCAK_EMPTY ==>
      r.code(r.account(a).value.codeHash) == r'.code(r.account(a).value.codeHash)
    ensures Agree(r, r', CodeOf(a))
  {
  }

  lemma FetchAgrees(r: Reader, t: Tables, c: WasmCache, q: Query)
    requires ReadsFrom(r, t) && True(c, t)
    ensures Agree(r, FetchReader(c, r), q)
  {
    var a := q.address;
    ReadsAt(r, t, a, if q.SlotOf? then q.slot else 0, if a in t.accounts then t.accounts[a].codeHash else 0);
    TrueAt(c, t, a, if q.SlotOf? then q.slot else 0, if a in t.accounts then t.accounts[a].codeHash else 0);
    if q.CodeOf? { SameCode(r, FetchReader(c, r), a); }
  }

  /** Over a reader that fetches on a miss every program runs as on the server,
      recorded calls or not. */
  lemma FetchSuffices(logic: Logic, r: Reader, t: Tables, c: WasmCache, tx: Tx, n: nat)
    requires ReadsFrom(r, t) && True(c, t)
    ensures Start(FetchReader(c, r), tx) == Start(r, tx)
    ensures Start(r, tx).Some? ==>
      Run(logic, FetchReader(c, r), Start(r, tx).value, n) == Run(logic, r, Start(r, tx).value, n)
  {
    FetchAgrees(r, t, c, CodeOf(tx.from));
    FetchAgrees(r, t, c, CodeOf(tx.to));
    StartLocal(r, FetchReader(c, r), tx);
    if Start(r, tx).Some? {
      forall k | 0 <= k < n ensures AgreeOn(r, FetchReader(c, r), Touches(Run(logic, r, Start(r, tx).value, k))) {
        forall q { FetchAgrees(r, t, c, q); }
      }
      RunLocal(logic, r, FetchReader(c, r), Start(r, tx).value, n);
    }
  }

  // ---- code under the zero hash ----

  const ZERO_CODE := Tables(map[1 := AccountInfo(0, 0, 0)], map[], map[0 := SEVEN], None)

  lemma SevenOutput(r: Reader)
    requires r.account(0) == None && (AccountCode(r, 1) == SEVEN || AccountCode(r, 1) == [])
    ensures Start(r, FORWARD).Some?
    ensures Run(ForwardLogic, r, Start(r, FORWARD).value, 1) ==
      Done(if AccountCode(r, 1) == SEVEN then [7] else [], true)
  {
    var start := Start(r, FORWARD).value;
    assert Run(ForwardLogic, r, start, 0) == start;
    assert Opcode(start.frames[0]) == if AccountCode(r, 1) == SEVEN then 3 else STOP;
  }

  /** Code stored under the zero hash runs on the server and is missing from the slice. */
  lemma CodeUnderZero(r: Reader, p: Prefetched)
    requires ReadsFrom(r, ZERO_CODE)
    requires Start(r, FORWARD).Some? && Answers(ZERO_CODE, ForwardLogic, r, FORWARD, 1, Start(r, FORWARD).value, p)
    ensures var local := CacheReader(Pour(NEW_CACHE, p.slice));
      && (p.output, p.success) == ([7], true)
      && Start(local, FORWARD).Some?
      && Outcome(Run(ForwardLogic, local, Start(local, FORWARD).value, 1)) == ([], true)
  {
    ReadsAt(r, ZERO_CODE, 0, 0, 0);
    ServedCode(r, ZERO_CODE, 1);
    NoAccount(ZERO_CODE, p.accesses, p.slice, 0);
    SliceCode(ZERO_CODE, p.accesses, p.slice, 1);
    SevenOutput(r);
    SevenOutput(CacheReader(Pour(NEW_CACHE, p.slice)));
  }
}
