/** Re-execution over a prefetched slice: the prefetch endpoint (crates/api) and the
    in-memory client (crates/client-wasm). */
module WasmClient {
  import opened Types
  import opened StateTables
  import opened Store
  import opened Overlay
  import opened StackMachine
  import opened Recorder
  import opened Simulation

  // ---- the server ----

  /** The reader answers as the tables do. */
  ghost predicate ReadsFrom(r: Reader, t: Tables) {
    && (forall a :: r.account(a) == BasicRef(t, a))
    && (forall a, s :: r.slot(a, s) == StorageRef(t, a, s))
    && (forall h :: r.code(h) == CodeByHashRef(t, h))
  }

  function AccountRead(raw: Raw, a: Address): Option<AccountInfo> {
    match AccountIn(raw, a)
    case Ok(info) => info
    case Err(_) => None
  }

  function StorageRead(raw: Raw, a: Address, s: Word): Word {
    match StorageIn(raw, a, s)
    case Ok(word) => word.UnwrapOr(0)
    case Err(_) => 0
  }

  /** The database's read interface (revm_db.rs). */
  function DbReader(raw: Raw): Reader {
    Reader(
      (a: Address) => AccountRead(raw, a),
      (a: Address, s: Word) => StorageRead(raw, a, s),
      (h: Word) => CodeIn(raw, h).UnwrapOr([]))
  }

  lemma DbReaderReads(raw: Raw, t: Tables)
    requires Represents(raw, t)
    ensures ReadsFrom(DbReader(raw), t)
  {
    forall a: Address ensures AccountRead(raw, a) == BasicRef(t, a) { ReadsRefine(raw, t, a, 0, 0); }
    forall a: Address, s: Word ensures StorageRead(raw, a, s) == StorageRef(t, a, s) {
      StorageReadRefines(raw, t, a, s);
    }
    forall h: Word ensures CodeIn(raw, h).UnwrapOr([]) == CodeByHashRef(t, h) { ReadsRefine(raw, t, 0, 0, h); }
  }

  /** What a call came to; one that is still running has used up its gas. */
  function Outcome(m: Machine): (o: (Bytes, bool))
    ensures o.1 ==> m == Done(o.0, true)
  {
    match m
    case Done(output, success) => (output, success)
    case Running(_, _) => ([], false)
  }

  datatype Prefetched = Prefetched(output: Bytes, success: bool, accesses: Accesses, slice: StateSlice)

  /** The accesses of a call of `n` instructions, with its caller and target. */
  function CallAccesses(logic: Logic, r: Reader, tx: Tx, start: Machine, n: nat): Accesses {
    WithAccount(WithAccount(Recorded(logic, r, start, n), tx.from), tx.to)
  }

  /** What the endpoint answers for a call. */
  ghost predicate Answers(t: Tables, logic: Logic, r: Reader, tx: Tx, n: nat, start: Machine, p: Prefetched) {
    && (p.output, p.success) == Outcome(Run(logic, r, start, n))
    && p.accesses == CallAccesses(logic, r, tx, start, n)
    && SliceOf(t, p.accesses, p.accesses.Keys, p.slice)
  }

  /** Executes the call, and returns its outcome with everything accessed on the way. */
  method PostPrefetch(db: StateDb, logic: Logic, tx: Tx, n: nat) returns (r: Option<Prefetched>)
    requires db.Valid()
    ensures var start := Start(DbReader(db.raw), tx);
      if start.None? then r == None
      else r.Some? && Answers(db.tables, logic, DbReader(db.raw), tx, n, start.value, r.value)
  {
    var reader := DbReader(db.raw);
    var start := Start(reader, tx);
    if start.None? {
      return None;
    }
    var m, inspector := Inspect(logic, reader, start.value, n);
    inspector.Touch(tx.from);
    inspector.Touch(tx.to);
    var slice := BuildSlice(db, inspector.accesses);
    return Some(Prefetched(Outcome(m).0, Outcome(m).1, inspector.accesses, slice));
  }

  // ---- the client's cache ----

  datatype WasmCache = WasmCache(
    accounts: map<Address, Option<AccountInfo>>, storage: map<(Address, Word), Word>, code: map<Word, Bytes>)

  const NEW_CACHE := WasmCache(map[], map[], map[])

  /** A miss is a missing account, a zero slot, or empty code. */
  function CacheReader(c: WasmCache): Reader {
    Reader(
      (a: Address) => Lookup(c.accounts, a).UnwrapOr(None),
      (a: Address, s: Word) => Lookup(c.storage, (a, s)).UnwrapOr(0),
      (h: Word) => Lookup(c.code, h).UnwrapOr([]))
  }

  /** Everything in the cache is what the server would answer. */
  ghost predicate True(c: WasmCache, t: Tables) {
    && (forall a :: a in c.accounts ==> c.accounts[a] == BasicRef(t, a))
    && (forall a, s :: (a, s) in c.storage ==> c.storage[(a, s)] == StorageRef(t, a, s))
    && (forall h :: h in c.code ==> c.code[h] == CodeByHashRef(t, h))
  }

  /** The cache with a slice poured over it. */
  function Pour(before: WasmCache, slice: StateSlice): WasmCache {
    WasmCache(
      before.accounts + (map a | a in slice.accounts :: Some(slice.accounts[a])),
      before.storage + slice.storage,
      before.code + slice.code)
  }

  lemma TrueAt(c: WasmCache, t: Tables, a: Address, s: Word, h: Word)
    requires True(c, t)
    ensures a in c.accounts ==> c.accounts[a] == BasicRef(t, a)
    ensures (a, s) in c.storage ==> c.storage[(a, s)] == StorageRef(t, a, s)
    ensures h in c.code ==> c.code[h] == CodeByHashRef(t, h)
  {
  }

  lemma SliceAt(t: Tables, acc: Accesses, slice: StateSlice, a: Address, s: Word, h: Word)
    requires SliceOf(t, acc, acc.Keys, slice)
    ensures Lookup(slice.accounts, a) == if a in acc then BasicRef(t, a) else None
    ensures Lookup(slice.storage, (a, s)) == if s in SlotsAt(acc, a) then Some(StorageRef(t, a, s)) else None
    ensures h in slice.code <==> CodeIncluded(t, acc.Keys, h)
    ensures h in slice.code ==> slice.code[h] == CodeByHashRef(t, h)
  {
  }

  /** A true cache stays true when a slice of the same tables is poured over it. */
  lemma PourTrue(before: WasmCache, slice: StateSlice, t: Tables, acc: Accesses)
    requires SliceOf(t, acc, acc.Keys, slice)
    ensures True(before, t) ==> True(Pour(before, slice), t)
  {
    if True(before, t) {
      var c := Pour(before, slice);
      forall a | a in c.accounts ensures c.accounts[a] == BasicRef(t, a) { SliceAt(t, acc, slice, a, 0, 0); }
      forall a, s | (a, s) in c.storage ensures c.storage[(a, s)] == StorageRef(t, a, s) {
        SliceAt(t, acc, slice, a, s, 0);
      }
      forall h | h in c.code ensures c.code[h] == CodeByHashRef(t, h) { SliceAt(t, acc, slice, 0, 0, h); }
    }
  }

  // ---- sufficiency ----

  /** What the slice does not bring, the cache must not have wrong: an account the server
      no longer has, or code the slice leaves out (under the zero hash, or not stored). */
  ghost predicate FreshAt(before: WasmCache, t: Tables, a: Address) {
    if a !in t.accounts then Lookup(before.accounts, a).UnwrapOr(None) == None
    else
      var h := t.accounts[a].codeHash;
      h == KECCAK_EMPTY || HasCode(t, h) || Lookup(before.code, h).UnwrapOr([]) == CodeByHashRef(t, h)
  }

  ghost predicate FreshEnough(before: WasmCache, t: Tables, acc: Accesses) {
    forall a :: a in acc ==> FreshAt(before, t, a)
  }

  /** The slice never carries code under the zero hash, so none may be stored there. */
  predicate NoCodeUnderZero(t: Tables) {
    CodeByHashRef(t, 0) == []
  }

  /** A cache true to the server has nothing wrong, unless code is stored under the zero
      hash. */
  lemma TrueIsFresh(before: WasmCache, t: Tables, acc: Accesses)
    requires True(before, t) && NoCodeUnderZero(t)
    ensures FreshEnough(before, t, acc)
  {
    forall a | a in acc ensures FreshAt(before, t, a) {
      TrueAt(before, t, a, 0, if a in t.accounts then t.accounts[a].codeHash else 0);
    }
  }

  lemma PouredAccount(t: Tables, acc: Accesses, before: WasmCache, slice: StateSlice, a: Address)
    requires SliceOf(t, acc, acc.Keys, slice)
    ensures Lookup(Pour(before, slice).accounts, a) ==
      if a in acc && a in t.accounts then Some(Some(t.accounts[a])) else Lookup(before.accounts, a)
  {
    SliceAt(t, acc, slice, a, 0, 0);
  }

  lemma PouredSlot(t: Tables, acc: Accesses, before: WasmCache, slice: StateSlice, a: Address, s: Word)
    requires SliceOf(t, acc, acc.Keys, slice) && s in SlotsAt(acc, a)
    ensures Lookup(Pour(before, slice).storage, (a, s)).UnwrapOr(0) == StorageRef(t, a, s)
  {
    SliceAt(t, acc, slice, a, s, 0);
  }

  lemma PouredCode(t: Tables, acc: Accesses, before: WasmCache, slice: StateSlice, a: Address)
    requires SliceOf(t, acc, acc.Keys, slice)
    requires a in acc && a in t.accounts && t.accounts[a].codeHash != KECCAK_EMPTY
    ensures var h := t.accounts[a].codeHash;
      Lookup(Pour(before, slice).code, h).UnwrapOr([]) ==
        if HasCode(t, h) then CodeByHashRef(t, h) else Lookup(before.code, h).UnwrapOr([])
  {
    var h := t.accounts[a].codeHash;
    SliceAt(t, acc, slice, a, 0, h);
    assert a in acc.Keys;
    assert HasCode(t, h) <==> CodeIncluded(t, acc.Keys, h);
  }

  lemma ReadsAt(r: Reader, t: Tables, a: Address, s: Word, h: Word)
    requires ReadsFrom(r, t)
    ensures r.account(a) == BasicRef(t, a) && r.slot(a, s) == StorageRef(t, a, s) && r.code(h) == CodeByHashRef(t, h)
  {
  }

  lemma CacheReads(c: WasmCache, a: Address, s: Word, h: Word)
    ensures CacheReader(c).account(a) == Lookup(c.accounts, a).UnwrapOr(None)
    ensures CacheReader(c).slot(a, s) == Lookup(c.storage, (a, s)).UnwrapOr(0)
    ensures CacheReader(c).code(h) == Lookup(c.code, h).UnwrapOr([])
  {
  }

  /** `local` answers for the address `a` as a slice poured over `before` does. */
  ghost predicate KnowsAt(local: Reader, t: Tables, before: WasmCache, a: Address) {
    if a !in t.accounts then local.account(a) == Lookup(before.accounts, a).UnwrapOr(None)
    else
      var h := t.accounts[a].codeHash;
      && local.account(a) == Some(t.accounts[a])
      && (h != KECCAK_EMPTY ==>
           local.code(h) == if HasCode(t, h) then CodeByHashRef(t, h) else Lookup(before.code, h).UnwrapOr([]))
  }

  lemma PouredKnows(t: Tables, acc: Accesses, before: WasmCache, slice: StateSlice, a: Address)
    requires SliceOf(t, acc, acc.Keys, slice) && a in acc
    ensures KnowsAt(CacheReader(Pour(before, slice)), t, before, a)
  {
    PouredAccount(t, acc, before, slice, a);
    CacheReads(Pour(before, slice), a, 0, if a in t.accounts then t.accounts[a].codeHash else 0);
    if a in t.accounts && t.accounts[a].codeHash != KECCAK_EMPTY { PouredCode(t, acc, before, slice, a); }
  }

  lemma KnowsAgreesIff(r: Reader, local: Reader, t: Tables, before: WasmCache, a: Address)
    requires KnowsAt(local, t, before, a) && r.account(a) == BasicRef(t, a)
    requires a in t.accounts ==> r.code(t.accounts[a].codeHash) == CodeByHashRef(t, t.accounts[a].codeHash)
    ensures Agree(r, local, CodeOf(a)) <==> FreshAt(before, t, a)
  {
  }

  lemma CodeAgreesIff(r: Reader, t: Tables, acc: Accesses, before: WasmCache, slice: StateSlice, a: Address)
    requires ReadsFrom(r, t) && SliceOf(t, acc, acc.Keys, slice) && a in acc
    ensures Agree(r, CacheReader(Pour(before, slice)), CodeOf(a)) <==> FreshAt(before, t, a)
  {
    ReadsAt(r, t, a, 0, if a in t.accounts then t.accounts[a].codeHash else 0);
    PouredKnows(t, acc, before, slice, a);
    KnowsAgreesIff(r, CacheReader(Pour(before, slice)), t, before, a);
  }

  /** On covered reads the slice answers as the server does. */
  lemma CoveredAgrees(r: Reader, t: Tables, acc: Accesses, before: WasmCache, slice: StateSlice, q: Query)
    requires ReadsFrom(r, t) && FreshEnough(before, t, acc) && Covers(acc, q)
    requires SliceOf(t, acc, acc.Keys, slice)
    ensures Agree(r, CacheReader(Pour(before, slice)), q)
  {
    match q
    case SlotOf(a, s) =>
      ReadsAt(r, t, a, s, 0);
      PouredSlot(t, acc, before, slice, a, s);
    case AccountOf(a) => CodeAgreesIff(r, t, acc, before, slice, a);
    case CodeOf(a) => CodeAgreesIff(r, t, acc, before, slice, a);
  }

  /** ...for every covered read exactly when the cache had nothing covered wrong that the
      slice does not bring. */
  lemma CoveredAgreesIff(r: Reader, t: Tables, acc: Accesses, before: WasmCache, slice: StateSlice)
    requires ReadsFrom(r, t) && SliceOf(t, acc, acc.Keys, slice)
    ensures AgreeOnCovered(r, CacheReader(Pour(before, slice)), acc) <==> FreshEnough(before, t, acc)
  {
    var local := CacheReader(Pour(before, slice));
    if FreshEnough(before, t, acc) {
      forall q | Covers(acc, q) ensures Agree(r, local, q) { CoveredAgrees(r, t, acc, before, slice, q); }
    }
    if AgreeOnCovered(r, local, acc) {
      forall a | a in acc ensures FreshAt(before, t, a) {
        assert Covers(acc, CodeOf(a));
        CodeAgreesIff(r, t, acc, before, slice, a);
      }
    }
  }

  // ---- what the inspector covers ----

  /** `acc` covers every read of the instruction about to execute. */
  ghost predicate CoversStep(acc: Accesses, m: Machine) {
    forall i :: 0 <= i < |Touches(m)| ==> Covers(acc, Touches(m)[i])
  }

  ghost predicate Within(acc: Accesses, acc': Accesses) {
    forall a :: a in acc ==> a in acc' && acc[a] <= acc'[a]
  }

  /** Calls go only to covered addresses. */
  ghost predicate CallsWithin(acc: Accesses, m: Machine) {
    AtCall(m) ==> CallAddress(m.frames[|m.frames| - 1]) in acc
  }

  /** The inspector covers the recorded opcodes; the rest are calls. */
  lemma RecordCovers(acc: Accesses, before: Accesses, m: Machine)
    requires Within(RecordStep(before, m), acc) && CallsWithin(acc, m) && TargetsKnown(acc, m)
    ensures CoversStep(acc, m)
  {
  }

  lemma RecordGrows(acc: Accesses, m: Machine)
    ensures Within(acc, RecordStep(acc, m))
  {
  }

  lemma {:induction false} RecordedGrows(logic: Logic, r: Reader, m: Machine, k: nat, n: nat)
    requires k <= n
    ensures Within(Recorded(logic, r, m, k), Recorded(logic, r, m, n))
    decreases n
  {
    if k < n {
      RecordedGrows(logic, r, m, k, n - 1);
      RecordGrows(Recorded(logic, r, m, n - 1), Run(logic, r, m, n - 1));
    }
  }

  lemma {:induction false} RunTargets(logic: Logic, r: Reader, m: Machine, n: nat, acc: Accesses)
    requires TargetsKnown(acc, m)
    requires forall k :: 0 <= k < n ==> CallsWithin(acc, Run(logic, r, m, k))
    ensures TargetsKnown(acc, Run(logic, r, m, n))
  {
    if n > 0 {
      RunTargets(logic, r, m, n - 1, acc);
      HarmlessTargets(logic, r, acc, Run(logic, r, m, n - 1));
    }
  }

  /** Every call of the run, all `n` instructions of it, goes to the caller, the target
      or an address the inspector records. */
  ghost predicate CallsRecorded(logic: Logic, r: Reader, tx: Tx, start: Machine, n: nat) {
    forall k :: 0 <= k < n ==> CallsWithin(CallAccesses(logic, r, tx, start, n), Run(logic, r, start, k))
  }

  lemma CallAccessesHold(logic: Logic, r: Reader, tx: Tx, start: Machine, n: nat, k: nat)
    requires k < n
    ensures var acc := CallAccesses(logic, r, tx, start, n);
      tx.from in acc && tx.to in acc && Within(RecordStep(Recorded(logic, r, start, k), Run(logic, r, start, k)), acc)
  {
    RecordedGrows(logic, r, start, k + 1, n);
  }

  lemma RunCovered(logic: Logic, r: Reader, tx: Tx, start: Machine, n: nat, k: nat)
    requires Start(r, tx) == Some(start) && CallsRecorded(logic, r, tx, start, n) && k < n
    ensures CoversStep(CallAccesses(logic, r, tx, start, n), Run(logic, r, start, k))
  {
    var acc := CallAccesses(logic, r, tx, start, n);
    CallAccessesHold(logic, r, tx, start, n, k);
    RunTargets(logic, r, start, k, acc);
    RecordCovers(acc, Recorded(logic, r, start, k), Run(logic, r, start, k));
  }

  lemma StepAgrees(
    r: Reader, t: Tables, acc: Accesses, before: WasmCache, slice: StateSlice, m: Machine)
    requires ReadsFrom(r, t) && FreshEnough(before, t, acc) && CoversStep(acc, m)
    requires SliceOf(t, acc, acc.Keys, slice)
    ensures AgreeOn(r, CacheReader(Pour(before, slice)), Touches(m))
  {
    forall i | 0 <= i < |Touches(m)| ensures Agree(r, CacheReader(Pour(before, slice)), Touches(m)[i]) {
      CoveredAgrees(r, t, acc, before, slice, Touches(m)[i]);
    }
  }

  // ---- the exact condition ----

  lemma RecordsWhatItRecords(acc: Accesses, before: Accesses, m: Machine)
    requires Within(RecordStep(before, m), acc)
    ensures Records(acc, m)
  {
  }

  lemma CallRecords(logic: Logic, r: Reader, tx: Tx, start: Machine, n: nat)
    ensures RecordsRun(logic, r, CallAccesses(logic, r, tx, start, n), start, n)
  {
    var acc := CallAccesses(logic, r, tx, start, n);
    forall k: nat | k < n ensures Records(acc, Run(logic, r, start, k)) {
      CallAccessesHold(logic, r, tx, start, n, k);
      RecordsWhatItRecords(acc, Recorded(logic, r, start, k), Run(logic, r, start, k));
    }
  }

  lemma StartsAlike(r: Reader, local: Reader, tx: Tx, start: Machine, acc: Accesses)
    requires AgreeOnCovered(r, local, acc) && tx.from in acc && tx.to in acc
    requires Start(r, tx) == Some(start)
    ensures Start(local, tx) == Some(start) && TargetsKnown(acc, start)
  {
    assert Covers(acc, CodeOf(tx.from)) && Covers(acc, CodeOf(tx.to));
    StartLocal(r, local, tx);
  }

  lemma AnswerCovers(t: Tables, logic: Logic, r: Reader, tx: Tx, n: nat, start: Machine, p: Prefetched)
    requires Answers(t, logic, r, tx, n, start, p)
    ensures tx.from in p.accesses && tx.to in p.accesses && RecordsRun(logic, r, p.accesses, start, n)
    ensures SliceOf(t, p.accesses, p.accesses.Keys, p.slice)
  {
    CallRecords(logic, r, tx, start, n);
  }

  /** What a slice and a cache give a re-execution. */
  lemma SliceRecording(
    logic: Logic, r: Reader, t: Tables, tx: Tx, start: Machine, n: nat, p: Prefetched, before: WasmCache)
    requires ReadsFrom(r, t) && Start(r, tx) == Some(start) && Answers(t, logic, r, tx, n, start, p)
    requires FreshEnough(before, t, p.accesses)
    ensures var local := CacheReader(Pour(before, p.slice));
      && Start(local, tx) == Some(start) && Recording(logic, r, local, p.accesses, start, n)()
      && SameAt(logic, r, local, p.accesses, start)(0) && TargetsKnown(p.accesses, start)
  {
    var local := CacheReader(Pour(before, p.slice));
    AnswerCovers(t, logic, r, tx, n, start, p);
    CoveredAgreesIff(r, t, p.accesses, before, p.slice);
    RecordingStarts(logic, r, local, p.accesses, start, n);
    StartsAlike(r, local, tx, start, p.accesses);
  }

  lemma SameOutcome(r: Reader, r': Reader, acc: Accesses, m: Machine, m': Machine)
    requires Same(r, r', acc, m, m')
    ensures Outcome(m) == Outcome(m')
  {
  }

  lemma SameRunOutcome(logic: Logic, r: Reader, r': Reader, acc: Accesses, start: Machine, n: nat)
    requires SameRun(logic, r, r', acc, start, n)
    ensures Outcome(Run(logic, r', start, n)) == Outcome(Run(logic, r, start, n))
  {
    assert SameAt(logic, r, r', acc, start)(n);
    SameOutcome(r, r', acc, Run(logic, r, start, n), Run(logic, r', start, n));
  }

  /** The main theorem. Re-execution over the returned slice starts alike, and goes through
      the machines of the server's run if and only if each call starts alike and finds
      the same code. */
  lemma SliceSufficesIff(
    logic: Logic, r: Reader, t: Tables, tx: Tx, start: Machine, n: nat, p: Prefetched, before: WasmCache)
    requires ReadsFrom(r, t) && Start(r, tx) == Some(start) && Answers(t, logic, r, tx, n, start, p)
    requires FreshEnough(before, t, p.accesses)
    ensures var local := CacheReader(Pour(before, p.slice));
      && Start(local, tx) == Some(start)
      && (SameRun(logic, r, local, p.accesses, start, n) <==> CallsAlikeRun(logic, r, local, start, n))
      && (SameRun(logic, r, local, p.accesses, start, n) ==>
           Outcome(Run(logic, local, start, n)) == (p.output, p.success))
  {
    var local := CacheReader(Pour(before, p.slice));
    SliceRecording(logic, r, t, tx, start, n, p, before);
    RunSameIff(logic, r, local, p.accesses, start, n);
    if SameRun(logic, r, local, p.accesses, start, n) { SameRunOutcome(logic, r, local, p.accesses, start, n); }
  }

  lemma RunAgrees(
    logic: Logic, r: Reader, t: Tables, tx: Tx, start: Machine, n: nat, p: Prefetched, before: WasmCache)
    requires ReadsFrom(r, t) && Start(r, tx) == Some(start) && Answers(t, logic, r, tx, n, start, p)
    requires FreshEnough(before, t, p.accesses) && CallsRecorded(logic, r, tx, start, n)
    ensures forall k :: 0 <= k < n ==>
      AgreeOn(r, CacheReader(Pour(before, p.slice)), Touches(Run(logic, r, start, k)))
  {
    forall k | 0 <= k < n
      ensures AgreeOn(r, CacheReader(Pour(before, p.slice)), Touches(Run(logic, r, start, k)))
    {
      RunCovered(logic, r, tx, start, n, k);
      StepAgrees(r, t, p.accesses, before, p.slice, Run(logic, r, start, k));
    }
  }

  /** When all calls go to recorded addresses even the journals are equal, and the outcome
      is the server's. */
  lemma SliceSuffices(
    logic: Logic, r: Reader, t: Tables, tx: Tx, start: Machine, n: nat, p: Prefetched, before: WasmCache)
    requires ReadsFrom(r, t) && Start(r, tx) == Some(start) && Answers(t, logic, r, tx, n, start, p)
    requires FreshEnough(before, t, p.accesses) && CallsRecorded(logic, r, tx, start, n)
    ensures var local := CacheReader(Pour(before, p.slice));
      && Start(local, tx) == Some(start)
      && Run(logic, local, start, n) == Run(logic, r, start, n)
      && Outcome(Run(logic, local, start, n)) == (p.output, p.success)
  {
    var local := CacheReader(Pour(before, p.slice));
    SliceRecording(logic, r, t, tx, start, n, p, before);
    RunAgrees(logic, r, t, tx, start, n, p, before);
    RunLocal(logic, r, local, start, n);
  }

  // ---- in terms of the server's run alone ----

  lemma UnknownAt(c: WasmCache, a: Address)
    requires Lookup(c.accounts, a) == None
    ensures CacheReader(c).account(a) == None
  {
  }

  lemma NewCacheUnknown(t: Tables, acc: Accesses, slice: StateSlice, a: Address)
    requires SliceOf(t, acc, acc.Keys, slice) && a !in acc
    ensures CacheReader(Pour(NEW_CACHE, slice)).account(a) == None
  {
    PouredAccount(t, acc, NEW_CACHE, slice, a);
    UnknownAt(Pour(NEW_CACHE, slice), a);
  }

  lemma NewCacheKnowsOnly(t: Tables, acc: Accesses, slice: StateSlice)
    requires SliceOf(t, acc, acc.Keys, slice)
    ensures KnowsOnly(CacheReader(Pour(NEW_CACHE, slice)), acc)
  {
    forall a | a !in acc ensures CacheReader(Pour(NEW_CACHE, slice)).account(a) == None {
      NewCacheUnknown(t, acc, slice, a);
    }
  }

  /** A client's first call: re-execution goes through the machines of the server's run if
      and only if each call of that run to an unrecorded address does not start, or finds
      no code there. */
  lemma NewCacheSufficesIff(
    logic: Logic, r: Reader, t: Tables, tx: Tx, start: Machine, n: nat, p: Prefetched)
    requires ReadsFrom(r, t) && Start(r, tx) == Some(start) && Answers(t, logic, r, tx, n, start, p)
    requires FreshEnough(NEW_CACHE, t, p.accesses)
    ensures var local := CacheReader(Pour(NEW_CACHE, p.slice));
      && Start(local, tx) == Some(start)
      && (SameRun(logic, r, local, p.accesses, start, n) <==> HarmlessRun(logic, r, p.accesses, start, n))
  {
    var local := CacheReader(Pour(NEW_CACHE, p.slice));
    SliceRecording(logic, r, t, tx, start, n, p, NEW_CACHE);
    NewCacheKnowsOnly(t, p.accesses, p.slice);
    HarmlessRunIff(logic, r, local, p.accesses, start, n);
  }

  lemma TrueCode(r: Reader, t: Tables, c: WasmCache, a: Address)
    requires ReadsFrom(r, t) && True(c, t) && AccountCode(r, a) == []
    ensures AccountCode(CacheReader(c), a) == []
  {
    var h := if a in t.accounts then t.accounts[a].codeHash else 0;
    ReadsAt(r, t, a, 0, h);
    TrueAt(c, t, a, 0, h);
    CacheReads(c, a, 0, h);
  }

  lemma TrueInventsNoCode(r: Reader, t: Tables, acc: Accesses, c: WasmCache)
    requires ReadsFrom(r, t) && True(c, t)
    ensures InventsNoCode(r, CacheReader(c), acc)
  {
    forall a | a !in acc && AccountCode(r, a) == [] ensures AccountCode(CacheReader(c), a) == [] {
      TrueCode(r, t, c, a);
    }
  }

  /** A later call, over any cache that is true to the server: such runs have the server's
      outcome. */
  lemma TrueCacheSuffices(
    logic: Logic, r: Reader, t: Tables, tx: Tx, start: Machine, n: nat, p: Prefetched, before: WasmCache)
    requires ReadsFrom(r, t) && Start(r, tx) == Some(start) && Answers(t, logic, r, tx, n, start, p)
    requires True(before, t) && FreshEnough(before, t, p.accesses) && HarmlessRun(logic, r, p.accesses, start, n)
    ensures var local := CacheReader(Pour(before, p.slice));
      Start(local, tx) == Some(start) && Outcome(Run(logic, local, start, n)) == (p.output, p.success)
  {
    var local := CacheReader(Pour(before, p.slice));
    SliceRecording(logic, r, t, tx, start, n, p, before);
    PourTrue(before, p.slice, t, p.accesses);
    TrueInventsNoCode(r, t, p.accesses, Pour(before, p.slice));
    HarmlessSuffices(logic, r, local, p.accesses, start, n);
    SameOutcome(r, local, p.accesses, Run(logic, r, start, n), Run(logic, local, start, n));
  }

  // ---- the client ----

  datatype CallResult = CallResult(output: Bytes, success: bool, verified: Option<bool>)

  /** Re-execution over the poured cache must come to what the server answered: nothing
      covered was wrong before, and the run's calls start alike and find the same code; or
      the cache was true, and the server's calls to unrecorded addresses do not start, or
      find no code there. */
  ghost predicate Verifiable(
    t: Tables, logic: Logic, server: Reader, tx: Tx, n: nat, start: Machine, before: WasmCache, after: WasmCache)
  {
    var acc := CallAccesses(logic, server, tx, start, n);
    && FreshEnough(before, t, acc)
    && (CallsAlikeRun(logic, server, CacheReader(after), start, n)
        || (True(before, t) && HarmlessRun(logic, server, acc, start, n)))
  }

  /** What running the call with reader `local` returns, when the server's outcome is
      `served`. */
  ghost predicate Reexecuted(
    local: Reader, logic: Logic, tx: Tx, n: nat, served: (Bytes, bool), r: Option<CallResult>)
  {
    var start := Start(local, tx);
    if start.None? then r.None?
    else
      var o := Outcome(Run(logic, local, start.value, n));
      r == Some(CallResult(o.0, o.1, Some(o == served)))
  }

  /** The cache after a call is the one before with the server's slice poured over it. */
  ghost predicate Filling(t: Tables, acc: Accesses, before: WasmCache, after: WasmCache) {
    exists slice :: SliceOf(t, acc, acc.Keys, slice) && after == Pour(before, slice)
  }

  /** The client's answer to a call that the server could start: in verify mode, whatever
      the cache, the outcome of running it there, or an error if it does not start there,
      and verified exactly when the outcome is the server's. */
  ghost predicate Answered(
    t: Tables, logic: Logic, server: Reader, tx: Tx, n: nat, start: Machine, verify: bool,
    before: WasmCache, after: WasmCache, r: Option<CallResult>)
  {
    var served := Outcome(Run(logic, server, start, n));
    && Filling(t, CallAccesses(logic, server, tx, start, n), before, after)
    && (!verify ==> r == Some(CallResult(served.0, served.1, None)))
    && (verify ==> Reexecuted(CacheReader(after), logic, tx, n, served, r))
    && (verify && Verifiable(t, logic, server, tx, n, start, before, after) ==>
         r == Some(CallResult(served.0, served.1, Some(true))))
  }

  lemma ReexecutedAlike(
    logic: Logic, r: Reader, t: Tables, tx: Tx, start: Machine, n: nat, p: Prefetched, before: WasmCache)
    requires ReadsFrom(r, t) && Start(r, tx) == Some(start) && Answers(t, logic, r, tx, n, start, p)
    requires Verifiable(t, logic, r, tx, n, start, before, Pour(before, p.slice))
    ensures var local := CacheReader(Pour(before, p.slice));
      Start(local, tx) == Some(start) && Outcome(Run(logic, local, start, n)) == (p.output, p.success)
  {
    if CallsAlikeRun(logic, r, CacheReader(Pour(before, p.slice)), start, n) {
      SliceSufficesIff(logic, r, t, tx, start, n, p, before);
    } else {
      TrueCacheSuffices(logic, r, t, tx, start, n, p, before);
    }
  }

  lemma GivesAnswer(
    logic: Logic, server: Reader, t: Tables, tx: Tx, start: Machine, n: nat, p: Prefetched, before: WasmCache,
    verify: bool, r: Option<CallResult>)
    requires ReadsFrom(server, t) && Start(server, tx) == Some(start) && Answers(t, logic, server, tx, n, start, p)
    requires verify ==> Reexecuted(CacheReader(Pour(before, p.slice)), logic, tx, n, (p.output, p.success), r)
    requires !verify ==> r == Some(CallResult(p.output, p.success, None))
    ensures Answered(t, logic, server, tx, n, start, verify, before, Pour(before, p.slice), r)
  {
    if verify && Verifiable(t, logic, server, tx, n, start, before, Pour(before, p.slice)) {
      ReexecutedAlike(logic, server, t, tx, start, n, p, before);
    }
  }

  /** The call starts over the reader and comes to `o` in `n` instructions. */
  ghost predicate ComesTo(logic: Logic, r: Reader, tx: Tx, n: nat, o: (Bytes, bool)) {
    Start(r, tx).Some? && Outcome(Run(logic, r, Start(r, tx).value, n)) == o
  }

  lemma ReexecutedAs(
    local: Reader, logic: Logic, tx: Tx, n: nat, served: (Bytes, bool), o: (Bytes, bool), r: Option<CallResult>)
    requires Reexecuted(local, logic, tx, n, served, r) && ComesTo(logic, local, tx, n, o)
    ensures r == Some(CallResult(o.0, o.1, Some(o == served)))
  {
  }

  /** What an answered call in verify mode comes down to. */
  lemma AnsweredIs(
    t: Tables, logic: Logic, server: Reader, tx: Tx, n: nat, before: WasmCache, after: WasmCache,
    served: (Bytes, bool), r: Option<CallResult>)
    requires ComesTo(logic, server, tx, n, served)
    requires Answered(t, logic, server, tx, n, Start(server, tx).value, true, before, after, r)
    ensures Filling(t, CallAccesses(logic, server, tx, Start(server, tx).value, n), before, after)
    ensures Reexecuted(CacheReader(after), logic, tx, n, served, r)
  {
  }

  class WasmStateClient {
    var cache: WasmCache
    const verify: bool

    constructor (verify: bool)
      ensures this.verify == verify && cache == NEW_CACHE
    {
      this.verify := verify;
      cache := NEW_CACHE;
    }

    /** The three loops that fill the cache from a slice. */
    method Populate(slice: StateSlice)
      modifies this
      ensures cache == Pour(old(cache), slice)
    {
      PopulateAccounts(slice);
      PopulateStorage(slice);
      var rest := slice.code.Keys;
      ghost var before := cache;
      while rest != {}
        invariant rest <= slice.code.Keys
        invariant cache.(code := map[]) == before.(code := map[])
        invariant Filled(cache.code, before.code, slice.code, rest)
      {
        var h :| h in rest;
        cache := cache.(code := cache.code[h := slice.code[h]]);
        rest := rest - {h};
      }
      assert cache.code == before.code + slice.code;
    }

    method PopulateAccounts(slice: StateSlice)
      modifies this
      ensures cache == old(cache).(accounts := Pour(old(cache), slice).accounts)
    {
      var rest := slice.accounts.Keys;
      ghost var found := map a | a in slice.accounts :: Some(slice.accounts[a]);
      while rest != {}
        invariant rest <= slice.accounts.Keys
        invariant cache.(accounts := map[]) == old(cache).(accounts := map[])
        invariant Filled(cache.accounts, old(cache).accounts, found, rest)
      {
        var a :| a in rest;
        cache := cache.(accounts := cache.accounts[a := Some(slice.accounts[a])]);
        rest := rest - {a};
      }
      assert cache.accounts == old(cache).accounts + found;
    }

    method PopulateStorage(slice: StateSlice)
      modifies this
      ensures cache == old(cache).(storage := old(cache).storage + slice.storage)
    {
      var rest := slice.storage.Keys;
      while rest != {}
        invariant rest <= slice.storage.Keys
        invariant cache.(storage := map[]) == old(cache).(storage := map[])
        invariant Filled(cache.storage, old(cache).storage, slice.storage, rest)
      {
        var k :| k in rest;
        cache := cache.(storage := cache.storage[k := slice.storage[k]]);
        rest := rest - {k};
      }
      assert cache.storage == old(cache).storage + slice.storage;
    }

    /** One call: prefetch, fill the cache, and in verify mode re-execute over it.
        `None` is an error, on the server's side or the client's. */
    method Call(db: StateDb, logic: Logic, tx: Tx, n: nat) returns (r: Option<CallResult>)
      requires db.Valid()
      modifies this
      ensures True(old(cache), db.tables) ==> True(cache, db.tables)
      ensures var server := DbReader(db.raw);
        if Start(server, tx).None? then r.None? && cache == old(cache)
        else Answered(db.tables, logic, server, tx, n, Start(server, tx).value, verify, old(cache), cache, r)
    {
      var fetched := PostPrefetch(db, logic, tx, n);
      if fetched.None? {
        return None;
      }
      var p := fetched.value;
      ghost var server, before := DbReader(db.raw), cache;
      ghost var start := Start(server, tx).value;
      Populate(p.slice);
      PourTrue(before, p.slice, db.tables, p.accesses);
      r := Check(logic, tx, n, p);
      DbReaderReads(db.raw, db.tables);
      GivesAnswer(logic, server, db.tables, tx, start, n, p, before, verify, r);
    }

    /** The server's answer as it is, or re-executed. */
    method Check(logic: Logic, tx: Tx, n: nat, p: Prefetched) returns (r: Option<CallResult>)
      ensures verify ==> Reexecuted(CacheReader(cache), logic, tx, n, (p.output, p.success), r)
      ensures !verify ==> r == Some(CallResult(p.output, p.success, None))
    {
      if !verify {
        return Some(CallResult(p.output, p.success, None));
      }
      r := Reexecute(logic, tx, n, p);
    }

    method Reexecute(logic: Logic, tx: Tx, n: nat, p: Prefetched) returns (r: Option<CallResult>)
      ensures Reexecuted(CacheReader(cache), logic, tx, n, (p.output, p.success), r)
    {
      var reader := CacheReader(cache);
      var start := Start(reader, tx);
      if start.None? {
        return None;
      }
      var local := Outcome(Run(logic, reader, start.value, n));
      var matches := local.0 == p.output && local.1 == p.success;
      return Some(CallResult(local.0, local.1, Some(matches)));
    }
  }

  /** A map being filled from `source`, all but the keys in `rest`. */
  ghost predicate Filled<K(!new), V>(now: map<K, V>, before: map<K, V>, source: map<K, V>, rest: set<K>) {
    && (forall k :: k in now <==> k in before || (k in source && k !in rest))
    && (forall k :: k in now ==> now[k] == if k in source && k !in rest then source[k] else before[k])
  }
}
