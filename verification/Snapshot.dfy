/** Snapshot import (crates/snapshot): batching, the sidecar progress file, and
    resuming after crashes. */
module Snapshot {
  import opened Types
  import opened StateTables
  import opened Text

  datatype Entry =
    | AccountEntry(address: Address, info: AccountInfo)
    | StorageEntry(address: Address, slot: Word, value: Word)
    | CodeEntry(hash: Word, code: Bytes)
    | MetadataEntry(headBlock: U64)

  /** A line of the file: blank, unparsable, or one entry. */
  datatype Line = Blank | Bad | Good(entry: Entry)

  const BATCH_SIZE := 10_000

  // ---- the progress file ----

  function Digit(d: nat): char
    requires d < 10
  {
    '0' + d as char
  }

  /** The decimal text `write_progress` writes. */
  function Decimal(n: nat): (s: string)
    ensures s != []
  {
    if n < 10 then [Digit(n)] else Decimal(n / 10) + [Digit(n % 10)]
  }

  predicate IsDigit(c: char) {
    '0' <= c <= '9'
  }

  function DigitsValue(s: string): nat
    requires forall i :: 0 <= i < |s| ==> IsDigit(s[i])
  {
    if s == [] then 0
    else
      assert IsDigit(s[|s| - 1]);
      DigitsValue(s[..|s| - 1]) * 10 + (s[|s| - 1] as int - '0' as int)
  }

  /** Rust's `str::parse::<u64>`: an optional plus sign, then at least one digit,
      and no overflow. */
  function ParseU64(s: string): Option<U64> {
    var digits := if s != [] && s[0] == '+' then s[1..] else s;
    if digits == [] || exists i :: 0 <= i < |digits| && !IsDigit(digits[i]) then None
    else if DigitsValue(digits) < 0x1_0000_0000_0000_0000 then Some(DigitsValue(digits)) else None
  }

  /** A missing or unreadable progress file counts as no progress. */
  function ReadProgress(file: Option<string>): U64 {
    match file
    case None => 0
    case Some(text) => ParseU64(Trim(text)).UnwrapOr(0)
  }

  lemma {:induction false} DecimalDigits(n: nat)
    ensures forall i :: 0 <= i < |Decimal(n)| ==> IsDigit(Decimal(n)[i])
    ensures DigitsValue(Decimal(n)) == n
  {
    if n >= 10 {
      DecimalDigits(n / 10);
      assert Decimal(n)[..|Decimal(n)| - 1] == Decimal(n / 10);
    }
  }

  lemma {:induction false} PrefixValue(s: string, k: nat)
    requires k <= |s| && forall i :: 0 <= i < |s| ==> IsDigit(s[i])
    ensures DigitsValue(s[..k]) <= DigitsValue(s)
    decreases |s|
  {
    if k == |s| {
      assert s[..k] == s;
    } else {
      assert s[..|s| - 1][..k] == s[..k];
      PrefixValue(s[..|s| - 1], k);
    }
  }

  lemma TrimDigits(s: string)
    requires forall i :: 0 <= i < |s| ==> IsDigit(s[i])
    ensures Trim(s) == s
  {
  }

  /** A progress file torn anywhere reads back as a number no larger than the one
      being written; written in full it reads back exactly. */
  lemma TornProgress(n: U64, k: nat)
    requires k <= |Decimal(n)|
    ensures ReadProgress(Some(Decimal(n)[..k])) <= n
    ensures k == |Decimal(n)| ==> ReadProgress(Some(Decimal(n)[..k])) == n
  {
    DecimalDigits(n);
    var s := Decimal(n)[..k];
    PrefixValue(Decimal(n), k);
    TrimDigits(s);
    if k == |Decimal(n)| { assert s == Decimal(n); }
    if s != [] { assert IsDigit(s[0]); }
  }

  // ---- one run of the importer ----

  /** The steps of an import that outlive the process. */
  datatype Effect = CommitBatch(ops: seq<Op>) | WriteProgress(text: string) | RemoveProgress

  datatype Disk = Disk(tables: Tables, progress: Option<string>)

  function Perform(d: Disk, e: Effect): Disk {
    match e
    case CommitBatch(ops) => d.(tables := Apply(d.tables, ops))
    case WriteProgress(text) => d.(progress := Some(text))
    case RemoveProgress => d.(progress := None)
  }

  function PerformAll(d: Disk, es: seq<Effect>): Disk {
    if es == [] then d else Perform(PerformAll(d, es[..|es| - 1]), es[|es| - 1])
  }

  datatype ImportStats = ImportStats(accounts: nat, storageSlots: nat, codeEntries: nat, headBlock: Option<U64>)

  /** The importer after some lines. `committed` is the line its last batch ended at. */
  datatype Import = Import(
    line: nat, batch: seq<Op>, entries: nat, stats: ImportStats, committed: nat,
    effects: seq<Effect>, badLine: Option<nat>)

  function NewImport(skip: nat): Import {
    Import(0, [], 0, ImportStats(0, 0, 0, None), skip, [], None)
  }

  function EntryOps(e: Entry): seq<Op> {
    match e
    case AccountEntry(a, info) => [SetAccount(a, info)]
    case StorageEntry(a, s, v) => [SetStorage(a, s, v)]
    case CodeEntry(h, c) => [SetCode(h, c)]
    case MetadataEntry(_) => []
  }

  function Count(stats: ImportStats, e: Entry): ImportStats {
    match e
    case AccountEntry(_, _) => stats.(accounts := stats.accounts + 1)
    case StorageEntry(_, _, _) => stats.(storageSlots := stats.storageSlots + 1)
    case CodeEntry(_, _) => stats.(codeEntries := stats.codeEntries + 1)
    case MetadataEntry(head) => stats.(headBlock := Some(head))
  }

  /** A parsed entry joins the batch; a full batch is committed and then the
      progress file is written. */
  function TakeEntry(size: nat, imp: Import, e: Entry): Import {
    var batch := imp.batch + EntryOps(e);
    var counted := imp.(batch := batch, entries := imp.entries + 1, stats := Count(imp.stats, e));
    if counted.entries < size then counted
    else
      counted.(
        batch := [], entries := 0, committed := imp.line,
        effects := imp.effects + [CommitBatch(batch)] + [WriteProgress(Decimal(imp.line))])
  }

  function TakeLine(skip: nat, size: nat, imp: Import, line: Line): Import {
    if imp.badLine.Some? then imp
    else
      var next := imp.(line := imp.line + 1);
      if next.line <= skip then next
      else
        match line
        case Blank => next
        case Bad => next.(badLine := Some(next.line))
        case Good(e) => TakeEntry(size, next, e)
  }

  /** The importer after the first `n` lines. */
  function Lines(file: seq<Line>, skip: nat, size: nat, n: nat): Import
    requires n <= |file|
  {
    if n == 0 then NewImport(skip) else TakeLine(skip, size, Lines(file, skip, size, n - 1), file[n - 1])
  }

  /** All the effects of a run that is not cut short. */
  function RunEffects(file: seq<Line>, skip: nat, size: nat): seq<Effect> {
    var imp := Lines(file, skip, size, |file|);
    if imp.badLine.Some? then imp.effects
    else
      var head := if imp.stats.headBlock.Some? then [SetHead(imp.stats.headBlock.value)] else [];
      imp.effects + [CommitBatch(imp.batch + head)] + [RemoveProgress]
  }

  predicate Completes(file: seq<Line>, skip: nat, size: nat) {
    Lines(file, skip, size, |file|).badLine.None?
  }

  function AfterRun(file: seq<Line>, size: nat, d: Disk): Disk {
    PerformAll(d, RunEffects(file, ReadProgress(d.progress), size))
  }

  // ---- crashes ----

  /** A crash after some effects; if the next one is the progress write, it may
      have left the file truncated to `torn` characters. */
  datatype Cut = Cut(effects: nat, torn: Option<nat>)

  function Crashed(d: Disk, es: seq<Effect>, cut: Cut): Disk {
    if cut.effects >= |es| then PerformAll(d, es)
    else Interrupted(PerformAll(d, es[..cut.effects]), es[cut.effects], cut.torn)
  }

  /** The disk when the process dies at the step `e`. */
  function Interrupted(before: Disk, e: Effect, torn: Option<nat>): Disk {
    if e.WriteProgress? && torn.Some? then before.(progress := Some(Torn(e.text, torn.value))) else before
  }

  function Torn(text: string, k: nat): string {
    if k <= |text| then text[..k] else text
  }

  function AfterCrashes(file: seq<Line>, size: nat, d: Disk, cuts: seq<Cut>): Disk {
    if cuts == [] then d
    else
      var before := AfterCrashes(file, size, d, cuts[..|cuts| - 1]);
      Crashed(before, RunEffects(file, ReadProgress(before.progress), size), cuts[|cuts| - 1])
  }

  // ---- what the file says ----

  function LineOps(line: Line): seq<Op> {
    if line.Good? then EntryOps(line.entry) else []
  }

  function Ops(lines: seq<Line>): seq<Op> {
    if lines == [] then [] else Ops(lines[..|lines| - 1]) + LineOps(lines[|lines| - 1])
  }

  function LastMetadata(lines: seq<Line>): Option<U64> {
    if lines == [] then None
    else
      var line := lines[|lines| - 1];
      if line.Good? && line.entry.MetadataEntry? then Some(line.entry.headBlock)
      else LastMetadata(lines[..|lines| - 1])
  }

  predicate NoBad(lines: seq<Line>) {
    forall i :: 0 <= i < |lines| ==> !lines[i].Bad?
  }

  lemma Assoc<T>(a: seq<T>, b: seq<T>, c: seq<T>)
    ensures (a + b) + c == a + (b + c)
  {
  }

  lemma OpsNext(lines: seq<Line>, line: Line)
    ensures Ops(lines + [line]) == Ops(lines) + LineOps(line)
  {
    assert (lines + [line])[..|lines|] == lines;
  }

  lemma {:induction false} OpsConcat(a: seq<Line>, b: seq<Line>)
    ensures Ops(a + b) == Ops(a) + Ops(b)
  {
    if b == [] {
      assert a + b == a;
    } else {
      var init, last := b[..|b| - 1], b[|b| - 1];
      OpsConcat(a, init);
      assert a + b == (a + init) + [last];
      OpsNext(a + init, last);
      Assoc(Ops(a), Ops(init), LineOps(last));
    }
  }

  lemma {:induction false} LastMetadataConcat(a: seq<Line>, b: seq<Line>)
    ensures LastMetadata(a + b) == if LastMetadata(b).Some? then LastMetadata(b) else LastMetadata(a)
  {
    if b == [] {
      assert a + b == a;
    } else {
      assert (a + b)[..|a + b| - 1] == a + b[..|b| - 1];
      LastMetadataConcat(a, b[..|b| - 1]);
    }
  }

  /** What an uninterrupted import of the file into `t0` leaves under `key`. */
  function Target(file: seq<Line>, t0: Tables, key: Key): Option<Value> {
    LastWrite(Ops(file), key).UnwrapOr(Read(t0, key))
  }

  /** The key has its final value unless a line after the first `p` still writes it. */
  predicate Settled(file: seq<Line>, t0: Tables, t: Tables, p: nat, key: Key)
    requires p <= |file|
  {
    key.HeadBlock? || LastWrite(Ops(file[p..]), key).Some? || Read(t, key) == Target(file, t0, key)
  }

  /** The invariant of every disk state: everything the recorded progress lets the
      next run skip is already in. */
  ghost predicate DiskOk(file: seq<Line>, t0: Tables, d: Disk) {
    && ReadProgress(d.progress) <= |file|
    && NoBad(file[..ReadProgress(d.progress)])
    && forall key :: Settled(file, t0, d.tables, ReadProgress(d.progress), key)
  }

  lemma SettledEarlier(file: seq<Line>, t0: Tables, t: Tables, p: nat, q: nat, key: Key)
    requires q <= p <= |file| && Settled(file, t0, t, p, key)
    ensures Settled(file, t0, t, q, key)
  {
    assert file[q..] == file[q..p] + file[p..];
    OpsConcat(file[q..p], file[p..]);
    LastWriteConcat(Ops(file[q..p]), Ops(file[p..]), key);
  }

  /** Committing the lines from `s` to `c` settles everything up to `c`. */
  lemma SettledByCommit(file: seq<Line>, t0: Tables, t: Tables, s: nat, c: nat, key: Key)
    requires s <= c <= |file| && Settled(file, t0, t, s, key)
    ensures Settled(file, t0, Apply(t, Ops(file[s..c])), c, key)
  {
    ReadAfterApply(t, Ops(file[s..c]), key);
    assert file[s..] == file[s..c] + file[c..];
    assert file == file[..s] + file[s..];
    OpsConcat(file[s..c], file[c..]);
    OpsConcat(file[..s], file[s..]);
    LastWriteConcat(Ops(file[s..c]), Ops(file[c..]), key);
    LastWriteConcat(Ops(file[..s]), Ops(file[s..]), key);
  }

  // ---- every effect of a run keeps the disk sound ----

  /** A run's memory when the lines from `skip` to `m` have been taken: the batches
      so far end at line `committed`, and the open batch holds the lines since. */
  ghost predicate Memory(file: seq<Line>, skip: nat, m: nat, imp: Import) {
    && skip <= imp.committed <= m <= |file|
    && imp.batch == Ops(file[imp.committed..m])
    && NoBad(file[skip..m])
    && imp.stats.headBlock == LastMetadata(file[skip..m])
  }

  function Reached(skip: nat, n: nat): nat {
    if n <= skip then skip else n
  }

  /** Every disk state the effects pass through is `ok`, torn progress writes included. */
  ghost predicate Safe(ok: Disk -> bool, d: Disk, es: seq<Effect>) {
    forall cut: Cut :: ok(Crashed(d, es, cut))
  }

  lemma PerformNext(d: Disk, es: seq<Effect>, e: Effect)
    ensures PerformAll(d, es + [e]) == Perform(PerformAll(d, es), e)
  {
    assert (es + [e])[..|es|] == es;
  }

  lemma CrashedNext(d: Disk, es: seq<Effect>, e: Effect, cut: Cut)
    ensures cut.effects < |es| ==> Crashed(d, es + [e], cut) == Crashed(d, es, cut)
    ensures cut.effects == |es| ==> Crashed(d, es + [e], cut) == Interrupted(PerformAll(d, es), e, cut.torn)
    ensures cut.effects > |es| ==> Crashed(d, es + [e], cut) == Perform(PerformAll(d, es), e)
  {
    var more := es + [e];
    PerformNext(d, es, e);
    if cut.effects < |es| {
      assert more[..cut.effects] == es[..cut.effects];
    } else if cut.effects == |es| {
      assert more[..cut.effects] == es;
    }
  }

  lemma SafeAtEnd(ok: Disk -> bool, d: Disk, es: seq<Effect>)
    requires Safe(ok, d, es)
    ensures ok(PerformAll(d, es))
  {
    assert Crashed(d, es, Cut(|es|, None)) == PerformAll(d, es);
  }

  lemma SafeNext(ok: Disk -> bool, d: Disk, es: seq<Effect>, e: Effect)
    requires Safe(ok, d, es) && ok(Perform(PerformAll(d, es), e))
    requires e.WriteProgress? ==> forall k: nat :: ok(PerformAll(d, es).(progress := Some(Torn(e.text, k))))
    ensures Safe(ok, d, es + [e])
  {
    SafeAtEnd(ok, d, es);
    forall cut: Cut ensures ok(Crashed(d, es + [e], cut)) {
      CrashedNext(d, es, e, cut);
      assert ok(Crashed(d, es, cut));
    }
  }

  /** The tables hold everything up to line `c`. */
  ghost predicate UpTo(file: seq<Line>, t0: Tables, t: Tables, c: nat) {
    c <= |file| && NoBad(file[..c]) && forall key :: Settled(file, t0, t, c, key)
  }

  lemma UpToEarlier(file: seq<Line>, t0: Tables, t: Tables, c: nat, progress: Option<string>)
    requires UpTo(file, t0, t, c) && ReadProgress(progress) <= c
    ensures DiskOk(file, t0, Disk(t, progress))
  {
    forall key { SettledEarlier(file, t0, t, c, ReadProgress(progress), key); }
  }

  lemma UpToCommit(file: seq<Line>, t0: Tables, d: Disk, c: nat)
    requires DiskOk(file, t0, d) && ReadProgress(d.progress) <= c <= |file|
    requires NoBad(file[ReadProgress(d.progress)..c])
    ensures UpTo(file, t0, Apply(d.tables, Ops(file[ReadProgress(d.progress)..c])), c)
  {
    var s := ReadProgress(d.progress);
    forall key { SettledByCommit(file, t0, d.tables, s, c, key); }
    forall i | 0 <= i < c ensures !file[..c][i].Bad? {
      if i < s { assert !file[..s][i].Bad?; } else { assert !file[s..c][i - s].Bad?; }
    }
  }

  /** `ok` admits the disk after committing the lines from the run's start to `c`,
      under any progress text that reads as at most `c`. */
  ghost predicate Admits(file: seq<Line>, d: Disk, ok: Disk -> bool) {
    forall c, progress :: Committed(file, d, c, progress) ==> ok(CommittedDisk(file, d, c, progress))
  }

  ghost predicate Committed(file: seq<Line>, d: Disk, c: nat, progress: Option<string>) {
    && ReadProgress(d.progress) <= c <= |file| && ReadProgress(progress) <= c
    && NoBad(file[ReadProgress(d.progress)..c])
  }

  function CommittedDisk(file: seq<Line>, d: Disk, c: nat, progress: Option<string>): Disk
    requires ReadProgress(d.progress) <= c <= |file|
  {
    Disk(Apply(d.tables, Ops(file[ReadProgress(d.progress)..c])), progress)
  }

  lemma DiskOkAdmits(file: seq<Line>, t0: Tables, d: Disk)
    requires DiskOk(file, t0, d)
    ensures Admits(file, d, x => DiskOk(file, t0, x))
  {
    forall c, progress | Committed(file, d, c, progress)
      ensures DiskOk(file, t0, CommittedDisk(file, d, c, progress))
    {
      UpToCommit(file, t0, d, c);
      UpToEarlier(file, t0, CommittedDisk(file, d, c, progress).tables, c, progress);
    }
  }

  /** The disk a run over `d` has produced by its effects so far. */
  ghost predicate OnDisk(file: seq<Line>, d: Disk, c: nat, es: seq<Effect>) {
    && ReadProgress(d.progress) <= c <= |file|
    && PerformAll(d, es) == CommittedDisk(file, d, c, PerformAll(d, es).progress)
    && ReadProgress(PerformAll(d, es).progress) <= c
  }

  /** The whole invariant of a run over `d` after `n` lines. */
  ghost predicate Inv(file: seq<Line>, ok: Disk -> bool, d: Disk, n: nat, imp: Import) {
    var skip := ReadProgress(d.progress);
    && Safe(ok, d, imp.effects)
    && (imp.badLine.None? ==>
         && imp.line == n && Memory(file, skip, Reached(skip, n), imp)
         && OnDisk(file, d, imp.committed, imp.effects))
  }

  lemma CommitLines(t: Tables, file: seq<Line>, s: nat, c: nat, n: nat)
    requires s <= c <= n <= |file|
    ensures Apply(Apply(t, Ops(file[s..c])), Ops(file[c..n])) == Apply(t, Ops(file[s..n]))
  {
    assert file[s..n] == file[s..c] + file[c..n];
    OpsConcat(file[s..c], file[c..n]);
    ApplyConcat(t, Ops(file[s..c]), Ops(file[c..n]));
  }

  /** Committing the open batch. */
  lemma CommitSafe(file: seq<Line>, ok: Disk -> bool, d: Disk, es: seq<Effect>, c: nat, n: nat)
    requires Admits(file, d, ok) && Safe(ok, d, es) && OnDisk(file, d, c, es)
    requires c <= n <= |file| && NoBad(file[ReadProgress(d.progress)..n])
    ensures Safe(ok, d, es + [CommitBatch(Ops(file[c..n]))])
    ensures OnDisk(file, d, n, es + [CommitBatch(Ops(file[c..n]))])
  {
    var e := CommitBatch(Ops(file[c..n]));
    PerformNext(d, es, e);
    CommitLines(d.tables, file, ReadProgress(d.progress), c, n);
    var progress := PerformAll(d, es).progress;
    assert Committed(file, d, n, progress);
    assert Perform(PerformAll(d, es), e) == CommittedDisk(file, d, n, progress);
    SafeNext(ok, d, es, e);
  }

  lemma TornReads(n: U64, k: nat)
    ensures ReadProgress(Some(Torn(Decimal(n), k))) <= n
  {
    TornProgress(n, if k <= |Decimal(n)| then k else |Decimal(n)|);
    assert Decimal(n)[..|Decimal(n)|] == Decimal(n);
  }

  /** The committed disk is admitted under any progress text that reads as no more. */
  lemma AdmitsAt(file: seq<Line>, ok: Disk -> bool, d: Disk, u: Disk, n: nat, progress: Option<string>)
    requires Admits(file, d, ok) && ReadProgress(d.progress) <= n <= |file|
    requires u == CommittedDisk(file, d, n, u.progress) && NoBad(file[ReadProgress(d.progress)..n])
    requires ReadProgress(progress) <= n
    ensures ok(u.(progress := progress))
  {
    assert Committed(file, d, n, progress);
  }

  /** Writing the progress file after it. */
  lemma ProgressSafe(file: seq<Line>, ok: Disk -> bool, d: Disk, es: seq<Effect>, n: nat)
    requires |file| < 0x1_0000_0000_0000_0000
    requires Admits(file, d, ok) && Safe(ok, d, es) && OnDisk(file, d, n, es)
    requires NoBad(file[ReadProgress(d.progress)..n])
    ensures Safe(ok, d, es + [WriteProgress(Decimal(n))])
    ensures OnDisk(file, d, n, es + [WriteProgress(Decimal(n))])
  {
    var u := PerformAll(d, es);
    PerformNext(d, es, WriteProgress(Decimal(n)));
    forall k: nat ensures ok(u.(progress := Some(Torn(Decimal(n), k)))) {
      TornReads(n, k);
      AdmitsAt(file, ok, d, u, n, Some(Torn(Decimal(n), k)));
    }
    assert Torn(Decimal(n), |Decimal(n)|) == Decimal(n);
    TornReads(n, |Decimal(n)|);
    SafeNext(ok, d, es, WriteProgress(Decimal(n)));
  }

  lemma SliceNext(file: seq<Line>, a: nat, n: nat)
    requires a <= n < |file|
    ensures file[a..n + 1] == file[a..n] + [file[n]]
  {
  }

  lemma MetadataNext(lines: seq<Line>, line: Line)
    ensures LastMetadata(lines + [line]) ==
      if line.Good? && line.entry.MetadataEntry? then Some(line.entry.headBlock) else LastMetadata(lines)
  {
    assert (lines + [line])[..|lines|] == lines;
  }

  lemma NoBadNext(lines: seq<Line>, line: Line)
    requires NoBad(lines) && !line.Bad?
    ensures NoBad(lines + [line])
  {
  }

  /** One more good or blank line, before any commit it triggers. */
  lemma MemoryNext(file: seq<Line>, skip: nat, n: nat, imp: Import, next: Import)
    requires n < |file| && Memory(file, skip, n, imp) && !file[n].Bad?
    requires next.committed == imp.committed && next.batch == imp.batch + LineOps(file[n])
    requires next.stats.headBlock ==
      if file[n].Good? && file[n].entry.MetadataEntry? then Some(file[n].entry.headBlock) else imp.stats.headBlock
    ensures Memory(file, skip, n + 1, next)
  {
    SliceNext(file, imp.committed, n);
    SliceNext(file, skip, n);
    OpsNext(file[imp.committed..n], file[n]);
    MetadataNext(file[skip..n], file[n]);
    NoBadNext(file[skip..n], file[n]);
  }

  lemma InvIntro(file: seq<Line>, ok: Disk -> bool, d: Disk, n: nat, imp: Import)
    requires ReadProgress(d.progress) <= n && imp.line == n && Safe(ok, d, imp.effects)
    requires Memory(file, ReadProgress(d.progress), n, imp) && OnDisk(file, d, imp.committed, imp.effects)
    ensures Inv(file, ok, d, n, imp)
  {
  }

  lemma InvElim(file: seq<Line>, ok: Disk -> bool, d: Disk, n: nat, imp: Import)
    requires ReadProgress(d.progress) <= n && imp.badLine.None? && Inv(file, ok, d, n, imp)
    ensures imp.line == n && Safe(ok, d, imp.effects)
    ensures Memory(file, ReadProgress(d.progress), n, imp) && OnDisk(file, d, imp.committed, imp.effects)
  {
  }

  /** A full batch goes out to disk, and the next one starts empty. */
  lemma FullInv(file: seq<Line>, ok: Disk -> bool, d: Disk, n: nat, imp: Import, next: Import)
    requires |file| < 0x1_0000_0000_0000_0000 && Admits(file, d, ok)
    requires ReadProgress(d.progress) <= n && imp.line == n && Safe(ok, d, imp.effects)
    requires Memory(file, ReadProgress(d.progress), n, imp) && OnDisk(file, d, imp.committed, imp.effects)
    requires next == imp.(
      batch := [], entries := 0, committed := n,
      effects := imp.effects + [CommitBatch(imp.batch)] + [WriteProgress(Decimal(n))])
    ensures Inv(file, ok, d, n, next)
  {
    CommitSafe(file, ok, d, imp.effects, imp.committed, n);
    ProgressSafe(file, ok, d, imp.effects + [CommitBatch(imp.batch)], n);
    assert file[n..n] == [];
    InvIntro(file, ok, d, n, next);
  }

  /** The invariant as a property of the importer's state alone. */
  ghost function InvOf(file: seq<Line>, ok: Disk -> bool, d: Disk): (nat, Import) -> bool {
    (n: nat, imp: Import) => Inv(file, ok, d, n, imp)
  }

  /** A good line: into the batch, and out to disk if the batch is full. */
  lemma EntryInv(file: seq<Line>, ok: Disk -> bool, d: Disk, size: nat, n: nat, imp: Import)
    requires |file| < 0x1_0000_0000_0000_0000 && ReadProgress(d.progress) <= n < |file| && file[n].Good?
    requires Admits(file, d, ok) && InvOf(file, ok, d)(n, imp) && imp.badLine.None?
    ensures InvOf(file, ok, d)(n + 1, TakeEntry(size, imp.(line := n + 1), file[n].entry))
  {
    InvElim(file, ok, d, n, imp);
    var skip, e := ReadProgress(d.progress), file[n].entry;
    var counted := imp.(
      line := n + 1, batch := imp.batch + EntryOps(e), entries := imp.entries + 1, stats := Count(imp.stats, e));
    MemoryNext(file, skip, n, imp, counted);
    if counted.entries < size {
      InvIntro(file, ok, d, n + 1, counted);
    } else {
      FullInv(file, ok, d, n + 1, counted, TakeEntry(size, imp.(line := n + 1), e));
    }
  }

  lemma NothingAdded<T>(xs: seq<T>)
    ensures xs + [] == xs
  {
  }

  lemma BlankMemory(file: seq<Line>, skip: nat, n: nat, imp: Import)
    requires n < |file| && Memory(file, skip, n, imp) && file[n].Blank?
    ensures Memory(file, skip, n + 1, imp.(line := n + 1))
  {
    NothingAdded(imp.batch);
    MemoryNext(file, skip, n, imp, imp.(line := n + 1));
  }

  lemma BlankInv(file: seq<Line>, ok: Disk -> bool, d: Disk, n: nat, imp: Import)
    requires ReadProgress(d.progress) <= n < |file| && file[n].Blank?
    requires InvOf(file, ok, d)(n, imp) && imp.badLine.None?
    ensures InvOf(file, ok, d)(n + 1, imp.(line := n + 1))
  {
    InvElim(file, ok, d, n, imp);
    BlankMemory(file, ReadProgress(d.progress), n, imp);
    InvIntro(file, ok, d, n + 1, imp.(line := n + 1));
  }

  lemma SkipInv(file: seq<Line>, ok: Disk -> bool, d: Disk, n: nat, imp: Import)
    requires InvOf(file, ok, d)(n, imp) && imp.badLine.None? && n < ReadProgress(d.progress)
    ensures InvOf(file, ok, d)(n + 1, imp.(line := n + 1))
  {
    var skip := ReadProgress(d.progress);
    assert Reached(skip, n) == Reached(skip, n + 1);
    assert Memory(file, skip, Reached(skip, n), imp.(line := n + 1));
  }

  lemma BadInv(file: seq<Line>, ok: Disk -> bool, d: Disk, n: nat, imp: Import)
    requires InvOf(file, ok, d)(n, imp)
    ensures imp.badLine.Some? ==> InvOf(file, ok, d)(n + 1, imp)
    ensures InvOf(file, ok, d)(n + 1, imp.(line := n + 1, badLine := Some(n + 1)))
  {
  }

  lemma InvLine(file: seq<Line>, ok: Disk -> bool, d: Disk, n: nat, imp: Import)
    requires InvOf(file, ok, d)(n, imp)
    ensures imp.badLine.None? ==> imp.line == n
  {
  }

  lemma TakeLineCases(skip: nat, size: nat, imp: Import, line: Line)
    ensures var next := TakeLine(skip, size, imp, line);
      if imp.badLine.Some? then next == imp
      else if imp.line + 1 <= skip || line.Blank? then next == imp.(line := imp.line + 1)
      else if line.Bad? then next == imp.(line := imp.line + 1, badLine := Some(imp.line + 1))
      else next == TakeEntry(size, imp.(line := imp.line + 1), line.entry)
  {
  }

  lemma InvNext(file: seq<Line>, ok: Disk -> bool, d: Disk, size: nat, n: nat, imp: Import, next: Import)
    requires |file| < 0x1_0000_0000_0000_0000 && n < |file|
    requires Admits(file, d, ok) && InvOf(file, ok, d)(n, imp)
    requires next == TakeLine(ReadProgress(d.progress), size, imp, file[n])
    ensures InvOf(file, ok, d)(n + 1, next)
  {
    TakeLineCases(ReadProgress(d.progress), size, imp, file[n]);
    InvLine(file, ok, d, n, imp);
    BadInv(file, ok, d, n, imp);
    if imp.badLine.None? {
      if n < ReadProgress(d.progress) {
        SkipInv(file, ok, d, n, imp);
      } else if file[n].Blank? {
        BlankInv(file, ok, d, n, imp);
      } else if file[n].Good? {
        EntryInv(file, ok, d, size, n, imp);
      }
    }
  }

  lemma FirstInv(file: seq<Line>, ok: Disk -> bool, d: Disk)
    requires Admits(file, d, ok) && ReadProgress(d.progress) <= |file|
    ensures Inv(file, ok, d, 0, NewImport(ReadProgress(d.progress)))
  {
    var skip := ReadProgress(d.progress);
    assert file[skip..skip] == [];
    assert Committed(file, d, skip, d.progress);
    assert CommittedDisk(file, d, skip, d.progress) == d;
    forall cut: Cut ensures Crashed(d, [], cut) == d { }
  }

  ghost predicate Preserves(
    file: seq<Line>, skip: nat, size: nat, inv: (nat, Import) -> bool, n: nat, imp: Import)
    requires n < |file|
  {
    inv(n, imp) ==> inv(n + 1, TakeLine(skip, size, imp, file[n]))
  }

  lemma InvPreserved(file: seq<Line>, ok: Disk -> bool, d: Disk, size: nat, n: nat, imp: Import)
    requires |file| < 0x1_0000_0000_0000_0000 && n < |file| && Admits(file, d, ok)
    ensures Preserves(file, ReadProgress(d.progress), size, InvOf(file, ok, d), n, imp)
  {
    if InvOf(file, ok, d)(n, imp) {
      InvNext(file, ok, d, size, n, imp, TakeLine(ReadProgress(d.progress), size, imp, file[n]));
    }
  }

  lemma InvFirst(file: seq<Line>, ok: Disk -> bool, d: Disk)
    requires Admits(file, d, ok) && ReadProgress(d.progress) <= |file|
    ensures InvOf(file, ok, d)(0, NewImport(ReadProgress(d.progress)))
  {
    FirstInv(file, ok, d);
  }

  /** Induction over the lines, for any property of the importer's state. */
  lemma {:induction false} LinesInduction(file: seq<Line>, skip: nat, size: nat, n: nat, inv: (nat, Import) -> bool)
    requires n <= |file| && inv(0, NewImport(skip))
    requires forall m, imp :: 0 <= m < |file| ==> Preserves(file, skip, size, inv, m, imp)
    ensures inv(n, Lines(file, skip, size, n))
    decreases n
  {
    if n > 0 {
      LinesInduction(file, skip, size, n - 1, inv);
      assert Preserves(file, skip, size, inv, n - 1, Lines(file, skip, size, n - 1));
    }
  }

  lemma RunInv(file: seq<Line>, ok: Disk -> bool, d: Disk, size: nat)
    requires |file| < 0x1_0000_0000_0000_0000 && Admits(file, d, ok) && ReadProgress(d.progress) <= |file|
    ensures InvOf(file, ok, d)(|file|, Lines(file, ReadProgress(d.progress), size, |file|))
  {
    InvFirst(file, ok, d);
    forall m, imp | 0 <= m < |file|
      ensures Preserves(file, ReadProgress(d.progress), size, InvOf(file, ok, d), m, imp)
    {
      InvPreserved(file, ok, d, size, m, imp);
    }
    LinesInduction(file, ReadProgress(d.progress), size, |file|, InvOf(file, ok, d));
  }
}
