/** Resuming a crashed snapshot import (crates/snapshot): whatever crashes come
    before it, the run that completes leaves what one uninterrupted import would. */
module Resume {
  import opened Types
  import opened StateTables
  import opened Snapshot

  function HeadOps(head: Option<U64>): seq<Op> {
    if head.Some? then [SetHead(head.value)] else []
  }

  /** The disk when a run over `d` has committed its last batch. */
  function FinalDisk(file: seq<Line>, d: Disk, progress: Option<string>): Disk
    requires ReadProgress(d.progress) <= |file|
  {
    var rest := file[ReadProgress(d.progress)..];
    Disk(Apply(Apply(d.tables, Ops(rest)), HeadOps(LastMetadata(rest))), progress)
  }

  ghost predicate AdmitsFinal(file: seq<Line>, d: Disk, ok: Disk -> bool)
    requires ReadProgress(d.progress) <= |file|
  {
    NoBad(file[ReadProgress(d.progress)..]) ==>
      forall progress :: ReadProgress(progress) <= |file| ==> ok(FinalDisk(file, d, progress))
  }

  /** The database never holds a head that is neither the old one nor the file's. */
  predicate HeadOk(file: seq<Line>, t0: Tables, t: Tables) {
    t.head == t0.head || (LastMetadata(file).Some? && t.head == LastMetadata(file))
  }

  /** What every disk state satisfies, from before the first run on. */
  ghost predicate Sound(file: seq<Line>, t0: Tables, d: Disk) {
    DiskOk(file, t0, d) && HeadOk(file, t0, d.tables)
  }

  lemma {:induction false} OpsLeaveHead(lines: seq<Line>)
    ensures LastWrite(Ops(lines), HeadBlock) == None
  {
    if lines != [] {
      var init, last := lines[..|lines| - 1], lines[|lines| - 1];
      OpsLeaveHead(init);
      LastWriteConcat(Ops(init), LineOps(last), HeadBlock);
      SingletonWrite(LineOps(last), HeadBlock);
    }
  }

  lemma HeadAfterLines(t: Tables, lines: seq<Line>)
    ensures Apply(t, Ops(lines)).head == t.head
  {
    OpsLeaveHead(lines);
    ReadAfterApply(t, Ops(lines), HeadBlock);
  }

  lemma HeadSet(t: Tables, head: Option<U64>)
    ensures Apply(t, HeadOps(head)).head == if head.Some? then head else t.head
    ensures forall key: Key :: !key.HeadBlock? ==> Read(Apply(t, HeadOps(head)), key) == Read(t, key)
  {
    assert HeadOps(head) == [] || HeadOps(head)[..0] == [];
    assert Apply(t, []) == t;
  }

  lemma SoundAdmits(file: seq<Line>, t0: Tables, d: Disk)
    requires Sound(file, t0, d)
    ensures Admits(file, d, x => Sound(file, t0, x))
  {
    DiskOkAdmits(file, t0, d);
    var ok := (x: Disk) => DiskOk(file, t0, x);
    forall c: nat, progress | Committed(file, d, c, progress)
      ensures Sound(file, t0, CommittedDisk(file, d, c, progress))
    {
      assert ok(CommittedDisk(file, d, c, progress));
      HeadAfterLines(d.tables, file[ReadProgress(d.progress)..c]);
    }
  }

  lemma SameButHead(file: seq<Line>, t0: Tables, d: Disk, u: Tables)
    requires DiskOk(file, t0, d)
    requires forall key: Key :: !key.HeadBlock? ==> Read(u, key) == Read(d.tables, key)
    ensures DiskOk(file, t0, d.(tables := u))
  {
    var p := ReadProgress(d.progress);
    forall key ensures Settled(file, t0, u, p, key) { assert Settled(file, t0, d.tables, p, key); }
  }

  lemma FinalSound(file: seq<Line>, t0: Tables, d: Disk, progress: Option<string>)
    requires Sound(file, t0, d) && NoBad(file[ReadProgress(d.progress)..]) && ReadProgress(progress) <= |file|
    ensures Sound(file, t0, FinalDisk(file, d, progress))
  {
    var skip := ReadProgress(d.progress);
    var rest := file[skip..];
    assert file[skip..|file|] == rest;
    var ok := (x: Disk) => Sound(file, t0, x);
    SoundAdmits(file, t0, d);
    assert Committed(file, d, |file|, progress);
    var committed := CommittedDisk(file, d, |file|, progress);
    assert ok(committed);
    HeadSet(committed.tables, LastMetadata(rest));
    SameButHead(file, t0, committed, Apply(committed.tables, HeadOps(LastMetadata(rest))));
    assert file == file[..skip] + rest;
    LastMetadataConcat(file[..skip], rest);
  }

  lemma SoundAdmitsFinal(file: seq<Line>, t0: Tables, d: Disk)
    requires Sound(file, t0, d)
    ensures AdmitsFinal(file, d, x => Sound(file, t0, x))
  {
    if NoBad(file[ReadProgress(d.progress)..]) {
      forall progress | ReadProgress(progress) <= |file| ensures Sound(file, t0, FinalDisk(file, d, progress)) {
        FinalSound(file, t0, d, progress);
      }
    }
  }

  // ---- a whole run ----

  /** What the importer's memory amounts to when the lines run out. */
  lemma AtEnd(file: seq<Line>, ok: Disk -> bool, d: Disk, size: nat)
    requires |file| < 0x1_0000_0000_0000_0000 && Admits(file, d, ok) && ReadProgress(d.progress) <= |file|
    ensures var skip := ReadProgress(d.progress);
      var imp := Lines(file, skip, size, |file|);
      && Safe(ok, d, imp.effects)
      && (imp.badLine.None? ==>
           && imp.line == |file| && skip <= imp.committed <= |file| && OnDisk(file, d, imp.committed, imp.effects)
           && imp.batch == Ops(file[imp.committed..]) && NoBad(file[skip..])
           && imp.stats.headBlock == LastMetadata(file[skip..]))
  {
    RunInv(file, ok, d, size);
    var skip := ReadProgress(d.progress);
    var imp := Lines(file, skip, size, |file|);
    assert file[skip..|file|] == file[skip..];
    if imp.badLine.None? {
      assert Memory(file, skip, |file|, imp);
      assert file[imp.committed..|file|] == file[imp.committed..];
    }
  }

  lemma FinalCommit(file: seq<Line>, d: Disk, es: seq<Effect>, c: nat)
    requires OnDisk(file, d, c, es)
    ensures var rest := file[ReadProgress(d.progress)..];
      Perform(PerformAll(d, es), CommitBatch(Ops(file[c..]) + HeadOps(LastMetadata(rest))))
        == FinalDisk(file, d, PerformAll(d, es).progress)
  {
    var skip := ReadProgress(d.progress);
    assert file[skip..|file|] == file[skip..] && file[c..|file|] == file[c..];
    CommitLines(d.tables, file, skip, c, |file|);
    ApplyConcat(PerformAll(d, es).tables, Ops(file[c..]), HeadOps(LastMetadata(file[skip..])));
  }

  /** The last two steps of a run: from `es` to the final disk, with and without
      the progress file. */
  lemma LastSteps(ok: Disk -> bool, d: Disk, es: seq<Effect>, commit: Effect, final: Disk)
    requires Safe(ok, d, es) && commit.CommitBatch? && Perform(PerformAll(d, es), commit) == final
    requires ok(final) && ok(final.(progress := None))
    ensures Safe(ok, d, es + [commit] + [RemoveProgress])
    ensures PerformAll(d, es + [commit] + [RemoveProgress]) == final.(progress := None)
  {
    PerformNext(d, es, commit);
    SafeNext(ok, d, es, commit);
    PerformNext(d, es + [commit], RemoveProgress);
    SafeNext(ok, d, es + [commit], RemoveProgress);
  }

  lemma FinalSafe(file: seq<Line>, ok: Disk -> bool, d: Disk, es: seq<Effect>, c: nat, commit: Effect)
    requires OnDisk(file, d, c, es) && Safe(ok, d, es)
    requires NoBad(file[ReadProgress(d.progress)..]) && AdmitsFinal(file, d, ok)
    requires commit == CommitBatch(Ops(file[c..]) + HeadOps(LastMetadata(file[ReadProgress(d.progress)..])))
    ensures Safe(ok, d, es + [commit] + [RemoveProgress])
    ensures PerformAll(d, es + [commit] + [RemoveProgress]) == FinalDisk(file, d, None)
  {
    FinalCommit(file, d, es, c);
    var final := FinalDisk(file, d, PerformAll(d, es).progress);
    assert final.(progress := None) == FinalDisk(file, d, None);
    LastSteps(ok, d, es, commit, final);
  }

  /** Every disk state a run passes through is `ok`; it completes exactly when no
      line it reads is bad, and then ends on the final disk. */
  lemma RunSafe(file: seq<Line>, ok: Disk -> bool, d: Disk, size: nat)
    requires |file| < 0x1_0000_0000_0000_0000 && ReadProgress(d.progress) <= |file|
    requires Admits(file, d, ok) && AdmitsFinal(file, d, ok)
    ensures Safe(ok, d, RunEffects(file, ReadProgress(d.progress), size))
    ensures Completes(file, ReadProgress(d.progress), size) ==>
      NoBad(file[ReadProgress(d.progress)..]) && AfterRun(file, size, d) == FinalDisk(file, d, None)
  {
    AtEnd(file, ok, d, size);
    var skip := ReadProgress(d.progress);
    var imp := Lines(file, skip, size, |file|);
    if imp.badLine.None? {
      FinalSafe(file, ok, d, imp.effects, imp.committed, CommitBatch(imp.batch + HeadOps(imp.stats.headBlock)));
    }
  }

  lemma SoundRun(file: seq<Line>, t0: Tables, d: Disk, size: nat)
    requires |file| < 0x1_0000_0000_0000_0000 && Sound(file, t0, d)
    ensures Safe(x => Sound(file, t0, x), d, RunEffects(file, ReadProgress(d.progress), size))
    ensures Completes(file, ReadProgress(d.progress), size) ==>
      NoBad(file[ReadProgress(d.progress)..]) && AfterRun(file, size, d) == FinalDisk(file, d, None)
  {
    SoundAdmits(file, t0, d);
    SoundAdmitsFinal(file, t0, d);
    RunSafe(file, x => Sound(file, t0, x), d, size);
  }

  lemma FreshSound(file: seq<Line>, t0: Tables)
    ensures Sound(file, t0, Disk(t0, None))
  {
    assert file[..0] == [] && file[0..] == file;
  }

  /** However many runs have crashed, and wherever: the disk is sound, and the next
      run skips no more lines than the file has. */
  lemma {:induction false} CrashesSound(file: seq<Line>, size: nat, t0: Tables, cuts: seq<Cut>)
    requires |file| < 0x1_0000_0000_0000_0000
    ensures Sound(file, t0, AfterCrashes(file, size, Disk(t0, None), cuts))
  {
    if cuts == [] {
      FreshSound(file, t0);
    } else {
      var before := AfterCrashes(file, size, Disk(t0, None), cuts[..|cuts| - 1]);
      CrashesSound(file, size, t0, cuts[..|cuts| - 1]);
      SoundRun(file, t0, before, size);
      var ok := (x: Disk) => Sound(file, t0, x);
      assert ok(Crashed(before, RunEffects(file, ReadProgress(before.progress), size), cuts[|cuts| - 1]));
    }
  }

  // ---- which runs complete ----

  /** A run stops at the first bad line after the ones it skips. */
  ghost predicate StopsAt(file: seq<Line>, skip: nat, n: nat, imp: Import)
    requires n <= |file|
  {
    match imp.badLine
    case None => imp.line == n && forall i :: skip <= i < n ==> !file[i].Bad?
    case Some(k) => skip < k <= n && file[k - 1].Bad? && forall i :: skip <= i < k - 1 ==> !file[i].Bad?
  }

  lemma {:induction false} FirstBadLine(file: seq<Line>, skip: nat, size: nat, n: nat)
    requires n <= |file|
    ensures StopsAt(file, skip, n, Lines(file, skip, size, n))
  {
    if n > 0 {
      FirstBadLine(file, skip, size, n - 1);
      TakeLineCases(skip, size, Lines(file, skip, size, n - 1), file[n - 1]);
    }
  }

  lemma CompletesIff(file: seq<Line>, skip: nat, size: nat)
    requires skip <= |file|
    ensures Completes(file, skip, size) <==> NoBad(file[skip..])
  {
    FirstBadLine(file, skip, size, |file|);
    var imp := Lines(file, skip, size, |file|);
    if imp.badLine.Some? {
      assert file[skip..][imp.badLine.value - 1 - skip].Bad?;
    }
    if imp.badLine.None? {
      forall i | 0 <= i < |file[skip..]| ensures !file[skip..][i].Bad? { assert file[skip..][i] == file[skip + i]; }
    }
  }

  lemma NoBadSplit(file: seq<Line>, skip: nat)
    requires skip <= |file| && NoBad(file[..skip])
    ensures NoBad(file[skip..]) <==> NoBad(file)
  {
    forall i | 0 <= i < |file| && NoBad(file[skip..]) ensures !file[i].Bad? {
      if i < skip { assert !file[..skip][i].Bad?; } else { assert !file[skip..][i - skip].Bad?; }
    }
  }

  // ---- what a run reports ----

  /** The entries of each kind among some lines, and the last head named. */
  function Tally(lines: seq<Line>): ImportStats {
    ImportStats(
      |Kind(lines, (e: Entry) => e.AccountEntry?)|, |Kind(lines, (e: Entry) => e.StorageEntry?)|,
      |Kind(lines, (e: Entry) => e.CodeEntry?)|, LastMetadata(lines))
  }

  /** The positions of the good lines of one kind. */
  function Kind(lines: seq<Line>, kind: Entry -> bool): set<nat> {
    set i: nat | i < |lines| && lines[i].Good? && kind(lines[i].entry)
  }

  lemma KindNext(lines: seq<Line>, line: Line, kind: Entry -> bool)
    ensures |Kind(lines + [line], kind)| == |Kind(lines, kind)| + if line.Good? && kind(line.entry) then 1 else 0
  {
    var before, after := Kind(lines, kind), Kind(lines + [line], kind);
    if line.Good? && kind(line.entry) {
      assert after == before + {|lines|};
    } else {
      assert after == before;
    }
  }

  lemma TallyNext(lines: seq<Line>, line: Line)
    ensures Tally(lines + [line]) == if line.Good? then Count(Tally(lines), line.entry) else Tally(lines)
  {
    KindNext(lines, line, (e: Entry) => e.AccountEntry?);
    KindNext(lines, line, (e: Entry) => e.StorageEntry?);
    KindNext(lines, line, (e: Entry) => e.CodeEntry?);
    MetadataNext(lines, line);
  }

  /** `imp` has read the lines up to `n`, and counts those after the first `skip`. */
  predicate Counts(file: seq<Line>, skip: nat, n: nat, imp: Import)
    requires skip <= n <= |file|
  {
    imp.line == n && imp.stats == Tally(file[skip..n])
  }

  lemma CountsNext(file: seq<Line>, skip: nat, size: nat, n: nat, imp: Import)
    requires skip <= n < |file| && Counts(file, skip, n, imp) && TakeLine(skip, size, imp, file[n]).badLine.None?
    ensures Counts(file, skip, n + 1, TakeLine(skip, size, imp, file[n])) && imp.badLine.None? && !file[n].Bad?
  {
    TakeLineCases(skip, size, imp, file[n]);
    assert file[skip..n + 1] == file[skip..n] + [file[n]];
    TallyNext(file[skip..n], file[n]);
  }

  lemma NoneCounted(file: seq<Line>, skip: nat, size: nat)
    requires skip <= |file|
    ensures Counts(file, skip, skip, Lines(file, skip, size, skip))
  {
    SkippedLines(file, skip, size, skip);
    assert file[skip..skip] == [];
  }

  /** The run before line `n + 1`. */
  lemma LineBefore(file: seq<Line>, skip: nat, size: nat, n: nat) returns (imp: Import)
    requires skip <= n < |file| && Lines(file, skip, size, n + 1).badLine.None?
    ensures imp == Lines(file, skip, size, n) && imp.badLine.None?
    ensures Lines(file, skip, size, n + 1) == TakeLine(skip, size, imp, file[n])
  {
    imp := Lines(file, skip, size, n);
  }

  /** The statistics count exactly the lines read, by kind: a resumed run does not
      count what earlier runs imported. */
  lemma {:induction false} StatsTally(file: seq<Line>, skip: nat, size: nat, n: nat)
    requires skip <= n <= |file| && Lines(file, skip, size, n).badLine.None?
    ensures Counts(file, skip, n, Lines(file, skip, size, n))
    decreases n
  {
    if n == skip {
      NoneCounted(file, skip, size);
    } else {
      var imp := LineBefore(file, skip, size, n - 1);
      StatsTally(file, skip, size, n - 1);
      CountsNext(file, skip, size, n - 1, imp);
    }
  }

  lemma {:induction false} SkippedLines(file: seq<Line>, skip: nat, size: nat, n: nat)
    requires n <= skip && n <= |file|
    ensures Lines(file, skip, size, n) == NewImport(skip).(line := n)
    decreases n
  {
    if n > 0 { SkippedLines(file, skip, size, n - 1); }
  }

  // ---- how a run is cut into batches ----

  function Entries(lines: seq<Line>): nat {
    |Kind(lines, (e: Entry) => true)|
  }

  /** Batch number `j` is committed, and then recorded, at the line of the entry that
      fills it. */
  predicate BatchAt(file: seq<Line>, skip: nat, size: nat, effects: seq<Effect>, j: nat, line: nat) {
    && skip < line <= |file| && file[line - 1].Good? && Entries(file[skip..line]) == (j + 1) * size
    && 2 * j + 1 < |effects| && effects[2 * j].CommitBatch?
    && effects[2 * j + 1] == WriteProgress(Decimal(line))
  }

  ghost predicate HasBatch(file: seq<Line>, skip: nat, size: nat, effects: seq<Effect>, n: nat, j: nat) {
    exists line: nat :: line <= n && BatchAt(file, skip, size, effects, j, line)
  }

  /** `b` full batches so far, and the rest of the entries in the open one. */
  ghost predicate Batched(file: seq<Line>, skip: nat, size: nat, imp: Import, n: nat, b: nat)
    requires skip <= n <= |file|
  {
    && Entries(file[skip..n]) == b * size + imp.entries && imp.entries < size
    && |imp.effects| == 2 * b
    && forall j: nat :: j < b ==> HasBatch(file, skip, size, imp.effects, n, j)
  }

  lemma BatchStays(
    file: seq<Line>, skip: nat, size: nat, es: seq<Effect>, es': seq<Effect>, n: nat, n': nat, j: nat)
    requires HasBatch(file, skip, size, es, n, j) && n <= n'
    requires |es| <= |es'| && es'[..|es|] == es
    ensures HasBatch(file, skip, size, es', n', j)
  {
    var line: nat :| line <= n && BatchAt(file, skip, size, es, j, line);
    assert es'[2 * j] == es[2 * j] && es'[2 * j + 1] == es[2 * j + 1];
    assert BatchAt(file, skip, size, es', j, line);
  }

  lemma EntriesNext(file: seq<Line>, skip: nat, n: nat)
    requires skip <= n < |file|
    ensures Entries(file[skip..n + 1]) == Entries(file[skip..n]) + if file[n].Good? then 1 else 0
  {
    assert file[skip..n + 1] == file[skip..n] + [file[n]];
    KindNext(file[skip..n], file[n], (e: Entry) => true);
  }

  lemma BatchedNext(file: seq<Line>, skip: nat, size: nat, imp: Import, n: nat, b: nat)
    requires skip <= n < |file| && size > 0 && Batched(file, skip, size, imp, n, b)
    requires imp.line == n && imp.badLine.None? && !file[n].Bad?
    ensures var imp' := TakeLine(skip, size, imp, file[n]);
      Batched(file, skip, size, imp', n + 1, b) || Batched(file, skip, size, imp', n + 1, b + 1)
  {
    var imp' := TakeLine(skip, size, imp, file[n]);
    TakeLineCases(skip, size, imp, file[n]);
    EntriesNext(file, skip, n);
    var m := n + 1;
    forall j: nat | j < b ensures HasBatch(file, skip, size, imp'.effects, m, j) {
      BatchStays(file, skip, size, imp.effects, imp'.effects, n, m, j);
    }
    if file[n].Good? && imp.entries + 1 >= size {
      assert (b + 1) * size == b * size + size;
      assert BatchAt(file, skip, size, imp'.effects, b, n + 1);
    }
  }

  lemma BatchedLine(file: seq<Line>, skip: nat, size: nat, imp: Import, n: nat, b: nat) returns (b': nat)
    requires skip <= n < |file| && size > 0 && Batched(file, skip, size, imp, n, b)
    requires imp.line == n && imp.badLine.None? && !file[n].Bad?
    ensures Batched(file, skip, size, TakeLine(skip, size, imp, file[n]), n + 1, b')
  {
    BatchedNext(file, skip, size, imp, n, b);
    b' := if Batched(file, skip, size, TakeLine(skip, size, imp, file[n]), n + 1, b) then b else b + 1;
  }

  lemma NoneBatched(file: seq<Line>, skip: nat, size: nat)
    requires skip <= |file| && size > 0
    ensures Batched(file, skip, size, Lines(file, skip, size, skip), skip, 0)
  {
    SkippedLines(file, skip, size, skip);
    assert file[skip..skip] == [];
  }

  /** Every batch but the last holds exactly `size` entries, and its progress is the line
      of the last of them. */
  lemma {:induction false} BatchesFull(file: seq<Line>, skip: nat, size: nat, n: nat) returns (b: nat)
    requires skip <= n <= |file| && size > 0 && Lines(file, skip, size, n).badLine.None?
    ensures Batched(file, skip, size, Lines(file, skip, size, n), n, b)
    decreases n
  {
    if n == skip {
      NoneBatched(file, skip, size);
      b := 0;
    } else {
      var imp := LineBefore(file, skip, size, n - 1);
      StatsTally(file, skip, size, n - 1);
      CountsNext(file, skip, size, n - 1, imp);
      b := BatchesFull(file, skip, size, n - 1);
      b := BatchedLine(file, skip, size, imp, n - 1, b);
    }
  }

  // ---- what the completing run leaves ----

  /** The completing run leaves every account, slot and code entry at its final
      value, the progress file gone, and the head at the last one it reads. */
  lemma CompletingRun(file: seq<Line>, t0: Tables, d: Disk, size: nat)
    requires |file| < 0x1_0000_0000_0000_0000 && Sound(file, t0, d)
    requires Completes(file, ReadProgress(d.progress), size)
    ensures var u := AfterRun(file, size, d); var head := LastMetadata(file[ReadProgress(d.progress)..]);
      && u.progress == None
      && (forall key: Key :: !key.HeadBlock? ==> Read(u.tables, key) == Target(file, t0, key))
      && u.tables.head == (if head.Some? then head else d.tables.head)
  {
    SoundRun(file, t0, d, size);
    var n, rest := |file|, file[ReadProgress(d.progress)..];
    var full := Some(Decimal(n));
    assert Decimal(n)[..|Decimal(n)|] == Decimal(n);
    TornProgress(n, |Decimal(n)|);
    FinalSound(file, t0, d, full);
    var u := FinalDisk(file, d, full).tables;
    assert file[n..] == [];
    forall key: Key | !key.HeadBlock? ensures Read(u, key) == Target(file, t0, key) {
      assert Settled(file, t0, u, n, key);
    }
    HeadSet(Apply(d.tables, Ops(rest)), LastMetadata(rest));
    HeadAfterLines(d.tables, rest);
  }

  predicate SameState(t: Tables, u: Tables) {
    t.accounts == u.accounts && t.storage == u.storage && t.code == u.code
  }

  lemma SameReadsSameState(t: Tables, u: Tables)
    requires forall key: Key :: !key.HeadBlock? ==> Read(t, key) == Read(u, key)
    ensures SameState(t, u)
  {
    var u' := u.(head := t.head);
    forall key: Key ensures Read(t, key) == Read(u', key) {
      if !key.HeadBlock? { assert Read(u', key) == Read(u, key); }
    }
    ReadsDetermine(t, u');
  }

  lemma SkippedMetadata(file: seq<Line>, skip: nat)
    requires skip <= |file|
    ensures LastMetadata(file[skip..]).Some? ==> LastMetadata(file[skip..]) == LastMetadata(file)
  {
    assert file == file[..skip] + file[skip..];
    LastMetadataConcat(file[..skip], file[skip..]);
  }

  /** The main theorem. After any crashes, resuming completes exactly when an
      uninterrupted import would; it then leaves the same accounts, storage and
      code, and the same head exactly when a metadata line is still to be read or
      the database already holds that head. A head that differs is the old one. */
  lemma ResumedImport(file: seq<Line>, size: nat, t0: Tables, cuts: seq<Cut>)
    requires |file| < 0x1_0000_0000_0000_0000
    ensures var d := AfterCrashes(file, size, Disk(t0, None), cuts); var skip := ReadProgress(d.progress);
      && skip <= |file|
      && (Completes(file, skip, size) <==> Completes(file, 0, size))
      && (Completes(file, 0, size) ==>
           var resumed, whole := AfterRun(file, size, d), AfterRun(file, size, Disk(t0, None));
           && resumed.progress == whole.progress == None
           && SameState(resumed.tables, whole.tables)
           && (resumed.tables.head == whole.tables.head <==>
                 LastMetadata(file[skip..]).Some? || d.tables.head == whole.tables.head)
           && (resumed.tables.head == whole.tables.head || resumed.tables.head == t0.head))
  {
    var d := AfterCrashes(file, size, Disk(t0, None), cuts);
    CrashesSound(file, size, t0, cuts);
    FreshSound(file, t0);
    var skip := ReadProgress(d.progress);
    CompletesIff(file, skip, size);
    CompletesIff(file, 0, size);
    NoBadSplit(file, skip);
    assert file[0..] == file;
    if Completes(file, 0, size) {
      CompletingRun(file, t0, d, size);
      CompletingRun(file, t0, Disk(t0, None), size);
      SkippedMetadata(file, skip);
      SameReadsSameState(AfterRun(file, size, d).tables, AfterRun(file, size, Disk(t0, None)).tables);
    }
  }

  // ---- a head can be lost ----

  /** A snapshot whose metadata line closes its first full batch. */
  function OneBatch(size: nat, info: AccountInfo, head: U64): seq<Line>
    requires size > 0
  {
    seq(size, i => if i == size - 1 then Good(MetadataEntry(head)) else Good(AccountEntry(0, info)))
  }

  lemma {:induction false} FillingBatch(size: nat, info: AccountInfo, head: U64, n: nat)
    requires n < size
    ensures var imp := Lines(OneBatch(size, info, head), 0, size, n);
      && imp.line == n && imp.entries == n && imp.effects == [] && imp.badLine.None?
      && LastWrite(imp.batch, HeadBlock) == None
  {
    if n > 0 {
      FillingBatch(size, info, head, n - 1);
      var before := Lines(OneBatch(size, info, head), 0, size, n - 1);
      LastWriteConcat(before.batch, [SetAccount(0, info)], HeadBlock);
      SingletonWrite([SetAccount(0, info)], HeadBlock);
    }
  }

  /** The metadata line that fills the batch: commit, then progress. */
  lemma MetadataFills(size: nat, imp: Import, head: U64)
    requires imp.badLine.None? && imp.effects == [] && imp.entries + 1 == size
    requires LastWrite(imp.batch, HeadBlock) == None
    ensures var next := TakeEntry(size, imp.(line := imp.line + 1), MetadataEntry(head));
      && next.badLine.None? && next.stats.headBlock == Some(head) && |next.effects| == 2
      && next.effects[0].CommitBatch? && LastWrite(next.effects[0].ops, HeadBlock) == None
      && next.effects[1] == WriteProgress(Decimal(imp.line + 1))
  {
    assert imp.batch + EntryOps(MetadataEntry(head)) == imp.batch;
  }

  lemma OneBatchFills(size: nat, info: AccountInfo, head: U64)
    requires size > 0
    ensures var imp := Lines(OneBatch(size, info, head), 0, size, size);
      && imp.badLine.None? && imp.stats.headBlock == Some(head) && |imp.effects| == 2
      && imp.effects[0].CommitBatch? && LastWrite(imp.effects[0].ops, HeadBlock) == None
      && imp.effects[1] == WriteProgress(Decimal(size))
  {
    var file := OneBatch(size, info, head);
    FillingBatch(size, info, head, size - 1);
    var imp := Lines(file, 0, size, size - 1);
    TakeLineCases(0, size, imp, file[size - 1]);
    MetadataFills(size, imp, head);
  }

  /** The effects of a run over it: the batch, the progress file, and the last commit. */
  lemma OneBatchEffects(size: nat, info: AccountInfo, head: U64)
    requires size > 0
    ensures var es := RunEffects(OneBatch(size, info, head), 0, size);
      && Completes(OneBatch(size, info, head), 0, size)
      && |es| == 4 && es[0].CommitBatch? && LastWrite(es[0].ops, HeadBlock) == None
      && es[1] == WriteProgress(Decimal(size)) && es[2].CommitBatch?
  {
    OneBatchFills(size, info, head);
  }

  lemma CutAfterTwo(d: Disk, es: seq<Effect>)
    requires |es| == 4 && es[0].CommitBatch? && es[1].WriteProgress? && es[2].CommitBatch?
    ensures Crashed(d, es, Cut(2, None)) == Disk(Apply(d.tables, es[0].ops), Some(es[1].text))
  {
    assert es[..2][..1] == es[..1] && es[..1][..0] == [];
    assert PerformAll(d, es[..1]) == Perform(d, es[0]);
  }

  /** A crash right after that batch's progress write loses the head: the resumed
      run completes with every line skipped. */
  lemma HeadLost(size: nat, info: AccountInfo, head: U64)
    requires 0 < size < 0x1_0000_0000_0000_0000
    ensures var file := OneBatch(size, info, head);
      var d := AfterCrashes(file, size, Disk(EMPTY, None), [Cut(2, None)]);
      && AfterRun(file, size, Disk(EMPTY, None)).tables.head == Some(head)
      && Completes(file, ReadProgress(d.progress), size)
      && AfterRun(file, size, d).tables.head == None
  {
    var file, d0, cuts := OneBatch(size, info, head), Disk(EMPTY, None), [Cut(2, None)];
    OneBatchEffects(size, info, head);
    var es := RunEffects(file, 0, size);
    assert cuts[..0] == [];
    assert AfterCrashes(file, size, d0, cuts[..0]) == d0;
    var d := AfterCrashes(file, size, d0, cuts);
    CutAfterTwo(d0, es);
    assert Decimal(size)[..|Decimal(size)|] == Decimal(size);
    TornProgress(size, |Decimal(size)|);
    ReadAfterApply(EMPTY, es[0].ops, HeadBlock);
    CrashesSound(file, size, EMPTY, cuts);
    FreshSound(file, EMPTY);
    ResumedImport(file, size, EMPTY, cuts);
    assert file[0..] == file && file[size..] == [];
    CompletingRun(file, EMPTY, d0, size);
    CompletingRun(file, EMPTY, d, size);
  }
}
