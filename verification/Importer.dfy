/** The imperative snapshot import (crates/snapshot), proved against `Snapshot`. */
module Importer {
  import opened Types
  import opened StateTables
  import opened Store
  import Snapshot

  /** What an import writes to: the database and the sidecar progress file.
      `trail` records the steps taken, in order. */
  class Target {
    const db: StateDb
    var progress: Option<string>
    ghost var trail: seq<Snapshot.Effect>

    constructor (db: StateDb, progress: Option<string>)
      ensures this.db == db && this.progress == progress && trail == []
    {
      this.db := db;
      this.progress := progress;
      trail := [];
    }

    ghost function Disk(): Snapshot.Disk
      reads this, db
    {
      Snapshot.Disk(db.tables, progress)
    }

    /** The disk is what the trail has made of `start`. */
    ghost predicate Follows(start: Snapshot.Disk)
      reads this, db
    {
      db.Valid() && Disk() == Snapshot.PerformAll(start, trail)
    }

    method Commit(batch: WriteBatch, ghost start: Snapshot.Disk)
      requires batch.Valid() && batch.db == db && Follows(start)
      modifies this, db
      ensures Follows(start) && trail == old(trail) + [Snapshot.CommitBatch(batch.ops)]
      ensures progress == old(progress)
    {
      Snapshot.PerformNext(start, trail, Snapshot.CommitBatch(batch.ops));
      batch.Commit();
      trail := trail + [Snapshot.CommitBatch(batch.ops)];
    }

    method WriteProgress(line: nat, ghost start: Snapshot.Disk)
      requires Follows(start)
      modifies this
      ensures Follows(start) && trail == old(trail) + [Snapshot.WriteProgress(Snapshot.Decimal(line))]
    {
      Snapshot.PerformNext(start, trail, Snapshot.WriteProgress(Snapshot.Decimal(line)));
      progress := Some(Snapshot.Decimal(line));
      trail := trail + [Snapshot.WriteProgress(Snapshot.Decimal(line))];
    }

    method RemoveProgress(ghost start: Snapshot.Disk)
      requires Follows(start)
      modifies this
      ensures Follows(start) && trail == old(trail) + [Snapshot.RemoveProgress]
    {
      Snapshot.PerformNext(start, trail, Snapshot.RemoveProgress);
      progress := None;
      trail := trail + [Snapshot.RemoveProgress];
    }
  }

  /** The loop's variables stand for `imp`. */
  ghost predicate InStep(
    target: Target, batch: WriteBatch, start: Snapshot.Disk, imp: Snapshot.Import, entries: nat,
    stats: Snapshot.ImportStats)
    reads target, target.db, batch
  {
    && batch.Valid() && batch.db == target.db && target.Follows(start)
    && target.trail == imp.effects && batch.ops == imp.batch && entries == imp.entries && stats == imp.stats
  }

  method BufferEntry(batch: WriteBatch, entry: Snapshot.Entry, before: Snapshot.ImportStats)
    returns (stats: Snapshot.ImportStats)
    requires batch.Valid()
    modifies batch
    ensures batch.Valid() && batch.ops == old(batch.ops) + Snapshot.EntryOps(entry)
    ensures stats == Snapshot.Count(before, entry)
  {
    stats := before;
    match entry
    case AccountEntry(a, info) =>
      batch.SetAccount(a, info);
      stats := stats.(accounts := stats.accounts + 1);
    case StorageEntry(a, s, v) =>
      batch.SetStorage(a, s, v);
      stats := stats.(storageSlots := stats.storageSlots + 1);
    case CodeEntry(h, c) =>
      batch.SetCode(h, c);
      stats := stats.(codeEntries := stats.codeEntries + 1);
    case MetadataEntry(head) =>
      stats := stats.(headBlock := Some(head));
  }

  /** One parsed entry: into the batch and, when the batch is full, out to disk. */
  method HandleEntry(
    target: Target, before: WriteBatch, ghost start: Snapshot.Disk, size: nat, line: nat, entry: Snapshot.Entry,
    n: nat, counts: Snapshot.ImportStats, ghost imp: Snapshot.Import)
    returns (batch: WriteBatch, entries: nat, stats: Snapshot.ImportStats)
    requires InStep(target, before, start, imp, n, counts) && imp.line == line
    modifies target, target.db, before
    ensures InStep(target, batch, start, Snapshot.TakeEntry(size, imp, entry), entries, stats)
    ensures batch == before || fresh(batch)
  {
    batch := before;
    stats := BufferEntry(batch, entry, counts);
    entries := n + 1;
    if entries >= size {
      target.Commit(batch, start);
      target.WriteProgress(line, start);
      entries := 0;
      batch := new WriteBatch(target.db);
    }
  }

  /** The last batch, with the head if a metadata line was read. */
  method Finish(target: Target, batch: WriteBatch, ghost start: Snapshot.Disk, stats: Snapshot.ImportStats,
    ghost imp: Snapshot.Import)
    requires InStep(target, batch, start, imp, imp.entries, stats)
    modifies target, target.db, batch
    ensures target.Follows(start)
    ensures var head := if stats.headBlock.Some? then [SetHead(stats.headBlock.value)] else [];
      target.trail == imp.effects + [Snapshot.CommitBatch(imp.batch + head)] + [Snapshot.RemoveProgress]
  {
    if stats.headBlock.Some? {
      batch.SetHeadBlock(stats.headBlock.value);
    } else {
      assert imp.batch + [] == imp.batch;
    }
    target.Commit(batch, start);
    target.RemoveProgress(start);
  }

  lemma {:induction false} BadLineSticks(file: seq<Snapshot.Line>, skip: nat, size: nat, n: nat, m: nat)
    requires n <= m <= |file| && Snapshot.Lines(file, skip, size, n).badLine.Some?
    ensures Snapshot.Lines(file, skip, size, m) == Snapshot.Lines(file, skip, size, n)
    decreases m
  {
    if n < m { BadLineSticks(file, skip, size, n, m - 1); }
  }

  /** Imports the lines of a snapshot, skipping those an earlier run recorded as
      done. Its steps, and their order, are exactly those of the model's run; a bad
      line is reported by its number. */
  method ImportLines(target: Target, file: seq<Snapshot.Line>, size: nat)
    returns (r: Result<Snapshot.ImportStats, nat>)
    requires target.db.Valid() && target.trail == []
    modifies target, target.db
    ensures var skip := Snapshot.ReadProgress(old(target.progress));
      var imp := Snapshot.Lines(file, skip, size, |file|);
      && target.Follows(old(target.Disk()))
      && target.trail == Snapshot.RunEffects(file, skip, size)
      && r == if imp.badLine.Some? then Err(imp.badLine.value) else Ok(imp.stats)
  {
    ghost var start := target.Disk();
    var skip := Snapshot.ReadProgress(target.progress);
    var stats := Snapshot.ImportStats(0, 0, 0, None);
    var line: nat, entries: nat := 0, 0;
    var batch := new WriteBatch(target.db);
    ghost var imp := Snapshot.NewImport(skip);
    for n := 0 to |file|
      invariant imp == Snapshot.Lines(file, skip, size, n) && imp.badLine.None? && imp.line == line
      invariant InStep(target, batch, start, imp, entries, stats)
      invariant fresh(batch)
    {
      ghost var next := imp.(line := imp.line + 1);
      Snapshot.TakeLineCases(skip, size, imp, file[n]);
      imp := Snapshot.TakeLine(skip, size, imp, file[n]);
      line := line + 1;
      if line <= skip {
        continue;
      }
      if file[n].Blank? {
        continue;
      }
      if file[n].Bad? {
        BadLineSticks(file, skip, size, n + 1, |file|);
        return Err(line);
      }
      batch, entries, stats := HandleEntry(target, batch, start, size, line, file[n].entry, entries, stats, next);
    }
    Finish(target, batch, start, stats, imp);
    return Ok(stats);
  }

  method ImportSnapshot(target: Target, file: seq<Snapshot.Line>) returns (r: Result<Snapshot.ImportStats, nat>)
    requires target.db.Valid() && target.trail == []
    modifies target, target.db
    ensures target.db.Valid()
    ensures target.Disk() == Snapshot.AfterRun(file, Snapshot.BATCH_SIZE, old(target.Disk()))
    ensures var skip := Snapshot.ReadProgress(old(target.progress));
      && target.trail == Snapshot.RunEffects(file, skip, Snapshot.BATCH_SIZE)
      && (r.Ok? <==> Snapshot.Completes(file, skip, Snapshot.BATCH_SIZE))
  {
    r := ImportLines(target, file, Snapshot.BATCH_SIZE);
  }
}
