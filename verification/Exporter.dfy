/** Snapshot export (crates/snapshot), and the round trip through an import. */
module Exporter {
  import opened Types
  import opened Codec
  import opened StateTables
  import Store
  import opened Snapshot
  import Resume

  datatype ExportStats = ExportStats(accounts: nat, storageSlots: nat, codeEntries: nat, headBlock: Option<U64>)

  function AccountLine(x: (Address, AccountInfo)): Entry {
    AccountEntry(x.0, x.1)
  }

  function StorageLine(x: ((Address, Word), Word)): Entry {
    StorageEntry(x.0.0, x.0.1, x.1)
  }

  function CodeLine(x: (Word, Bytes)): Entry {
    CodeEntry(x.0, x.1)
  }

  /** One line for each element of a table. */
  function EachLine<T>(xs: seq<T>, line: T -> Entry): seq<Entry> {
    seq(|xs|, i requires 0 <= i < |xs| => line(xs[i]))
  }

  function HeadEntries(head: Option<U64>): seq<Entry> {
    if head.Some? then [MetadataEntry(head.value)] else []
  }

  /** What the store's iterators and head read yield. */
  datatype Contents = Contents(
    accounts: seq<(Address, AccountInfo)>,
    storage: seq<((Address, Word), Word)>,
    code: seq<(Word, Bytes)>,
    head: Option<U64>)
  {
    function Body(): seq<Entry> {
      EachLine(accounts, AccountLine) + EachLine(storage, StorageLine) + EachLine(code, CodeLine)
    }

    function Entries(): seq<Entry> {
      Body() + HeadEntries(head)
    }

    function Stats(): ExportStats {
      ExportStats(|accounts|, |storage|, |code|, head)
    }
  }

  ghost predicate Yields(raw: Store.Raw, c: Contents) {
    && (exists ks ::
         Store.Listing(raw, Store.Accounts, ks) && Store.Walk(ks, Store.AccountEntry(raw)) == Ok(c.accounts))
    && (exists ks :: Store.Listing(raw, Store.Storage, ks) && Store.Walk(ks, Store.StorageEntry(raw)) == Ok(c.storage))
    && (exists ks :: Store.Listing(raw, Store.Code, ks) && Store.Walk(ks, Store.CodeEntry(raw)) == Ok(c.code))
    && Store.HeadIn(raw) == Ok(c.head)
  }

  ghost predicate AccountsFail(raw: Store.Raw, e: Store.StoreError) {
    exists ks :: Store.Listing(raw, Store.Accounts, ks) && Store.Walk(ks, Store.AccountEntry(raw)) == Err(e)
  }

  method WriteTable<T>(xs: seq<T>, line: T -> Entry) returns (lines: seq<Entry>, count: nat)
    ensures lines == EachLine(xs, line) && count == |xs|
  {
    lines, count := [], 0;
    for i := 0 to |xs|
      invariant lines == EachLine(xs[..i], line) && count == i
    {
      lines, count := lines + [line(xs[i])], count + 1;
    }
    assert xs[..|xs|] == xs;
  }

  /** Writes out every table, one entry a line; an entry that does not decode
      under an account key, or a head of the wrong length, is an error. */
  method ExportSnapshot(db: Store.StateDb) returns (written: seq<Entry>, r: Result<ExportStats, Store.StoreError>)
    ensures r.Ok? ==> exists c :: Yields(db.raw, c) && written == c.Entries() && r == Ok(c.Stats())
    ensures r.Err? ==>
      || Store.HeadIn(db.raw) == Err(r.error)
      || (written == [] && AccountsFail(db.raw, r.error))
  {
    written := [];
    var accounts := db.IterAccounts();
    if accounts.Err? {
      return [], Err(accounts.error);
    }
    var accountLines, accountCount := WriteTable(accounts.value, AccountLine);
    var storage := db.IterStorage();
    var storageLines, storageCount := WriteTable(storage, StorageLine);
    var code := db.IterCode();
    var codeLines, codeCount := WriteTable(code, CodeLine);
    written := accountLines + storageLines + codeLines;
    var head := db.GetHeadBlock();
    if head.Err? {
      return written, Err(head.error);
    }
    ghost var c := Contents(accounts.value, storage, code, head.value);
    assert Yields(db.raw, c);
    if head.value.Some? {
      written := written + [MetadataEntry(head.value.value)];
    } else {
      assert written + [] == written;
    }
    assert written == c.Entries();
    return written, Ok(ExportStats(accountCount, storageCount, codeCount, head.value));
  }

  // ---- what the entries amount to ----

  function Lines(entries: seq<Entry>): seq<Line> {
    seq(|entries|, i requires 0 <= i < |entries| => Good(entries[i]))
  }

  /** The write an entry makes. */
  function EntryOp(e: Entry): Op {
    match e
    case AccountEntry(a, info) => SetAccount(a, info)
    case StorageEntry(a, s, v) => SetStorage(a, s, v)
    case CodeEntry(h, c) => SetCode(h, c)
    case MetadataEntry(head) => SetHead(head)
  }

  /** The contents are those of `t`, each entry once. */
  ghost predicate Complete(c: Contents, t: Tables) {
    && Store.Enumerates(c.accounts, t.accounts)
    && Store.Enumerates(c.storage, t.storage)
    && Store.Enumerates(c.code, t.code)
    && c.head == t.head
  }

  /** Export of a database that stands for `t` misses nothing and repeats nothing. */
  lemma YieldsComplete(raw: Store.Raw, t: Tables, c: Contents)
    requires Store.Represents(raw, t) && Yields(raw, c)
    ensures Complete(c, t)
  {
    var ka :| Store.Listing(raw, Store.Accounts, ka) && Store.Walk(ka, Store.AccountEntry(raw)) == Ok(c.accounts);
    Store.AccountIteration(raw, t, ka);
    var ks :| Store.Listing(raw, Store.Storage, ks) && Store.Walk(ks, Store.StorageEntry(raw)) == Ok(c.storage);
    Store.StorageIteration(raw, t, ks);
    var kc :| Store.Listing(raw, Store.Code, kc) && Store.Walk(kc, Store.CodeEntry(raw)) == Ok(c.code);
    Store.CodeIteration(raw, t, kc);
    Store.ReadsRefine(raw, t, 0, 0, 0);
  }

  lemma EnumeratesCount<K, V>(xs: seq<(K, V)>, m: map<K, V>)
    requires Store.Enumerates(xs, m)
    ensures |xs| == |m.Keys|
  {
    var keys := set i | 0 <= i < |xs| :: xs[i].0;
    assert keys == m.Keys;
    DistinctCount(xs);
  }

  lemma {:induction false} DistinctCount<K, V>(xs: seq<(K, V)>)
    requires forall i, j :: 0 <= i < j < |xs| ==> xs[i].0 != xs[j].0
    ensures |set i | 0 <= i < |xs| :: xs[i].0| == |xs|
  {
    if xs != [] {
      var n := |xs| - 1;
      DistinctCount(xs[..n]);
      var before := set i | 0 <= i < n :: xs[..n][i].0;
      assert (set i | 0 <= i < |xs| :: xs[i].0) == before + {xs[n].0};
    }
  }

  /** The reported counts are the sizes of the tables, and the head theirs. */
  lemma ExportCounts(raw: Store.Raw, t: Tables, c: Contents)
    requires Store.Represents(raw, t) && Yields(raw, c)
    ensures c.Stats() == ExportStats(|t.accounts.Keys|, |t.storage.Keys|, |t.code.Keys|, t.head)
  {
    YieldsComplete(raw, t, c);
    EnumeratesCount(c.accounts, t.accounts);
    EnumeratesCount(c.storage, t.storage);
    EnumeratesCount(c.code, t.code);
  }

  /** Where each table's entries are in the body. */
  lemma BodyAt(c: Contents, k: nat)
    ensures |c.Body()| == |c.accounts| + |c.storage| + |c.code|
    ensures k < |c.accounts| ==> c.Body()[k] == AccountEntry(c.accounts[k].0, c.accounts[k].1)
    ensures k < |c.storage| ==>
      c.Body()[|c.accounts| + k] == StorageEntry(c.storage[k].0.0, c.storage[k].0.1, c.storage[k].1)
    ensures k < |c.code| ==>
      c.Body()[|c.accounts| + |c.storage| + k] == CodeEntry(c.code[k].0, c.code[k].1)
  {
    var accounts, storage, code :=
      EachLine(c.accounts, AccountLine), EachLine(c.storage, StorageLine), EachLine(c.code, CodeLine);
    assert c.Body() == accounts + storage + code;
    assert k < |c.accounts| ==> accounts[k] == AccountLine(c.accounts[k]);
    assert k < |c.storage| ==> storage[k] == StorageLine(c.storage[k]);
    assert k < |c.code| ==> code[k] == CodeLine(c.code[k]);
  }

  lemma BodyIs(c: Contents, i: nat)
    requires i < |c.Body()|
    ensures var n, m := |c.accounts|, |c.storage|;
      && |c.Body()| == n + m + |c.code|
      && c.Body()[i] ==
           if i < n then AccountLine(c.accounts[i])
           else if i < n + m then StorageLine(c.storage[i - n])
           else CodeLine(c.code[i - n - m])
  {
    var n, m := |c.accounts|, |c.storage|;
    BodyAt(c, if i < n then i else if i < n + m then i - n else i - n - m);
  }

  /** Entry `i` of the body is what `t` holds under its key. */
  lemma BodyHolds(c: Contents, t: Tables, i: nat)
    requires Complete(c, t) && i < |c.Body()|
    ensures var op := EntryOp(c.Body()[i]);
      !c.Body()[i].MetadataEntry? && op.Value().Some? && Read(t, op.Key()) == op.Value()
  {
    var n, m := |c.accounts|, |c.storage|;
    BodyIs(c, i);
    assert i < n ==> c.accounts[i].0 in t.accounts;
    assert n <= i < n + m ==> c.storage[i - n].0 in t.storage;
    assert n + m <= i ==> c.code[i - n - m].0 in t.code;
  }

  lemma BodyDistinct(c: Contents, t: Tables, i: nat, j: nat)
    requires Complete(c, t) && i < j < |c.Body()|
    ensures EntryOp(c.Body()[i]).Key() != EntryOp(c.Body()[j]).Key()
  {
    var n, m := |c.accounts|, |c.storage|;
    BodyIs(c, i);
    BodyIs(c, j);
    if j < n {
      assert c.accounts[i].0 != c.accounts[j].0;
    } else if n <= i && j < n + m {
      assert c.storage[i - n].0 != c.storage[j - n].0;
    } else if n + m <= i {
      assert c.code[i - n - m].0 != c.code[j - n - m].0;
    }
  }

  lemma AccountCovered(c: Contents, t: Tables, a: Address) returns (i: nat)
    requires Store.Enumerates(c.accounts, t.accounts) && a in t.accounts
    ensures i < |c.Body()| && EntryOp(c.Body()[i]).Key() == AccountAt(a)
  {
    i :| i < |c.accounts| && c.accounts[i].0 == a;
    BodyAt(c, i);
  }

  lemma SlotCovered(c: Contents, t: Tables, a: Address, s: Word) returns (i: nat)
    requires Store.Enumerates(c.storage, t.storage) && (a, s) in t.storage
    ensures i < |c.Body()| && EntryOp(c.Body()[i]).Key() == SlotAt(a, s)
  {
    var k: nat :| k < |c.storage| && c.storage[k].0 == (a, s);
    BodyAt(c, k);
    i := |c.accounts| + k;
  }

  lemma CodeCovered(c: Contents, t: Tables, h: Word) returns (i: nat)
    requires Store.Enumerates(c.code, t.code) && h in t.code
    ensures i < |c.Body()| && EntryOp(c.Body()[i]).Key() == CodeAt(h)
  {
    var k: nat :| k < |c.code| && c.code[k].0 == h;
    BodyAt(c, k);
    i := |c.accounts| + |c.storage| + k;
  }

  /** The entries of `body` are those of `t`: nothing else, nothing twice, nothing
      missing, and no metadata among them. */
  ghost predicate Holds(body: seq<Entry>, t: Tables) {
    && (forall i :: 0 <= i < |body| ==> HoldsEntry(body[i], t))
    && (forall i, j :: 0 <= i < j < |body| ==> EntryOp(body[i]).Key() != EntryOp(body[j]).Key())
    && (forall key: Key :: !key.HeadBlock? && Read(t, key).Some? ==> Has(body, key))
  }

  predicate HoldsEntry(e: Entry, t: Tables) {
    !e.MetadataEntry? && EntryOp(e).Value().Some? && Read(t, EntryOp(e).Key()) == EntryOp(e).Value()
  }

  ghost predicate Has(body: seq<Entry>, key: Key) {
    exists i :: 0 <= i < |body| && EntryOp(body[i]).Key() == key
  }

  lemma CompleteHolds(c: Contents, t: Tables)
    requires Complete(c, t)
    ensures Holds(c.Body(), t)
  {
    forall i | 0 <= i < |c.Body()| ensures HoldsEntry(c.Body()[i], t) { BodyHolds(c, t, i); }
    forall i, j | 0 <= i < j < |c.Body()| ensures EntryOp(c.Body()[i]).Key() != EntryOp(c.Body()[j]).Key() {
      BodyDistinct(c, t, i, j);
    }
    forall key: Key | !key.HeadBlock? && Read(t, key).Some? ensures Has(c.Body(), key) {
      match key
      case AccountAt(a) => var i := AccountCovered(c, t, a);
      case SlotAt(a, s) => var i := SlotCovered(c, t, a, s);
      case CodeAt(h) => var i := CodeCovered(c, t, h);
    }
  }

  lemma {:induction false} OpsOfEntries(entries: seq<Entry>)
    requires forall i :: 0 <= i < |entries| ==> !entries[i].MetadataEntry?
    ensures |Ops(Lines(entries))| == |entries|
    ensures forall i :: 0 <= i < |entries| ==> Ops(Lines(entries))[i] == EntryOp(entries[i])
    ensures LastMetadata(Lines(entries)) == None
  {
    if entries != [] {
      var n := |entries| - 1;
      assert Lines(entries)[..n] == Lines(entries[..n]);
      OpsOfEntries(entries[..n]);
    }
  }

  /** Importing the body writes every entry of `t` once. */
  lemma BodyWrites(body: seq<Entry>, t: Tables, key: Key)
    requires Holds(body, t) && !key.HeadBlock?
    ensures LastWrite(Ops(Lines(body)), key) == if Read(t, key).Some? then Some(Read(t, key)) else None
  {
    forall i | 0 <= i < |body| ensures !body[i].MetadataEntry? { assert HoldsEntry(body[i], t); }
    OpsOfEntries(body);
    var ops := Ops(Lines(body));
    if Read(t, key).Some? {
      assert Has(body, key);
      var i: nat :| i < |body| && EntryOp(body[i]).Key() == key;
      assert HoldsEntry(body[i], t);
      SingleWrite(ops, i);
    } else {
      WrittenByEntry(ops, key);
      forall i | 0 <= i < |ops| ensures ops[i].Key() != key { assert HoldsEntry(body[i], t); }
    }
  }

  lemma LinesNext(body: seq<Entry>, e: Entry)
    ensures Lines(body + [e]) == Lines(body) + [Good(e)]
  {
  }

  lemma HeadLine(lines: seq<Line>, head: U64)
    ensures Ops(lines + [Good(MetadataEntry(head))]) == Ops(lines)
    ensures LastMetadata(lines + [Good(MetadataEntry(head))]) == Some(head)
  {
    OpsNext(lines, Good(MetadataEntry(head)));
    MetadataNext(lines, Good(MetadataEntry(head)));
    assert Ops(lines) + [] == Ops(lines);
  }

  /** The metadata line at the end adds the head and nothing else. */
  lemma EntriesLines(body: seq<Entry>, head: Option<U64>)
    requires forall i :: 0 <= i < |body| ==> !body[i].MetadataEntry?
    ensures Ops(Lines(body + HeadEntries(head))) == Ops(Lines(body))
    ensures LastMetadata(Lines(body + HeadEntries(head))) == head
  {
    if head.Some? {
      LinesNext(body, MetadataEntry(head.value));
      HeadLine(Lines(body), head.value);
    } else {
      OpsOfEntries(body);
      assert body + HeadEntries(head) == body;
    }
  }

  /** An import of good lines into an empty database, from start to end. */
  lemma WholeImport(file: seq<Line>, size: nat)
    requires |file| < 0x1_0000_0000_0000_0000 && NoBad(file)
    ensures Completes(file, 0, size)
    ensures var u := AfterRun(file, size, Disk(EMPTY, None));
      && u.progress == None && u.tables.head == LastMetadata(file)
      && forall key: Key :: !key.HeadBlock? ==> Read(u.tables, key) == Target(file, EMPTY, key)
  {
    Resume.FreshSound(file, EMPTY);
    Resume.CompletesIff(file, 0, size);
    assert file[0..] == file;
    Resume.CompletingRun(file, EMPTY, Disk(EMPTY, None), size);
  }

  lemma SameTables(u: Tables, t: Tables, file: seq<Line>)
    requires u.head == t.head
    requires forall key: Key :: !key.HeadBlock? ==> Read(u, key) == Target(file, EMPTY, key)
    requires forall key: Key :: !key.HeadBlock? ==> Target(file, EMPTY, key) == Read(t, key)
    ensures u == t
  {
    forall key: Key ensures Read(u, key) == Read(t, key) {
      if !key.HeadBlock? { assert Read(u, key) == Target(file, EMPTY, key); }
    }
    ReadsDetermine(u, t);
  }

  lemma NoMetadata(body: seq<Entry>, t: Tables)
    requires Holds(body, t)
    ensures forall i :: 0 <= i < |body| ==> !body[i].MetadataEntry?
  {
    forall i | 0 <= i < |body| ensures !body[i].MetadataEntry? { assert HoldsEntry(body[i], t); }
  }

  /** What the lines of an export amount to. */
  lemma BodyTargets(body: seq<Entry>, t: Tables)
    requires Holds(body, t)
    ensures var file := Lines(body + HeadEntries(t.head));
      && NoBad(file) && LastMetadata(file) == t.head
      && forall key: Key :: !key.HeadBlock? ==> Target(file, EMPTY, key) == Read(t, key)
  {
    NoMetadata(body, t);
    EntriesLines(body, t.head);
    forall key: Key | !key.HeadBlock? ensures Target(Lines(body + HeadEntries(t.head)), EMPTY, key) == Read(t, key) {
      BodyWrites(body, t, key);
    }
  }

  lemma BodyRoundTrip(body: seq<Entry>, t: Tables, size: nat)
    requires Holds(body, t) && |body + HeadEntries(t.head)| < 0x1_0000_0000_0000_0000
    ensures Completes(Lines(body + HeadEntries(t.head)), 0, size)
    ensures AfterRun(Lines(body + HeadEntries(t.head)), size, Disk(EMPTY, None)) == Disk(t, None)
  {
    var file := Lines(body + HeadEntries(t.head));
    BodyTargets(body, t);
    WholeImport(file, size);
    SameTables(AfterRun(file, size, Disk(EMPTY, None)).tables, t, file);
  }

  /** Importing an export into an empty database rebuilds all four tables, wherever
      the batch boundaries fall. */
  lemma RoundTrip(c: Contents, t: Tables, size: nat)
    requires Complete(c, t) && |c.Entries()| < 0x1_0000_0000_0000_0000
    ensures Completes(Lines(c.Entries()), 0, size)
    ensures AfterRun(Lines(c.Entries()), size, Disk(EMPTY, None)) == Disk(t, None)
  {
    CompleteHolds(c, t);
    BodyRoundTrip(c.Body(), t, size);
  }

  lemma MetadataLast(c: Contents, skip: nat)
    requires skip <= |c.Entries()| && c.head.Some?
    ensures LastMetadata(Lines(c.Entries())[skip..]).Some? <==> skip < |c.Entries()|
  {
    var rest := Lines(c.Entries())[skip..];
    if rest != [] { assert rest[|rest| - 1] == Good(MetadataEntry(c.head.value)); }
  }

  /** The same after any crashes on the way. The head comes back exactly when the
      metadata line, the last of the file, is still to be read or has been before. */
  lemma RoundTripThroughCrashes(c: Contents, t: Tables, size: nat, cuts: seq<Cut>)
    requires Complete(c, t) && |c.Entries()| < 0x1_0000_0000_0000_0000
    ensures var file := Lines(c.Entries());
      var d := AfterCrashes(file, size, Disk(EMPTY, None), cuts);
      var resumed := AfterRun(file, size, d);
      && Completes(file, ReadProgress(d.progress), size)
      && Resume.SameState(resumed.tables, t) && resumed.progress == None
      && (resumed.tables.head == t.head <==> ReadProgress(d.progress) < |file| || d.tables.head == t.head)
  {
    var file := Lines(c.Entries());
    var d := AfterCrashes(file, size, Disk(EMPTY, None), cuts);
    RoundTrip(c, t, size);
    Resume.ResumedImport(file, size, EMPTY, cuts);
    if c.head.Some? { MetadataLast(c, ReadProgress(d.progress)); }
  }

  // ---- at the level of bytes ----

  function DecodeOp(k: (Store.Column, Bytes), v: Bytes): Op
    requires Store.WellShaped(k, v)
  {
    match k.0
    case Accounts => SetAccount(DecodeAddress(k.1), InfoFromBytes(v).value)
    case Storage => SetStorage(StorageKeyFromBytes(k.1).value.0, StorageKeyFromBytes(k.1).value.1, DecodeWord(v))
    case Code => SetCode(DecodeWord(k.1), v)
    case Metadata => SetHead(DecodeU64(v))
  }

  lemma DecodeOpKey(k: (Store.Column, Bytes), v: Bytes)
    requires Store.WellShaped(k, v)
    ensures Store.EncodeKey(DecodeOp(k, v).Key()) == k
  {
    Store.EncodeDecodeKey(k, v);
    assert DecodeOp(k, v).Key() == Store.DecodeKey(k);
  }

  lemma DecodeOpValue(k: (Store.Column, Bytes), v: Bytes)
    requires Store.WellShaped(k, v)
    ensures DecodeOp(k, v).Value().Some? && Store.EncodeValue(DecodeOp(k, v).Value().value) == v
  {
    match k.0
    case Accounts => InfoDecodeEncode(v);
    case Storage => WordOfBytes(v);
    case Code =>
    case Metadata => U64OfBytes(v);
  }

  lemma EncodeDecodeOp(k: (Store.Column, Bytes), v: Bytes)
    requires Store.WellShaped(k, v)
    ensures Store.EncodeOp(DecodeOp(k, v)) == Store.Put(k, v)
  {
    DecodeOpKey(k, v);
    DecodeOpValue(k, v);
  }

  /** Well-formed bytes stand for some tables. */
  lemma {:induction false} WellFormedRepresents(raw: Store.Raw) returns (t: Tables)
    requires Store.WellFormed(raw)
    ensures Store.Represents(raw, t)
  {
    if raw == map[] {
      t := EMPTY;
    } else {
      var k :| k in raw;
      var rest := raw - {k};
      var t' := WellFormedRepresents(rest);
      var op := DecodeOp(k, raw[k]);
      EncodeDecodeOp(k, raw[k]);
      t := Apply(t', [op]);
      Store.BatchRefines(rest, t', [op]);
      assert Store.EncodeOps([op]) == [Store.Put(k, raw[k])];
      assert Store.ApplyRaw(rest, []) == rest;
      assert Store.ApplyRaw(rest, [Store.Put(k, raw[k])]) == raw;
    }
  }

  /** Exporting any store and importing the result into an empty one gives back the
      same bytes exactly when the store is well formed. */
  lemma ByteRoundTrip(raw: Store.Raw, c: Contents, size: nat, raw': Store.Raw)
    requires Yields(raw, c) && |c.Entries()| < 0x1_0000_0000_0000_0000
    requires Store.Represents(raw', AfterRun(Lines(c.Entries()), size, Disk(EMPTY, None)).tables)
    ensures raw' == raw <==> Store.WellFormed(raw)
  {
    if Store.WellFormed(raw) {
      var t := WellFormedRepresents(raw);
      YieldsComplete(raw, t, c);
      RoundTrip(c, t, size);
      Store.RepresentsInjective(raw, raw', t);
    }
  }
}
