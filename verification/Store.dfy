/** The key-value store and its write batches (crates/state-db), at byte level. */
module Store {
  import opened Types
  import opened Codec
  import opened Ordering
  import opened StateTables

  datatype Column = Accounts | Storage | Code | Metadata

  type Raw = map<(Column, Bytes), Bytes>

  datatype StoreError = AccountDecode(got: nat) | InvalidStorageValue(got: nat) | InvalidHeadBlock(got: nat)

  datatype RawOp = Put(key: (Column, Bytes), value: Bytes) | Delete(key: (Column, Bytes))

  function ApplyRawOp(raw: Raw, op: RawOp): Raw {
    match op
    case Put(k, v) => raw[k := v]
    case Delete(k) => raw - {k}
  }

  function ApplyRaw(raw: Raw, ops: seq<RawOp>): Raw {
    if ops == [] then raw else ApplyRawOp(ApplyRaw(raw, ops[..|ops| - 1]), ops[|ops| - 1])
  }

  // ---- what the bytes stand for ----

  function EncodeKey(key: Key): (Column, Bytes) {
    match key
    case AccountAt(a) => (Accounts, EncodeAddress(a))
    case SlotAt(a, s) => (Storage, EncodeStorageKey((a, s)))
    case CodeAt(h) => (Code, EncodeWord(h))
    case HeadBlock => (Metadata, HEAD_KEY)
  }

  function EncodeValue(v: Value): Bytes {
    match v
    case AccountValue(info) => EncodeInfo(info)
    case SlotValue(w) => EncodeWord(w)
    case CodeValue(c) => c
    case HeadValue(n) => EncodeU64(n)
  }

  function EncodeOp(op: Op): RawOp {
    if op.Value().Some? then Put(EncodeKey(op.Key()), EncodeValue(op.Value().value))
    else Delete(EncodeKey(op.Key()))
  }

  function EncodeOps(ops: seq<Op>): seq<RawOp> {
    seq(|ops|, i requires 0 <= i < |ops| => EncodeOp(ops[i]))
  }

  /** Keys and values have the lengths their column calls for. */
  predicate WellShaped(key: (Column, Bytes), value: Bytes) {
    match key.0
    case Accounts => |key.1| == 20 && |value| == 72
    case Storage => |key.1| == 52 && |value| == 32
    case Code => |key.1| == 32
    case Metadata => key.1 == HEAD_KEY && |value| == 8
  }

  predicate WellFormed(raw: Raw) {
    forall k :: k in raw ==> WellShaped(k, raw[k])
  }

  /** `raw` holds exactly the entries of `t`. */
  ghost predicate Represents(raw: Raw, t: Tables) {
    && WellFormed(raw)
    && forall key :: Entry(raw, t, key)
  }

  ghost predicate Entry(raw: Raw, t: Tables, key: Key) {
    && (EncodeKey(key) in raw <==> Read(t, key).Some?)
    && (Read(t, key).Some? ==> raw[EncodeKey(key)] == EncodeValue(Read(t, key).value))
  }

  function DecodeKey(key: (Column, Bytes)): Key {
    match key.0
    case Accounts => if |key.1| == 20 then AccountAt(DecodeAddress(key.1)) else HeadBlock
    case Storage =>
      var r := StorageKeyFromBytes(key.1);
      if r.Ok? then SlotAt(r.value.0, r.value.1) else HeadBlock
    case Code => if |key.1| == 32 then CodeAt(DecodeWord(key.1)) else HeadBlock
    case Metadata => HeadBlock
  }

  lemma DecodeEncodeKey(key: Key)
    ensures DecodeKey(EncodeKey(key)) == key
  {
    if key.SlotAt? { StorageKeyEncodeDecode((key.address, key.slot)); }
  }

  lemma EncodeDecodeKey(key: (Column, Bytes), value: Bytes)
    requires WellShaped(key, value)
    ensures EncodeKey(DecodeKey(key)) == key
  {
    match key.0
    case Accounts => AddressOfBytes(key.1);
    case Storage => StorageKeyDecodeEncode(key.1);
    case Code => WordOfBytes(key.1);
    case Metadata =>
  }

  lemma EncodeKeyInjective(k: Key, l: Key)
    requires EncodeKey(k) == EncodeKey(l)
    ensures k == l
  {
    DecodeEncodeKey(k);
    DecodeEncodeKey(l);
  }

  lemma WriteKeepsShape(raw: Raw, op: Op)
    requires WellFormed(raw)
    ensures WellFormed(ApplyRawOp(raw, EncodeOp(op)))
  {
    if op.Value().Some? { assert WellShaped(EncodeKey(op.Key()), EncodeValue(op.Value().value)); }
  }

  lemma WriteEntry(raw: Raw, t: Tables, op: Op, key: Key)
    requires Entry(raw, t, key)
    ensures Entry(ApplyRawOp(raw, EncodeOp(op)), ApplyOp(t, op), key)
  {
    var k, value := EncodeKey(key), op.Value();
    if key == op.Key() {
      assert Read(ApplyOp(t, op), key) == value;
    } else {
      assert k != EncodeKey(op.Key()) by {
        if k == EncodeKey(op.Key()) { EncodeKeyInjective(key, op.Key()); }
      }
    }
  }

  /** A committed batch: byte level and table level stay in step. */
  lemma {:induction false} BatchRefines(raw: Raw, t: Tables, ops: seq<Op>)
    requires Represents(raw, t)
    ensures Represents(ApplyRaw(raw, EncodeOps(ops)), Apply(t, ops))
  {
    if ops != [] {
      var init, op := ops[..|ops| - 1], ops[|ops| - 1];
      BatchRefines(raw, t, init);
      assert EncodeOps(ops)[..|ops| - 1] == EncodeOps(init);
      var before := ApplyRaw(raw, EncodeOps(init));
      WriteKeepsShape(before, op);
      forall key { WriteEntry(before, Apply(t, init), op, key); }
    }
  }

  lemma EntriesAgree(raw: Raw, t: Tables, u: Tables, key: Key)
    requires Entry(raw, t, key) && Entry(raw, u, key)
    ensures Read(t, key) == Read(u, key)
  {
    if Read(t, key).Some? && key.AccountAt? {
      InfoEncodeDecode(t.accounts[key.address]);
      InfoEncodeDecode(u.accounts[key.address]);
    }
  }

  /** The bytes determine the tables... */
  lemma RepresentsFunctional(raw: Raw, t: Tables, u: Tables)
    requires Represents(raw, t) && Represents(raw, u)
    ensures t == u
  {
    forall key ensures Read(t, key) == Read(u, key) {
      assert Entry(raw, t, key) && Entry(raw, u, key);
      EntriesAgree(raw, t, u, key);
    }
    ReadsDetermine(t, u);
  }

  /** ...and the tables determine the bytes. */
  lemma RepresentsInjective(raw: Raw, raw': Raw, t: Tables)
    requires Represents(raw, t) && Represents(raw', t)
    ensures raw == raw'
  {
    forall k ensures k in raw <==> k in raw'
             ensures k in raw ==> raw[k] == raw'[k] {
      if k in raw { EncodeDecodeKey(k, raw[k]); }
      if k in raw' { EncodeDecodeKey(k, raw'[k]); }
      assert Entry(raw, t, DecodeKey(k)) && Entry(raw', t, DecodeKey(k));
    }
  }

  // ---- reads ----

  function AccountIn(raw: Raw, a: Address): Result<Option<AccountInfo>, StoreError> {
    var k := EncodeKey(AccountAt(a));
    if k !in raw then Ok(None)
    else
      match InfoFromBytes(raw[k])
      case Ok(info) => Ok(Some(info))
      case Err(e) => Err(AccountDecode(e.got))
  }

  function StorageIn(raw: Raw, a: Address, s: Word): Result<Option<Word>, StoreError> {
    var k := EncodeKey(SlotAt(a, s));
    if k !in raw then Ok(None)
    else if |raw[k]| != 32 then Err(InvalidStorageValue(|raw[k]|))
    else Ok(Some(DecodeWord(raw[k])))
  }

  function CodeIn(raw: Raw, h: Word): Option<Bytes> {
    Lookup(raw, EncodeKey(CodeAt(h)))
  }

  function HeadIn(raw: Raw): Result<Option<U64>, StoreError> {
    var k := EncodeKey(HeadBlock);
    if k !in raw then Ok(None)
    else if |raw[k]| != 8 then Err(InvalidHeadBlock(|raw[k]|))
    else Ok(Some(DecodeU64(raw[k])))
  }

  lemma AccountReadRefines(raw: Raw, t: Tables, a: Address)
    requires Represents(raw, t)
    ensures AccountIn(raw, a) == Ok(Lookup(t.accounts, a))
  {
    assert Entry(raw, t, AccountAt(a));
    if a in t.accounts { InfoEncodeDecode(t.accounts[a]); }
  }

  lemma StorageReadRefines(raw: Raw, t: Tables, a: Address, s: Word)
    requires Represents(raw, t)
    ensures StorageIn(raw, a, s) == Ok(Lookup(t.storage, (a, s)))
  {
    assert Entry(raw, t, SlotAt(a, s));
  }

  lemma CodeReadRefines(raw: Raw, t: Tables, h: Word)
    requires Represents(raw, t)
    ensures CodeIn(raw, h) == Lookup(t.code, h)
  {
    assert Entry(raw, t, CodeAt(h));
  }

  lemma HeadReadRefines(raw: Raw, t: Tables)
    requires Represents(raw, t)
    ensures HeadIn(raw) == Ok(t.head)
  {
    assert Entry(raw, t, HeadBlock);
  }

  /** Every getter finds exactly what the tables hold, and never an error. */
  lemma ReadsRefine(raw: Raw, t: Tables, a: Address, s: Word, h: Word)
    requires Represents(raw, t)
    ensures AccountIn(raw, a) == Ok(Lookup(t.accounts, a))
    ensures StorageIn(raw, a, s) == Ok(Lookup(t.storage, (a, s)))
    ensures CodeIn(raw, h) == Lookup(t.code, h)
    ensures HeadIn(raw) == Ok(t.head)
  {
    AccountReadRefines(raw, t, a);
    StorageReadRefines(raw, t, a, s);
    CodeReadRefines(raw, t, h);
    HeadReadRefines(raw, t);
  }

  // ---- iteration ----

  ghost function ColumnKeys(raw: Raw, c: Column): set<Bytes> {
    set k | k in raw && k.0 == c :: k.1
  }

  /** `ks` lists the keys of column `c` in the bytewise order of the store. */
  ghost predicate Listing(raw: Raw, c: Column, ks: seq<Bytes>) {
    && Ascending(ks, LexLess)
    && forall k :: k in ks <==> (c, k) in raw
  }

  lemma LexStrictTotal()
    ensures StrictTotal(LexLess)
  {
    forall a, b { LexTotal(a, b); }
    forall a, b, c | LexLess(a, b) && LexLess(b, c) { LexTransitive(a, b, c); }
  }

  ghost predicate Enumerates<K, V>(xs: seq<(K, V)>, m: map<K, V>) {
    && (forall i :: 0 <= i < |xs| ==> xs[i].0 in m && m[xs[i].0] == xs[i].1)
    && (forall k :: k in m ==> exists i :: 0 <= i < |xs| && xs[i].0 == k)
    && (forall i, j :: 0 <= i < j < |xs| ==> xs[i].0 != xs[j].0)
  }

  /** What walking `ks` collects: `f` skips a key, yields an entry, or stops the
      walk with an error. */
  function Walk<T>(ks: seq<Bytes>, f: Bytes -> Result<Option<T>, StoreError>): Result<seq<T>, StoreError> {
    if ks == [] then Ok([])
    else
      match Walk(ks[..|ks| - 1], f)
      case Err(e) => Err(e)
      case Ok(xs) =>
        match f(ks[|ks| - 1])
        case Err(e) => Err(e)
        case Ok(x) => Ok(if x.Some? then xs + [x.value] else xs)
  }

  lemma {:induction false} WalkAll<T>(ks: seq<Bytes>, f: Bytes -> Result<Option<T>, StoreError>)
    requires forall k :: k in ks ==> f(k).Ok? && f(k).value.Some?
    ensures Walk(ks, f).Ok? && |Walk(ks, f).value| == |ks|
    ensures forall i :: 0 <= i < |ks| ==> Walk(ks, f).value[i] == f(ks[i]).value.value
  {
    if ks != [] {
      WalkAll(ks[..|ks| - 1], f);
      assert ks[|ks| - 1] in ks;
    }
  }

  lemma {:induction false} WalkErrorSticks<T>(ks: seq<Bytes>, f: Bytes -> Result<Option<T>, StoreError>, n: nat)
    requires n <= |ks| && Walk(ks[..n], f).Err?
    ensures Walk(ks, f) == Walk(ks[..n], f)
    decreases |ks|
  {
    if n == |ks| {
      assert ks[..n] == ks;
    } else {
      assert ks[..|ks| - 1][..n] == ks[..n];
      WalkErrorSticks(ks[..|ks| - 1], f, n);
    }
  }

  /** A storage entry of the wrong length is passed over. */
  function StorageEntry(raw: Raw): Bytes -> Result<Option<((Address, Word), Word)>, StoreError> {
    (k: Bytes) =>
      if (Storage, k) in raw && |k| == 52 && |raw[(Storage, k)]| == 32
      then Ok(Some((StorageKeyFromBytes(k).value, DecodeWord(raw[(Storage, k)]))))
      else Ok(None)
  }

  /** A value of the wrong length under a 20-byte account key is an error. */
  function AccountEntry(raw: Raw): Bytes -> Result<Option<(Address, AccountInfo)>, StoreError> {
    (k: Bytes) =>
      if (Accounts, k) in raw && |k| == 20 then
        match InfoFromBytes(raw[(Accounts, k)])
        case Ok(info) => Ok(Some((DecodeAddress(k), info)))
        case Err(e) => Err(AccountDecode(e.got))
      else Ok(None)
  }

  function CodeEntry(raw: Raw): Bytes -> Result<Option<(Word, Bytes)>, StoreError> {
    (k: Bytes) => if (Code, k) in raw && |k| == 32 then Ok(Some((DecodeWord(k), raw[(Code, k)]))) else Ok(None)
  }

  lemma WalkStep<T>(ks: seq<Bytes>, n: nat, f: Bytes -> Result<Option<T>, StoreError>)
    requires n < |ks| && Walk(ks[..n], f).Ok?
    ensures Walk(ks[..n + 1], f) ==
      match f(ks[n]) {
        case Err(e) => Err(e)
        case Ok(x) => Ok(if x.Some? then Walk(ks[..n], f).value + [x.value] else Walk(ks[..n], f).value)
      }
  {
    assert ks[..n + 1][..n] == ks[..n];
  }

  lemma StorageEntryRead(raw: Raw, t: Tables, k: Bytes)
    requires Represents(raw, t) && (Storage, k) in raw
    ensures StorageEntry(raw)(k).Ok? && StorageEntry(raw)(k).value.Some?
    ensures var x := StorageEntry(raw)(k).value.value;
      EncodeStorageKey(x.0) == k && x.0 in t.storage && t.storage[x.0] == x.1
  {
    assert WellShaped((Storage, k), raw[(Storage, k)]);
    StorageKeyDecodeEncode(k);
    WordOfBytes(raw[(Storage, k)]);
    var key := StorageKeyFromBytes(k).value;
    assert Entry(raw, t, SlotAt(key.0, key.1));
  }

  lemma AccountEntryRead(raw: Raw, t: Tables, k: Bytes)
    requires Represents(raw, t) && (Accounts, k) in raw
    ensures AccountEntry(raw)(k).Ok? && AccountEntry(raw)(k).value.Some?
    ensures var x := AccountEntry(raw)(k).value.value;
      EncodeAddress(x.0) == k && x.0 in t.accounts && t.accounts[x.0] == x.1
  {
    assert WellShaped((Accounts, k), raw[(Accounts, k)]);
    AddressOfBytes(k);
    assert Entry(raw, t, AccountAt(DecodeAddress(k)));
    InfoEncodeDecode(t.accounts[DecodeAddress(k)]);
  }

  lemma CodeEntryRead(raw: Raw, t: Tables, k: Bytes)
    requires Represents(raw, t) && (Code, k) in raw
    ensures CodeEntry(raw)(k).Ok? && CodeEntry(raw)(k).value.Some?
    ensures var x := CodeEntry(raw)(k).value.value;
      EncodeWord(x.0) == k && x.0 in t.code && t.code[x.0] == x.1
  {
    assert WellShaped((Code, k), raw[(Code, k)]);
    WordOfBytes(k);
    assert Entry(raw, t, CodeAt(DecodeWord(k)));
  }

  /** A listing of keys lists the entries behind them, each once. */
  lemma ListingEnumerates<K, V>(ks: seq<Bytes>, xs: seq<(K, V)>, m: map<K, V>, encode: K -> Bytes)
    requires Ascending(ks, LexLess) && |xs| == |ks|
    requires forall i :: 0 <= i < |xs| ==> encode(xs[i].0) == ks[i] && xs[i].0 in m && m[xs[i].0] == xs[i].1
    requires forall k :: k in m ==> encode(k) in ks
    requires forall k, l :: encode(k) == encode(l) ==> k == l
    ensures Enumerates(xs, m)
  {
    LexStrictTotal();
    forall k | k in m ensures exists i :: 0 <= i < |xs| && xs[i].0 == k {
      var i :| 0 <= i < |ks| && ks[i] == encode(k);
      assert encode(xs[i].0) == encode(k);
    }
  }

  predicate SlotBefore(k: (Address, Word), l: (Address, Word)) {
    k.0 < l.0 || (k.0 == l.0 && k.1 < l.1)
  }

  /** Walking the storage column yields each entry of the storage table once, in
      numeric order of address and then slot, so that the slots of one address
      are contiguous. */
  lemma StorageIteration(raw: Raw, t: Tables, ks: seq<Bytes>)
    requires Represents(raw, t) && Listing(raw, Storage, ks)
    ensures Walk(ks, StorageEntry(raw)).Ok?
    ensures var xs := Walk(ks, StorageEntry(raw)).value;
      && Enumerates(xs, t.storage)
      && (forall i, j :: 0 <= i < j < |xs| ==> SlotBefore(xs[i].0, xs[j].0))
      && (forall i, j, k :: 0 <= i < j < k < |xs| && xs[i].0.0 == xs[k].0.0 ==> xs[j].0.0 == xs[i].0.0)
  {
    var f := StorageEntry(raw);
    forall k | k in ks { StorageEntryRead(raw, t, k); }
    WalkAll(ks, f);
    var xs := Walk(ks, f).value;
    forall i | 0 <= i < |xs|
      ensures EncodeStorageKey(xs[i].0) == ks[i] && xs[i].0 in t.storage && t.storage[xs[i].0] == xs[i].1
    {
      assert ks[i] in ks;
      StorageEntryRead(raw, t, ks[i]);
    }
    forall i, j | 0 <= i < j < |xs| ensures SlotBefore(xs[i].0, xs[j].0) {
      assert LexLess(ks[i], ks[j]);
      StorageKeyOrder(xs[i].0, xs[j].0);
    }
    forall key | key in t.storage ensures EncodeStorageKey(key) in ks {
      assert Entry(raw, t, SlotAt(key.0, key.1));
    }
    forall k: (Address, Word), l: (Address, Word) | EncodeStorageKey(k) == EncodeStorageKey(l) ensures k == l {
      StorageKeyEncodeDecode(k);
      StorageKeyEncodeDecode(l);
    }
    ListingEnumerates(ks, xs, t.storage, EncodeStorageKey);
  }

  lemma AccountIteration(raw: Raw, t: Tables, ks: seq<Bytes>)
    requires Represents(raw, t) && Listing(raw, Accounts, ks)
    ensures Walk(ks, AccountEntry(raw)).Ok?
    ensures Enumerates(Walk(ks, AccountEntry(raw)).value, t.accounts)
  {
    var f := AccountEntry(raw);
    forall k | k in ks { AccountEntryRead(raw, t, k); }
    WalkAll(ks, f);
    forall i | 0 <= i < |ks| { AccountEntryRead(raw, t, ks[i]); }
    forall a | a in t.accounts ensures EncodeAddress(a) in ks { assert Entry(raw, t, AccountAt(a)); }
    forall a: Address, b: Address | EncodeAddress(a) == EncodeAddress(b) ensures a == b {
      EncodeKeyInjective(AccountAt(a), AccountAt(b));
    }
    ListingEnumerates(ks, Walk(ks, f).value, t.accounts, EncodeAddress);
  }

  lemma CodeIteration(raw: Raw, t: Tables, ks: seq<Bytes>)
    requires Represents(raw, t) && Listing(raw, Code, ks)
    ensures Walk(ks, CodeEntry(raw)).Ok?
    ensures Enumerates(Walk(ks, CodeEntry(raw)).value, t.code)
  {
    var f := CodeEntry(raw);
    forall k | k in ks { CodeEntryRead(raw, t, k); }
    WalkAll(ks, f);
    forall i | 0 <= i < |ks| { CodeEntryRead(raw, t, ks[i]); }
    forall h | h in t.code ensures EncodeWord(h) in ks { assert Entry(raw, t, CodeAt(h)); }
    forall h: Word, g: Word | EncodeWord(h) == EncodeWord(g) ensures h == g {
      EncodeKeyInjective(CodeAt(h), CodeAt(g));
    }
    ListingEnumerates(ks, Walk(ks, f).value, t.code, EncodeWord);
  }

  /** The database, its bytes, and the tables those bytes stand for. */
  class StateDb {
    var raw: Raw
    ghost var tables: Tables
    /** Every state the database has been left in by a commit, oldest first. */
    ghost var history: seq<Tables>

    ghost predicate Valid()
      reads this
    {
      Represents(raw, tables)
    }

    constructor ()
      ensures Valid() && tables == EMPTY && raw == map[] && history == []
    {
      raw := map[];
      tables := EMPTY;
      history := [];
    }

    method GetAccount(address: Address) returns (r: Result<Option<AccountInfo>, StoreError>)
      ensures r == AccountIn(raw, address)
      ensures Valid() ==> r == Ok(Lookup(tables.accounts, address))
    {
      r := AccountIn(raw, address);
      if Valid() { ReadsRefine(raw, tables, address, 0, 0); }
    }

    method GetStorage(address: Address, slot: Word) returns (r: Result<Option<Word>, StoreError>)
      ensures r == StorageIn(raw, address, slot)
      ensures Valid() ==> r == Ok(Lookup(tables.storage, (address, slot)))
    {
      r := StorageIn(raw, address, slot);
      if Valid() { StorageReadRefines(raw, tables, address, slot); }
    }

    method GetCode(hash: Word) returns (r: Option<Bytes>)
      ensures r == CodeIn(raw, hash)
      ensures Valid() ==> r == Lookup(tables.code, hash)
    {
      r := CodeIn(raw, hash);
      if Valid() { ReadsRefine(raw, tables, 0, 0, hash); }
    }

    method GetHeadBlock() returns (r: Result<Option<U64>, StoreError>)
      ensures r == HeadIn(raw)
      ensures Valid() ==> r == Ok(tables.head)
    {
      r := HeadIn(raw);
      if Valid() { ReadsRefine(raw, tables, 0, 0, 0); }
    }

    /** The store's iterator over one column: its keys in bytewise order. */
    method Iterator(c: Column) returns (ks: seq<Bytes>)
      ensures Listing(raw, c, ks)
    {
      ks := [];
      var rest := set k | k in raw && k.0 == c :: k.1;
      LexStrictTotal();
      while rest != {}
        invariant rest <= ColumnKeys(raw, c)
        invariant forall k :: k in ks <==> k in ColumnKeys(raw, c) - rest
        invariant Ascending(ks, LexLess)
        invariant forall i, k :: 0 <= i < |ks| && k in rest ==> LexLess(ks[i], k)
      {
        LeastExists(rest, LexLess);
        var m :| m in rest && forall x | x in rest :: x != m ==> LexLess(m, x);
        ks, rest := ks + [m], rest - {m};
      }
    }

    method IterStorage() returns (xs: seq<((Address, Word), Word)>)
      ensures exists ks :: Listing(raw, Storage, ks) && Walk(ks, StorageEntry(raw)) == Ok(xs)
    {
      var ks := Iterator(Storage);
      xs := [];
      for n := 0 to |ks|
        invariant Walk(ks[..n], StorageEntry(raw)) == Ok(xs)
      {
        assert ks[n] in ks;
        WalkStep(ks, n, StorageEntry(raw));
        var value := raw[(Storage, ks[n])];
        if |ks[n]| != 52 || |value| != 32 {
          continue;
        }
        xs := xs + [(StorageKeyFromBytes(ks[n]).value, DecodeWord(value))];
      }
      assert ks[..|ks|] == ks;
    }

    method IterAccounts() returns (r: Result<seq<(Address, AccountInfo)>, StoreError>)
      ensures exists ks :: Listing(raw, Accounts, ks) && r == Walk(ks, AccountEntry(raw))
    {
      var ks := Iterator(Accounts);
      var xs := [];
      for n := 0 to |ks|
        invariant Walk(ks[..n], AccountEntry(raw)) == Ok(xs)
      {
        assert ks[n] in ks;
        WalkStep(ks, n, AccountEntry(raw));
        if |ks[n]| != 20 {
          continue;
        }
        var info := InfoFromBytes(raw[(Accounts, ks[n])]);
        if info.Err? {
          WalkErrorSticks(ks, AccountEntry(raw), n + 1);
          return Err(AccountDecode(info.error.got));
        }
        xs := xs + [(DecodeAddress(ks[n]), info.value)];
      }
      assert ks[..|ks|] == ks;
      return Ok(xs);
    }

    method IterCode() returns (xs: seq<(Word, Bytes)>)
      ensures exists ks :: Listing(raw, Code, ks) && Walk(ks, CodeEntry(raw)) == Ok(xs)
    {
      var ks := Iterator(Code);
      xs := [];
      for n := 0 to |ks|
        invariant Walk(ks[..n], CodeEntry(raw)) == Ok(xs)
      {
        assert ks[n] in ks;
        WalkStep(ks, n, CodeEntry(raw));
        if |ks[n]| != 32 {
          continue;
        }
        xs := xs + [(DecodeWord(ks[n]), raw[(Code, ks[n])])];
      }
      assert ks[..|ks|] == ks;
    }
  }

  /** Writes buffered in memory until `Commit` applies them in one step. */
  class WriteBatch {
    const db: StateDb
    var buffered: seq<RawOp>
    ghost var ops: seq<Op>

    ghost predicate Valid()
      reads this
    {
      buffered == EncodeOps(ops)
    }

    constructor (db: StateDb)
      ensures Valid() && ops == [] && this.db == db
    {
      this.db := db;
      buffered := [];
      ops := [];
    }

    method Push(op: Op)
      requires Valid()
      modifies this
      ensures Valid() && ops == old(ops) + [op]
    {
      buffered := buffered + [EncodeOp(op)];
      ops := ops + [op];
    }

    method SetAccount(address: Address, info: AccountInfo)
      requires Valid()
      modifies this
      ensures Valid() && ops == old(ops) + [Op.SetAccount(address, info)]
    {
      Push(Op.SetAccount(address, info));
    }

    method SetStorage(address: Address, slot: Word, value: Word)
      requires Valid()
      modifies this
      ensures Valid() && ops == old(ops) + [Op.SetStorage(address, slot, value)]
    {
      Push(Op.SetStorage(address, slot, value));
    }

    method SetCode(hash: Word, code: Bytes)
      requires Valid()
      modifies this
      ensures Valid() && ops == old(ops) + [Op.SetCode(hash, code)]
    {
      Push(Op.SetCode(hash, code));
    }

    method SetHeadBlock(number: U64)
      requires Valid()
      modifies this
      ensures Valid() && ops == old(ops) + [SetHead(number)]
    {
      Push(SetHead(number));
    }

    /** Buffers the delete whether or not the key is there now. */
    method DeleteAccount(address: Address) returns (existed: bool)
      requires Valid()
      modifies this
      ensures Valid() && ops == old(ops) + [Op.DeleteAccount(address)]
      ensures existed == (EncodeKey(AccountAt(address)) in db.raw)
    {
      existed := EncodeKey(AccountAt(address)) in db.raw;
      Push(Op.DeleteAccount(address));
    }

    method DeleteStorage(address: Address, slot: Word) returns (existed: bool)
      requires Valid()
      modifies this
      ensures Valid() && ops == old(ops) + [Op.DeleteStorage(address, slot)]
      ensures existed == (EncodeKey(SlotAt(address, slot)) in db.raw)
    {
      existed := EncodeKey(SlotAt(address, slot)) in db.raw;
      Push(Op.DeleteStorage(address, slot));
    }

    /** The one step in which the buffered writes reach the database. */
    method Commit()
      requires Valid() && db.Valid()
      modifies db
      ensures db.Valid()
      ensures db.raw == ApplyRaw(old(db.raw), buffered)
      ensures db.tables == Apply(old(db.tables), ops)
      ensures db.history == old(db.history) + [db.tables]
    {
      BatchRefines(db.raw, db.tables, ops);
      db.raw := ApplyRaw(db.raw, buffered);
      db.tables := Apply(db.tables, ops);
      db.history := db.history + [db.tables];
    }
  }
}
