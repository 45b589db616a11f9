/** The four tables of the state database, and the writes a batch makes to them. */
module StateTables {
  import opened Types

  datatype Tables = Tables(
    accounts: map<Address, AccountInfo>,
    storage: map<(Address, Word), Word>,
    code: map<Word, Bytes>,
    head: Option<U64>)

  const EMPTY := Tables(map[], map[], map[], None)

  datatype Key =
    | AccountAt(address: Address)
    | SlotAt(address: Address, slot: Word)
    | CodeAt(hash: Word)
    | HeadBlock

  datatype Value =
    | AccountValue(info: AccountInfo)
    | SlotValue(word: Word)
    | CodeValue(code: Bytes)
    | HeadValue(number: U64)

  function Read(t: Tables, key: Key): Option<Value> {
    match key
    case AccountAt(a) => if a in t.accounts then Some(AccountValue(t.accounts[a])) else None
    case SlotAt(a, s) => if (a, s) in t.storage then Some(SlotValue(t.storage[(a, s)])) else None
    case CodeAt(h) => if h in t.code then Some(CodeValue(t.code[h])) else None
    case HeadBlock => if t.head.Some? then Some(HeadValue(t.head.value)) else None
  }

  /** One entry of a write batch. */
  datatype Op =
    | SetAccount(address: Address, info: AccountInfo)
    | SetStorage(address: Address, slot: Word, value: Word)
    | SetCode(hash: Word, code: Bytes)
    | SetHead(number: U64)
    | DeleteAccount(address: Address)
    | DeleteStorage(address: Address, slot: Word)
  {
    function Key(): Key {
      match this
      case SetAccount(a, _) => AccountAt(a)
      case SetStorage(a, s, _) => SlotAt(a, s)
      case SetCode(h, _) => CodeAt(h)
      case SetHead(_) => HeadBlock
      case DeleteAccount(a) => AccountAt(a)
      case DeleteStorage(a, s) => SlotAt(a, s)
    }

    /** What the key holds afterwards. */
    function Value(): Option<Value> {
      match this
      case SetAccount(_, info) => Some(AccountValue(info))
      case SetStorage(_, _, v) => Some(SlotValue(v))
      case SetCode(_, c) => Some(CodeValue(c))
      case SetHead(n) => Some(HeadValue(n))
      case DeleteAccount(_) => None
      case DeleteStorage(_, _) => None
    }
  }

  function ApplyOp(t: Tables, op: Op): (u: Tables)
    ensures forall key :: Read(u, key) == if key == op.Key() then op.Value() else Read(t, key)
  {
    match op
    case SetAccount(a, info) => t.(accounts := t.accounts[a := info])
    case SetStorage(a, s, v) => t.(storage := t.storage[(a, s) := v])
    case SetCode(h, c) => t.(code := t.code[h := c])
    case SetHead(n) => t.(head := Some(n))
    case DeleteAccount(a) => t.(accounts := t.accounts - {a})
    case DeleteStorage(a, s) => t.(storage := t.storage - {(a, s)})
  }

  /** A batch takes effect in the order its entries were buffered. */
  function Apply(t: Tables, ops: seq<Op>): Tables {
    if ops == [] then t else ApplyOp(Apply(t, ops[..|ops| - 1]), ops[|ops| - 1])
  }

  /** The outcome of the last write to `key`: `None` when it is not written,
      otherwise `Some` of what the key is left holding. */
  function LastWrite(ops: seq<Op>, key: Key): Option<Option<Value>> {
    if ops == [] then None
    else if ops[|ops| - 1].Key() == key then Some(ops[|ops| - 1].Value())
    else LastWrite(ops[..|ops| - 1], key)
  }

  /** After a batch every key holds what its last write left, and the other
      keys are as before. */
  lemma {:induction false} ReadAfterApply(t: Tables, ops: seq<Op>, key: Key)
    ensures Read(Apply(t, ops), key) == LastWrite(ops, key).UnwrapOr(Read(t, key))
  {
    if ops != [] { ReadAfterApply(t, ops[..|ops| - 1], key); }
  }

  lemma ReadsDetermine(t: Tables, u: Tables)
    requires forall key :: Read(t, key) == Read(u, key)
    ensures t == u
  {
    forall a ensures a in t.accounts <==> a in u.accounts
             ensures a in t.accounts ==> t.accounts[a] == u.accounts[a] {
      assert Read(t, AccountAt(a)) == Read(u, AccountAt(a));
    }
    forall k ensures k in t.storage <==> k in u.storage
             ensures k in t.storage ==> t.storage[k] == u.storage[k] {
      assert Read(t, SlotAt(k.0, k.1)) == Read(u, SlotAt(k.0, k.1));
    }
    forall h ensures h in t.code <==> h in u.code
             ensures h in t.code ==> t.code[h] == u.code[h] {
      assert Read(t, CodeAt(h)) == Read(u, CodeAt(h));
    }
    assert Read(t, HeadBlock) == Read(u, HeadBlock);
    assert t.accounts == u.accounts && t.storage == u.storage && t.code == u.code;
  }

  /** Two batches with the same last write for every key have the same effect. */
  lemma SameLastWrites(t: Tables, ops: seq<Op>, ops': seq<Op>)
    requires forall key :: LastWrite(ops, key) == LastWrite(ops', key)
    ensures Apply(t, ops) == Apply(t, ops')
  {
    forall key ensures Read(Apply(t, ops), key) == Read(Apply(t, ops'), key) {
      ReadAfterApply(t, ops, key);
      ReadAfterApply(t, ops', key);
    }
    ReadsDetermine(Apply(t, ops), Apply(t, ops'));
  }

  lemma {:induction false} ApplyConcat(t: Tables, a: seq<Op>, b: seq<Op>)
    ensures Apply(t, a + b) == Apply(Apply(t, a), b)
  {
    if b == [] {
      assert a + b == a;
    } else {
      ApplyConcat(t, a, b[..|b| - 1]);
      assert (a + b)[..|a + b| - 1] == a + b[..|b| - 1];
    }
  }

  lemma {:induction false} LastWriteConcat(a: seq<Op>, b: seq<Op>, key: Key)
    ensures LastWrite(a + b, key) == if LastWrite(b, key).Some? then LastWrite(b, key) else LastWrite(a, key)
  {
    if b == [] {
      assert a + b == a;
    } else {
      LastWriteConcat(a, b[..|b| - 1], key);
      assert (a + b)[..|a + b| - 1] == a + b[..|b| - 1];
    }
  }

  lemma SingletonWrite(ops: seq<Op>, key: Key)
    requires |ops| <= 1
    ensures LastWrite(ops, key) == if |ops| == 1 && ops[0].Key() == key then Some(ops[0].Value()) else None
  {
    if |ops| == 1 { assert LastWrite(ops[..0], key) == None; }
  }

  /** The account and the slots of `a`. */
  predicate Under(key: Key, a: Address) {
    (key.AccountAt? || key.SlotAt?) && key.address == a
  }

  predicate UnderAny(key: Key, order: seq<Address>) {
    (key.AccountAt? || key.SlotAt?) && key.address in order
  }

  lemma UnderLast(key: Key, order: seq<Address>)
    requires order != []
    ensures UnderAny(key, order) <==> UnderAny(key, order[..|order| - 1]) || Under(key, order[|order| - 1])
  {
    assert order == order[..|order| - 1] + [order[|order| - 1]];
  }

  /** A key is written exactly when some entry names it. */
  lemma {:induction false} WrittenByEntry(ops: seq<Op>, key: Key)
    ensures LastWrite(ops, key).Some? <==> exists i :: 0 <= i < |ops| && ops[i].Key() == key
  {
    if ops != [] {
      var init := ops[..|ops| - 1];
      WrittenByEntry(init, key);
      if LastWrite(init, key).Some? {
        var i :| 0 <= i < |init| && init[i].Key() == key;
        assert ops[i].Key() == key;
      }
      if i :| 0 <= i < |ops| && ops[i].Key() == key {
        if i < |init| { assert init[i].Key() == key; }
      }
    }
  }

  /** When each key is named at most once, its last write is its only one. */
  lemma {:induction false} SingleWrite(ops: seq<Op>, i: nat)
    requires i < |ops|
    requires forall j :: i < j < |ops| ==> ops[j].Key() != ops[i].Key()
    ensures LastWrite(ops, ops[i].Key()) == Some(ops[i].Value())
  {
    var n := |ops| - 1;
    if i < n {
      var init := ops[..n];
      assert ops[n].Key() != ops[i].Key();
      assert init[i] == ops[i];
      forall j | i < j < |init| ensures init[j].Key() != init[i].Key() { assert init[j] == ops[j]; }
      SingleWrite(init, i);
    }
  }
}
