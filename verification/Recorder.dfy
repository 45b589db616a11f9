/** What the access-list inspector records, and the slice built from it
    (crates/api). */
module Recorder {
  import opened Types
  import opened StateTables
  import opened Store
  import opened Overlay
  import opened StackMachine
  import opened Stepwise

  /** Address to the slots accessed there; an empty set means the account alone. */
  type Accesses = map<Address, set<Word>>

  function SlotsAt(acc: Accesses, a: Address): set<Word> {
    if a in acc then acc[a] else {}
  }

  /** The inspector's entry(address).or_default(). */
  function WithAccount(acc: Accesses, a: Address): Accesses {
    acc[a := SlotsAt(acc, a)]
  }

  function WithSlot(acc: Accesses, a: Address, s: Word): Accesses {
    acc[a := SlotsAt(acc, a) + {s}]
  }

  /** What the inspector adds before the instruction at the top frame executes: the
      operand on top of the stack, if there is one. */
  function Record(acc: Accesses, f: Frame): Accesses {
    var op := Opcode(f);
    if op == SLOAD || op == SSTORE then
      if f.stack != [] then WithSlot(acc, f.target, f.stack[0]) else acc
    else if op == BALANCE || op == EXTCODEHASH || op == EXTCODESIZE || op == EXTCODECOPY then
      if f.stack != [] then WithAccount(acc, ToAddress(f.stack[0])) else acc
    else if op == SELFBALANCE then WithAccount(acc, f.target)
    else acc
  }

  function RecordStep(acc: Accesses, m: Machine): Accesses {
    if m.Running? && m.frames != [] then Record(acc, m.frames[|m.frames| - 1]) else acc
  }

  /** The accesses recorded over the first `n` instructions. */
  function Recorded(logic: Logic, r: Reader, m: Machine, n: nat): Accesses {
    if n == 0 then map[] else RecordStep(Recorded(logic, r, m, n - 1), Run(logic, r, m, n - 1))
  }

  /** The instruction names the account `a`: a slot access at its own account, SELFBALANCE,
      or BALANCE, EXTCODESIZE, EXTCODECOPY or EXTCODEHASH of `a`. */
  predicate Names(f: Frame, a: Address) {
    || (Opcode(f) in {0x54, 0x55} && f.stack != [] && f.target == a)
    || (Opcode(f) == 0x47 && f.target == a)
    || (Opcode(f) in {0x31, 0x3b, 0x3c, 0x3f} && f.stack != [] && f.stack[0] % ADDRESSES == a)
  }

  /** The instruction, SLOAD or SSTORE, names slot `s` of `a`. */
  predicate NamesSlot(f: Frame, a: Address, s: Word) {
    Opcode(f) in {0x54, 0x55} && f.stack != [] && f.target == a && f.stack[0] == s
  }

  ghost function NamesAt(logic: Logic, r: Reader, m: Machine, a: Address): nat -> bool {
    (k: nat) => var m' := Run(logic, r, m, k); m'.Running? && m'.frames != [] && Names(m'.frames[|m'.frames| - 1], a)
  }

  ghost function NamesSlotAt(logic: Logic, r: Reader, m: Machine, a: Address, s: Word): nat -> bool {
    (k: nat) =>
      var m' := Run(logic, r, m, k);
      m'.Running? && m'.frames != [] && NamesSlot(m'.frames[|m'.frames| - 1], a, s)
  }

  lemma RecordStepIff(acc: Accesses, m: Machine, a: Address, s: Word)
    ensures var named := m.Running? && m.frames != []; var acc' := RecordStep(acc, m);
      && (a in acc' <==> a in acc || (named && Names(m.frames[|m.frames| - 1], a)))
      && (s in SlotsAt(acc', a) <==> s in SlotsAt(acc, a) || (named && NamesSlot(m.frames[|m.frames| - 1], a, s)))
  {
  }

  ghost function HasAt(logic: Logic, r: Reader, m: Machine, a: Address): nat -> bool {
    (k: nat) => a in Recorded(logic, r, m, k)
  }

  ghost function HasSlotAt(logic: Logic, r: Reader, m: Machine, a: Address, s: Word): nat -> bool {
    (k: nat) => s in SlotsAt(Recorded(logic, r, m, k), a)
  }

  lemma NextRecorded(logic: Logic, r: Reader, m: Machine, n: nat, a: Address, s: Word)
    ensures HasAt(logic, r, m, a)(n + 1) <==> HasAt(logic, r, m, a)(n) || NamesAt(logic, r, m, a)(n)
    ensures HasSlotAt(logic, r, m, a, s)(n + 1) <==>
      HasSlotAt(logic, r, m, a, s)(n) || NamesSlotAt(logic, r, m, a, s)(n)
  {
    RecordStepIff(Recorded(logic, r, m, n), Run(logic, r, m, n), a, s);
  }

  /** Exactly the accounts and slots that the run's instructions name are recorded. */
  lemma RecordedIff(logic: Logic, r: Reader, m: Machine, n: nat, a: Address, s: Word)
    ensures a in Recorded(logic, r, m, n) <==> Before(NamesAt(logic, r, m, a), n)
    ensures s in SlotsAt(Recorded(logic, r, m, n), a) <==> Before(NamesSlotAt(logic, r, m, a, s), n)
  {
    var has, names := HasAt(logic, r, m, a), NamesAt(logic, r, m, a);
    var hasSlot, namesSlot := HasSlotAt(logic, r, m, a, s), NamesSlotAt(logic, r, m, a, s);
    forall k: nat | k < n
      ensures (has(k + 1) <==> has(k) || names(k)) && (hasSlot(k + 1) <==> hasSlot(k) || namesSlot(k))
    {
      NextRecorded(logic, r, m, k, a, s);
    }
    SetsIn(has, names, n);
    SetsIn(hasSlot, namesSlot, n);
    assert has(n) <==> a in Recorded(logic, r, m, n);
  }

  class AccessListInspector {
    var accesses: Accesses

    constructor ()
      ensures accesses == map[]
    {
      accesses := map[];
    }

    /** Called before every instruction. */
    method Step(f: Frame)
      modifies this
      ensures accesses == Record(old(accesses), f)
    {
      var op := Opcode(f);
      if op == SLOAD || op == SSTORE {
        if |f.stack| > 0 {
          var slots := if f.target in accesses then accesses[f.target] else {};
          accesses := accesses[f.target := slots + {f.stack[0]}];
        }
      } else if op == BALANCE || op == EXTCODEHASH || op == EXTCODESIZE || op == EXTCODECOPY {
        if |f.stack| > 0 {
          Touch(ToAddress(f.stack[0]));
        }
      } else if op == SELFBALANCE {
        Touch(f.target);
      }
    }

    method Touch(a: Address)
      modifies this
      ensures accesses == WithAccount(old(accesses), a)
    {
      if a !in accesses {
        accesses := accesses[a := {}];
      }
    }
  }

  /** Runs a call of at most `n` instructions under the inspector. */
  method Inspect(logic: Logic, r: Reader, start: Machine, n: nat) returns (m: Machine, inspector: AccessListInspector)
    ensures m == Run(logic, r, start, n) && fresh(inspector)
    ensures inspector.accesses == Recorded(logic, r, start, n)
  {
    inspector := new AccessListInspector();
    m := start;
    for k := 0 to n
      invariant m == Run(logic, r, start, k) && fresh(inspector)
      invariant inspector.accesses == Recorded(logic, r, start, k)
    {
      if m.Running? && m.frames != [] {
        inspector.Step(m.frames[|m.frames| - 1]);
      }
      m := StackMachine.Step(logic, r, m);
    }
  }

  // ---- the state slice ----

  datatype StateSlice = StateSlice(
    accounts: map<Address, AccountInfo>, storage: map<(Address, Word), Word>, code: map<Word, Bytes>)

  /** The hashes whose code goes into the slice. */
  ghost predicate CodeIncluded(t: Tables, done: set<Address>, h: Word) {
    && h != 0 && h != KECCAK_EMPTY && h in t.code
    && exists a :: a in done && a in t.accounts && t.accounts[a].codeHash == h
  }

  /** The slice for the accessed addresses in `done`. */
  ghost predicate SliceOf(t: Tables, acc: Accesses, done: set<Address>, slice: StateSlice) {
    && (forall a :: a in slice.accounts <==> a in done && a in t.accounts)
    && (forall a :: a in slice.accounts ==> slice.accounts[a] == t.accounts[a])
    && (forall a, s :: (a, s) in slice.storage <==> a in done && s in SlotsAt(acc, a))
    && (forall a, s :: (a, s) in slice.storage ==> slice.storage[(a, s)] == StorageRef(t, a, s))
    && (forall h :: h in slice.code <==> CodeIncluded(t, done, h))
    && (forall h :: h in slice.code ==> slice.code[h] == t.code[h])
  }

  /** The account of one accessed address, with its code, into the slice. */
  method SliceAccount(db: StateDb, a: Address, before: StateSlice) returns (slice: StateSlice)
    requires db.Valid()
    ensures slice.storage == before.storage
    ensures slice.accounts ==
      if a in db.tables.accounts then before.accounts[a := db.tables.accounts[a]] else before.accounts
    ensures slice.code ==
      if a in db.tables.accounts && HasCode(db.tables, db.tables.accounts[a].codeHash)
      then before.code[db.tables.accounts[a].codeHash := db.tables.code[db.tables.accounts[a].codeHash]]
      else before.code
  {
    slice := before;
    var account := db.GetAccount(a);
    if account.Ok? && account.value.Some? {
      var info := account.value.value;
      slice := slice.(accounts := slice.accounts[a := info]);
      if info.codeHash != 0 && info.codeHash != KECCAK_EMPTY {
        var code := db.GetCode(info.codeHash);
        if code.Some? {
          slice := slice.(code := slice.code[info.codeHash := code.value]);
        }
      }
    }
  }

  ghost predicate HasCode(t: Tables, h: Word) {
    h != 0 && h != KECCAK_EMPTY && h in t.code
  }

  /** The slots of one accessed address; one that is not stored goes in as zero. */
  method SliceSlots(db: StateDb, a: Address, slots: set<Word>, before: map<(Address, Word), Word>)
    returns (storage: map<(Address, Word), Word>)
    requires db.Valid() && forall s :: (a, s) !in before
    ensures forall k :: k in storage <==> k in before || (k.0 == a && k.1 in slots)
    ensures forall k :: k in before ==> storage[k] == before[k]
    ensures forall s :: s in slots ==> storage[(a, s)] == StorageRef(db.tables, a, s)
  {
    storage := before;
    var rest := slots;
    while rest != {}
      invariant rest <= slots
      invariant forall k :: k in storage <==> k in before || (k.0 == a && k.1 in slots - rest)
      invariant forall k :: k in before ==> storage[k] == before[k]
      invariant forall s :: s in slots - rest ==> storage[(a, s)] == StorageRef(db.tables, a, s)
    {
      var s :| s in rest;
      var value := db.GetStorage(a, s);
      storage := storage[(a, s) := value.value.UnwrapOr(0)];
      rest := rest - {s};
    }
  }

  /** One more address of the access list. */
  lemma SliceNext(
    t: Tables, acc: Accesses, done: set<Address>, before: StateSlice, a: Address, slice: StateSlice)
    requires SliceOf(t, acc, done, before) && a in acc && a !in done
    requires slice.accounts == if a in t.accounts then before.accounts[a := t.accounts[a]] else before.accounts
    requires slice.code ==
      if a in t.accounts && HasCode(t, t.accounts[a].codeHash)
      then before.code[t.accounts[a].codeHash := t.code[t.accounts[a].codeHash]] else before.code
    requires forall k :: k in slice.storage <==> k in before.storage || (k.0 == a && k.1 in acc[a])
    requires forall k :: k in before.storage ==> slice.storage[k] == before.storage[k]
    requires forall s :: s in acc[a] ==> slice.storage[(a, s)] == StorageRef(t, a, s)
    ensures SliceOf(t, acc, done + {a}, slice)
  {
    forall h ensures h in slice.code <==> CodeIncluded(t, done + {a}, h) {
      if h in before.code {
        var b :| b in done && b in t.accounts && t.accounts[b].codeHash == h;
        assert b in done + {a};
      }
    }
  }

  /** Reads everything accessed out of the database. */
  method BuildSlice(db: StateDb, acc: Accesses) returns (slice: StateSlice)
    requires db.Valid()
    ensures SliceOf(db.tables, acc, acc.Keys, slice)
  {
    slice := StateSlice(map[], map[], map[]);
    var rest := acc.Keys;
    while rest != {}
      invariant rest <= acc.Keys
      invariant SliceOf(db.tables, acc, acc.Keys - rest, slice)
    {
      var a :| a in rest;
      ghost var before := slice;
      slice := SliceAccount(db, a, slice);
      var storage := SliceSlots(db, a, acc[a], slice.storage);
      slice := slice.(storage := storage);
      SliceNext(db.tables, acc, acc.Keys - rest, before, a, slice);
      assert acc.Keys - (rest - {a}) == acc.Keys - rest + {a};
      rest := rest - {a};
    }
    assert acc.Keys - rest == acc.Keys;
  }
}
