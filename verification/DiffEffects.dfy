/** What a block's state diffs leave in the database, told from the fields of the diffs
    themselves (`apply_state_diffs`, crates/replayer). */
module DiffEffects {
  import opened Types
  import opened StateTables
  import opened Blocks
  import opened StateDiffs

  /** `hex` is `text` without one leading 0x. */
  predicate HexOf(text: string, hex: string) {
    text == "0x" + hex || (text == hex && !(|text| >= 2 && text[..2] == "0x"))
  }

  predicate AccountKey(key: string) {
    key == "nonce" || key == "balance" || key == "code"
  }

  /** Some diff of the block deletes the account. */
  ghost predicate Destroyed(ds: seq<StateDiff>, a: Address) {
    exists d :: d in ds && d.address == Some(a) && d.kind == Some("-") && d.key.Some? && AccountKey(d.key.value)
  }

  ghost predicate Mentioned(ds: seq<StateDiff>, a: Address) {
    exists d :: d in ds && d.address == Some(a)
  }

  // ---- the last diff that says something ----

  ghost predicate LastAt(ds: seq<StateDiff>, test: StateDiff -> bool, i: int) {
    0 <= i < |ds| && test(ds[i]) && forall j :: i < j < |ds| ==> !test(ds[j])
  }

  /** `after` is what the last diff that passes `test` says, or `before` if none does. */
  ghost predicate LastSays<T>(
    ds: seq<StateDiff>, test: StateDiff -> bool, says: (StateDiff, T) -> bool, before: T, after: T)
  {
    if forall i :: 0 <= i < |ds| ==> !test(ds[i]) then after == before
    else exists i :: LastAt(ds, test, i) && says(ds[i], after)
  }

  lemma LastAtStays(ds: seq<StateDiff>, test: StateDiff -> bool, i: int)
    requires ds != [] && !test(ds[|ds| - 1]) && LastAt(ds[..|ds| - 1], test, i)
    ensures LastAt(ds, test, i) && ds[..|ds| - 1][i] == ds[i]
  {
    var init := ds[..|ds| - 1];
    forall j | i < j < |ds| ensures !test(ds[j]) {
      if j < |init| { assert init[j] == ds[j]; }
    }
  }

  lemma LastSaysNext<T>(
    ds: seq<StateDiff>, test: StateDiff -> bool, says: (StateDiff, T) -> bool, before: T, after: T)
    requires ds != []
    requires var d := ds[|ds| - 1];
      if test(d) then says(d, after) else LastSays(ds[..|ds| - 1], test, says, before, after)
    ensures LastSays(ds, test, says, before, after)
  {
    var n := |ds| - 1;
    var init := ds[..n];
    if test(ds[n]) {
      assert LastAt(ds, test, n);
    } else if i :| 0 <= i < n && test(init[i]) {
      var k :| LastAt(init, test, k) && says(init[k], after);
      LastAtStays(ds, test, k);
      assert test(ds[k]);
    } else {
      forall i | 0 <= i < |ds| ensures !test(ds[i]) {
        if i < n { assert init[i] == ds[i]; }
      }
    }
  }

  // ---- what each kind of diff says ----

  /** A diff of `a` that gives a value for the account-level key `key`. */
  ghost function Gives(a: Address, key: string): StateDiff -> bool {
    (d: StateDiff) => d.address == Some(a) && d.key == Some(key) && d.next.Some?
  }

  ghost predicate SaysNumber<T(!new)>(parse: string -> Option<T>, zero: T, d: StateDiff, n: T) {
    d.next.Some? && exists hex :: HexOf(d.next.value, hex) && n == parse(hex).UnwrapOr(zero)
  }

  ghost function SaysNonce(p: Parsers): (StateDiff, U64) -> bool {
    (d: StateDiff, n: U64) => SaysNumber(p.u64, 0, d, n)
  }

  ghost function SaysBalance(p: Parsers): (StateDiff, Word) -> bool {
    (d: StateDiff, n: Word) => SaysNumber(p.u256, 0, d, n)
  }

  /** The diff carries bytecode that parses to `code`. */
  ghost predicate Carries(p: Parsers, d: StateDiff, code: Bytes) {
    && d.key == Some("code") && d.next.Some?
    && exists hex :: HexOf(d.next.value, hex) && p.bytes(hex) == Some(code)
  }

  ghost function GivesCode(p: Parsers, a: Address): StateDiff -> bool {
    (d: StateDiff) => d.address == Some(a) && exists code :: Carries(p, d, code)
  }

  ghost function SaysHash(p: Parsers): (StateDiff, Word) -> bool {
    (d: StateDiff, h: Word) => exists code :: Carries(p, d, code) && h == p.keccak(code)
  }

  /** A diff of `a` for slot `s`: its key is not an account-level one, and parses to `s`. */
  ghost function GivesSlot(p: Parsers, a: Address, s: Word): StateDiff -> bool {
    (d: StateDiff) =>
      && d.address == Some(a) && d.next.Some?
      && d.key.Some? && !AccountKey(d.key.value) && p.b256(d.key.value) == Some(s)
  }

  /** Kind "-" leaves no entry, any other the number, or zero if there is none. */
  ghost function SaysSlot(p: Parsers): (StateDiff, Option<Word>) -> bool {
    (d: StateDiff, v: Option<Word>) =>
      if d.kind == Some("-") then v == None else v.Some? && SaysNumber(p.u256, 0, d, v.value)
  }

  lemma StripHexIs(text: string, hex: string)
    ensures HexOf(text, hex) <==> hex == StripHex(text)
  {
    if |text| >= 2 && text[..2] == "0x" { assert text == "0x" + text[2..]; }
    if text == "0x" + hex { assert text[..2] == "0x" && text[2..] == hex; }
  }

  lemma DestroyedIsDoomed(ds: seq<StateDiff>, a: Address)
    ensures Destroyed(ds, a) <==> a in Doomed(ds)
  {
  }

  lemma NumberSaid<T(!new)>(parse: string -> Option<T>, zero: T, d: StateDiff)
    requires d.next.Some?
    ensures SaysNumber(parse, zero, d, parse(StripHex(d.next.value)).UnwrapOr(zero))
  {
    StripHexIs(d.next.value, StripHex(d.next.value));
  }

  lemma CarriedIs(p: Parsers, d: StateDiff, code: Bytes)
    ensures Carries(p, d, code) <==> EffectOf(p, d) == NewCode(p.keccak(code), code)
  {
    if d.next.Some? {
      StripHexIs(d.next.value, StripHex(d.next.value));
      forall hex { StripHexIs(d.next.value, hex); }
    }
  }

  lemma {:induction false} NonceLast(p: Parsers, ds: seq<StateDiff>, a: Address, before: U64)
    ensures LastSays(ds, Gives(a, "nonce"), SaysNonce(p), before, LastNonce(p, Mine(ds, a)).UnwrapOr(before))
  {
    if ds != [] {
      var d := ds[|ds| - 1];
      NonceLast(p, ds[..|ds| - 1], a, before);
      MineStep(ds, a);
      if d.next.Some? { NumberSaid(p.u64, 0, d); }
      LastSaysNext(ds, Gives(a, "nonce"), SaysNonce(p), before, LastNonce(p, Mine(ds, a)).UnwrapOr(before));
    }
  }

  lemma {:induction false} BalanceLast(p: Parsers, ds: seq<StateDiff>, a: Address, before: Word)
    ensures LastSays(ds, Gives(a, "balance"), SaysBalance(p), before, LastBalance(p, Mine(ds, a)).UnwrapOr(before))
  {
    if ds != [] {
      var d := ds[|ds| - 1];
      BalanceLast(p, ds[..|ds| - 1], a, before);
      MineStep(ds, a);
      if d.next.Some? { NumberSaid(p.u256, 0, d); }
      LastSaysNext(ds, Gives(a, "balance"), SaysBalance(p), before, LastBalance(p, Mine(ds, a)).UnwrapOr(before));
    }
  }

  lemma CodeSaid(p: Parsers, d: StateDiff, a: Address)
    ensures GivesCode(p, a)(d) <==> d.address == Some(a) && EffectOf(p, d).NewCode?
    ensures EffectOf(p, d).NewCode? ==> SaysHash(p)(d, EffectOf(p, d).hash)
  {
    var e := EffectOf(p, d);
    if e.NewCode? { CarriedIs(p, d, e.code); }
    if GivesCode(p, a)(d) {
      var code :| Carries(p, d, code);
      CarriedIs(p, d, code);
    }
  }

  lemma {:induction false} HashLast(p: Parsers, ds: seq<StateDiff>, a: Address, before: Word)
    ensures LastSays(ds, GivesCode(p, a), SaysHash(p), before, LastHash(p, Mine(ds, a)).UnwrapOr(before))
  {
    if ds != [] {
      var d := ds[|ds| - 1];
      HashLast(p, ds[..|ds| - 1], a, before);
      MineStep(ds, a);
      CodeSaid(p, d, a);
      LastSaysNext(ds, GivesCode(p, a), SaysHash(p), before, LastHash(p, Mine(ds, a)).UnwrapOr(before));
    }
  }

  function WordOf(v: Option<Value>): Option<Word> {
    if v.Some? && v.value.SlotValue? then Some(v.value.word) else None
  }

  lemma SlotSaid(p: Parsers, d: StateDiff, a: Address, s: Word)
    ensures GivesSlot(p, a, s)(d) <==> d.address == Some(a) && SlotWrite(EffectOf(p, d), s).Some?
    ensures SlotWrite(EffectOf(p, d), s).Some? ==> SaysSlot(p)(d, WordOf(SlotWrite(EffectOf(p, d), s).value))
  {
    if d.next.Some? { NumberSaid(p.u256, 0, d); }
  }

  lemma {:induction false} SlotLast(p: Parsers, ds: seq<StateDiff>, a: Address, s: Word, before: Option<Value>)
    ensures LastSays(ds, GivesSlot(p, a, s), SaysSlot(p), WordOf(before),
      WordOf(LastSlot(p, Mine(ds, a), s).UnwrapOr(before)))
  {
    if ds != [] {
      var d := ds[|ds| - 1];
      SlotLast(p, ds[..|ds| - 1], a, s, before);
      MineStep(ds, a);
      SlotSaid(p, d, a, s);
      LastSaysNext(ds, GivesSlot(p, a, s), SaysSlot(p), WordOf(before),
        WordOf(LastSlot(p, Mine(ds, a), s).UnwrapOr(before)));
    }
  }

  // ---- what the database holds after the block's diffs ----

  /** Each field is what the last diff that gives it says, or what it was. */
  ghost predicate Says(p: Parsers, ds: seq<StateDiff>, a: Address, before: AccountInfo, after: AccountInfo) {
    && LastSays(ds, Gives(a, "nonce"), SaysNonce(p), before.nonce, after.nonce)
    && LastSays(ds, Gives(a, "balance"), SaysBalance(p), before.balance, after.balance)
    && LastSays(ds, GivesCode(p, a), SaysHash(p), before.codeHash, after.codeHash)
  }

  lemma MentionedIsMine(ds: seq<StateDiff>, a: Address)
    ensures Mentioned(ds, a) <==> Mine(ds, a) != []
  {
    if Mine(ds, a) != [] { MineMembers(ds, a, Mine(ds, a)[0]); }
    if d :| d in ds && d.address == Some(a) { MineMembers(ds, a, d); }
  }

  /** A deletion of any account-level key removes the account. Any other diff of an
      address makes its account exist, with the fields the last diffs say; a missing key
      or value and bytecode that does not parse say nothing. */
  lemma AccountHolds(p: Parsers, t: Tables, block: Block, a: Address)
    ensures var ds := block.stateDiffs; var after := Lookup(Diffed(p, t, block).accounts, a);
      if Destroyed(ds, a) then after == None
      else if !Mentioned(ds, a) then after == Lookup(t.accounts, a)
      else after.Some? && Says(p, ds, a, Lookup(t.accounts, a).UnwrapOr(AccountInfo(0, 0, 0)), after.value)
  {
    var ds, before := block.stateDiffs, InfoOr(t, a);
    DiffedAt(p, t, block, AccountAt(a));
    DestroyedIsDoomed(ds, a);
    MentionedIsMine(ds, a);
    FoldFields(p, before, Mine(ds, a));
    NonceLast(p, ds, a, before.nonce);
    BalanceLast(p, ds, a, before.balance);
    HashLast(p, ds, a, before.codeHash);
  }

  /** The slot is what the last diff for it says; diffs of a deleted account, and keys that
      parse to no slot, say nothing. */
  lemma SlotHolds(p: Parsers, t: Tables, block: Block, a: Address, s: Word)
    ensures var ds := block.stateDiffs;
      var before, after := Lookup(t.storage, (a, s)), Lookup(Diffed(p, t, block).storage, (a, s));
      if Destroyed(ds, a) then after == before
      else LastSays(ds, GivesSlot(p, a, s), SaysSlot(p), before, after)
  {
    DiffedAt(p, t, block, SlotAt(a, s));
    DestroyedIsDoomed(block.stateDiffs, a);
    SlotLast(p, block.stateDiffs, a, s, Read(t, SlotAt(a, s)));
  }

  /** A slot diff that no later diff of the block overrides, at a surviving address. */
  lemma LastSlotDiff(p: Parsers, t: Tables, block: Block, i: nat, a: Address, s: Word, hex: string)
    requires var ds := block.stateDiffs;
      !Destroyed(ds, a) && LastAt(ds, GivesSlot(p, a, s), i) && HexOf(ds[i].next.value, hex)
    ensures Lookup(Diffed(p, t, block).storage, (a, s)) ==
      if block.stateDiffs[i].kind == Some("-") then None else Some(p.u256(hex).UnwrapOr(0))
  {
    var ds := block.stateDiffs;
    SlotHolds(p, t, block, a, s);
    StripHexIs(ds[i].next.value, hex);
    forall other { StripHexIs(ds[i].next.value, other); }
  }

  /** A diff of a surviving account that carries `code`. */
  ghost predicate Stores(p: Parsers, ds: seq<StateDiff>, code: Bytes) {
    exists d :: d in ds && d.address.Some? && !Destroyed(ds, d.address.value) && Carries(p, d, code)
  }

  /** The bytecode of every such diff is stored under its hash, and no other is. */
  lemma CodeHolds(p: Parsers, t: Tables, block: Block, h: Word)
    requires p.HashInjective()
    ensures var ds := block.stateDiffs; var after := Lookup(Diffed(p, t, block).code, h);
      && (forall code :: Stores(p, ds, code) && p.keccak(code) == h ==> after == Some(code))
      && ((forall code :: Stores(p, ds, code) ==> p.keccak(code) != h) ==> after == Lookup(t.code, h))
  {
    var ds := block.stateDiffs;
    DiffedAt(p, t, block, CodeAt(h));
    LastCodeIff(p, ds, Doomed(ds), h);
    forall code | Stores(p, ds, code) && p.keccak(code) == h
      ensures LastCode(p, ds, Doomed(ds), h) == Some(Some(CodeValue(code)))
    {
      var d :| d in ds && d.address.Some? && !Destroyed(ds, d.address.value) && Carries(p, d, code);
      CarriedIs(p, d, code);
      DestroyedIsDoomed(ds, d.address.value);
      assert Deploys(p, d, h);
    }
    if LastCode(p, ds, Doomed(ds), h).Some? {
      var d :| d in ds && d.address.Some? && d.address.value !in Doomed(ds) && Deploys(p, d, h);
      CarriedIs(p, d, EffectOf(p, d).code);
      DestroyedIsDoomed(ds, d.address.value);
      assert Stores(p, ds, EffectOf(p, d).code);
    }
  }
}
