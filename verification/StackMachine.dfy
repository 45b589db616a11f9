/** A small stack machine for call execution. Every opcode that looks at state is
    spelled out, with the operand positions of the Ethereum Yellow Paper, appendix
    H.2; all the others are one arbitrary local function. */
module StackMachine {
  import opened Types

  const STOP: Byte := 0x00
  const BALANCE: Byte := 0x31
  const EXTCODESIZE: Byte := 0x3b
  const EXTCODECOPY: Byte := 0x3c
  const EXTCODEHASH: Byte := 0x3f
  const SELFBALANCE: Byte := 0x47
  const SLOAD: Byte := 0x54
  const SSTORE: Byte := 0x55
  const CALL: Byte := 0xf1
  const CALLCODE: Byte := 0xf2
  const DELEGATECALL: Byte := 0xf4
  const STATICCALL: Byte := 0xfa

  const ADDRESSES: nat := 0x1_0000000000_0000000000_0000000000_0000000000
  const WORDS: nat := 0x1_0000000000000000_0000000000000000_0000000000000000_0000000000000000
  const CALL_STACK_LIMIT: nat := 1024

  /** What execution reads state through. */
  datatype Reader = Reader(account: Address -> Option<AccountInfo>, slot: (Address, Word) -> Word, code: Word -> Bytes)

  function AccountCode(r: Reader, a: Address): Bytes {
    match r.account(a)
    case None => []
    case Some(info) => if info.codeHash == KECCAK_EMPTY then [] else r.code(info.codeHash)
  }

  /** The journal of writes made so far. */
  datatype Writes = Writes(balances: map<Address, Word>, slots: map<(Address, Word), Word>)

  const NO_WRITES := Writes(map[], map[])

  function Balance(r: Reader, w: Writes, a: Address): Word {
    if a in w.balances then w.balances[a]
    else
      match r.account(a)
      case None => 0
      case Some(info) => info.balance
  }

  function Slot(r: Reader, w: Writes, a: Address, s: Word): Word {
    if (a, s) in w.slots then w.slots[(a, s)] else r.slot(a, s)
  }

  /** Zero for an account without code, balance and nonce. */
  function CodeHash(r: Reader, w: Writes, a: Address): Word {
    match r.account(a)
    case None => if Balance(r, w, a) == 0 then 0 else KECCAK_EMPTY
    case Some(info) =>
      var noCode := info.codeHash == KECCAK_EMPTY || info.codeHash == 0;
      if noCode && Balance(r, w, a) == 0 && info.nonce == 0 then 0 else info.codeHash
  }

  function Transfer(r: Reader, w: Writes, from: Address, to: Address, value: Word): Writes
    requires value <= Balance(r, w, from)
  {
    var paid := w.(balances := w.balances[from := Balance(r, w, from) - value]);
    paid.(balances := paid.balances[to := (Balance(r, paid, to) + value) % WORDS])
  }

  /** One call frame. The top of the stack is `stack[0]`; in a static frame nothing may be
      written. `saved` is what a failure goes back to, and `out` where the caller wants
      the output. */
  datatype Frame = Frame(
    code: Bytes, pc: nat, stack: seq<Word>, memory: Bytes, input: Bytes, returned: Bytes,
    target: Address, caller: Address, callValue: Word, isStatic: bool, saved: Writes, out: (nat, nat))

  /** What a frame's own instructions can see of it: not the journal. */
  function Seen(f: Frame): Frame {
    f.(saved := NO_WRITES)
  }

  datatype Local =
    | Goto(pc: nat, stack: seq<Word>, memory: Bytes)
    | Return(output: Bytes)
    | Revert(output: Bytes)
    | Fault

  /** The opcodes that neither look at state nor stop. */
  type Logic = Frame -> Local

  datatype Machine = Running(frames: seq<Frame>, writes: Writes) | Done(output: Bytes, success: bool)

  function Opcode(f: Frame): Byte {
    if f.pc < |f.code| then f.code[f.pc] else STOP
  }

  function ToAddress(w: Word): Address {
    w % ADDRESSES
  }

  function ByteAt(data: Bytes, i: nat): Byte {
    if i < |data| then data[i] else 0
  }

  /** `len` bytes from `at`, with zeros past the end. */
  function Slice(data: Bytes, at: nat, len: nat): Bytes {
    seq<Byte>(len, i requires 0 <= i < len => ByteAt(data, at + i))
  }

  function Overwrite(data: Bytes, at: nat, more: Bytes): Bytes {
    Slice(data, 0, at) + more + (if at + |more| < |data| then data[at + |more|..] else [])
  }

  function Push(f: Frame, drop: nat, w: Word): Frame
    requires drop <= |f.stack|
  {
    f.(pc := f.pc + 1, stack := [w] + f.stack[drop..])
  }

  /** The top frame ends: its caller resumes with the output. */
  function EndFrame(frames: seq<Frame>, writes: Writes, output: Bytes, success: bool): Machine
    requires frames != []
  {
    var f, rest := frames[|frames| - 1], frames[..|frames| - 1];
    if rest == [] then Done(output, success)
    else
      var caller := rest[|rest| - 1];
      var len := if |output| < f.out.1 then |output| else f.out.1;
      var resumed := caller.(
        stack := [if success then 1 else 0] + caller.stack, returned := output,
        memory := Overwrite(caller.memory, f.out.0, output[..len]));
      Running(rest[..|rest| - 1] + [resumed], if success then writes else f.saved)
  }

  /** A call that does not start: the caller goes on with a zero. */
  function NoCall(frames: seq<Frame>, caller: Frame, writes: Writes): Machine
    requires frames != []
  {
    Running(
      frames[..|frames| - 1] + [caller.(stack := [0] + caller.stack, returned := [])], writes)
  }

  function Enter(frames: seq<Frame>, caller: Frame, callee: Frame, writes: Writes): Machine
    requires frames != []
  {
    Running(frames[..|frames| - 1] + [caller, callee], writes)
  }

  predicate IsCall(op: Byte) {
    op == CALL || op == CALLCODE || op == DELEGATECALL || op == STATICCALL
  }

  function Operands(op: Byte): nat {
    if op == SELFBALANCE then 0
    else if op == SLOAD || op == BALANCE || op == EXTCODESIZE || op == EXTCODEHASH then 1
    else if op == SSTORE then 2
    else if op == EXTCODECOPY then 4
    else if op == CALL || op == CALLCODE then 7
    else if op == DELEGATECALL || op == STATICCALL then 6
    else 0
  }

  /** The top frame is about to make a call with all its operands: gas, address, for CALL
      and CALLCODE a value, and then where the input and the output are. */
  predicate Calls(f: Frame) {
    IsCall(Opcode(f)) && |f.stack| >= Operands(Opcode(f))
  }

  function CallAddress(f: Frame): Address
    requires Calls(f)
  {
    ToAddress(f.stack[1])
  }

  function CallValue(f: Frame): Word
    requires Calls(f)
  {
    if Opcode(f) == CALL || Opcode(f) == CALLCODE then f.stack[2] else 0
  }

  /** A static frame may not send value to another account. */
  predicate Forbidden(f: Frame)
    requires Calls(f)
  {
    f.isStatic && Opcode(f) == CALL && CallValue(f) != 0
  }

  predicate Pays(r: Reader, f: Frame, w: Writes)
    requires Calls(f)
  {
    CallValue(f) <= Balance(r, w, f.target)
  }

  /** The caller while the call runs. */
  function Waiting(f: Frame): Frame
    requires Calls(f)
  {
    f.(pc := f.pc + 1, stack := f.stack[Operands(Opcode(f))..])
  }

  /** The called frame with code `code`. DELEGATECALL and CALLCODE keep the caller's state,
      and DELEGATECALL its caller and value too; STATICCALL makes the frame static. */
  function Callee(f: Frame, code: Bytes, w: Writes): Frame
    requires Calls(f)
  {
    var at := Operands(Opcode(f)) - 4;
    var input, out := Slice(f.memory, f.stack[at], f.stack[at + 1]), (f.stack[at + 2], f.stack[at + 3]);
    if Opcode(f) == DELEGATECALL then
      Frame(code, 0, [], [], input, [], f.target, f.caller, f.callValue, f.isStatic, w, out)
    else
      var target := if Opcode(f) == CALLCODE then f.target else CallAddress(f);
      Frame(code, 0, [], [], input, [], target, f.target, CallValue(f), f.isStatic || Opcode(f) == STATICCALL, w, out)
  }

  function Paid(r: Reader, f: Frame, w: Writes): Writes
    requires Calls(f) && Pays(r, f, w)
  {
    if Opcode(f) == CALL then Transfer(r, w, f.target, CallAddress(f), CallValue(f)) else w
  }

  function StepCall(r: Reader, frames: seq<Frame>, w: Writes): Machine
    requires frames != [] && Calls(frames[|frames| - 1])
  {
    var f := frames[|frames| - 1];
    if Forbidden(f) then EndFrame(frames, w, [], false)
    else if |frames| > CALL_STACK_LIMIT || !Pays(r, f, w) then NoCall(frames, Waiting(f), w)
    else Enter(frames, Waiting(f), Callee(f, AccountCode(r, CallAddress(f)), w), Paid(r, f, w))
  }

  predicate LooksAtState(op: Byte) {
    IsCall(op) || op in {SLOAD, SSTORE, BALANCE, EXTCODESIZE, EXTCODECOPY, EXTCODEHASH, SELFBALANCE}
  }

  /** The word a single-account or single-slot opcode pushes. */
  function Word1(r: Reader, f: Frame, w: Writes): Word
    requires |f.stack| >= Operands(Opcode(f))
  {
    var op := Opcode(f);
    if op == SLOAD then Slot(r, w, f.target, f.stack[0])
    else if op == BALANCE then Balance(r, w, ToAddress(f.stack[0]))
    else if op == EXTCODESIZE then |AccountCode(r, ToAddress(f.stack[0]))| % WORDS
    else if op == EXTCODEHASH then CodeHash(r, w, ToAddress(f.stack[0]))
    else if op == SELFBALANCE then Balance(r, w, f.target)
    else 0
  }

  function StepState(r: Reader, frames: seq<Frame>, w: Writes): Machine
    requires frames != [] && |frames[|frames| - 1].stack| >= Operands(Opcode(frames[|frames| - 1]))
  {
    var f, rest := frames[|frames| - 1], frames[..|frames| - 1];
    var op := Opcode(f);
    if IsCall(op) then StepCall(r, frames, w)
    else if op == SSTORE then
      if f.isStatic then EndFrame(frames, w, [], false)
      else Running(
        rest + [f.(pc := f.pc + 1, stack := f.stack[2..])],
        w.(slots := w.slots[(f.target, f.stack[0]) := f.stack[1]]))
    else if op == EXTCODECOPY then
      var code := Slice(AccountCode(r, ToAddress(f.stack[0])), f.stack[2], f.stack[3]);
      Running(rest + [f.(pc := f.pc + 1, stack := f.stack[4..], memory := Overwrite(f.memory, f.stack[1], code))], w)
    else Running(rest + [Push(f, Operands(op), Word1(r, f, w))], w)
  }

  /** What a local instruction makes of the top frame. */
  function Continue(local: Local, frames: seq<Frame>, w: Writes): Machine
    requires frames != []
  {
    var f, rest := frames[|frames| - 1], frames[..|frames| - 1];
    match local
    case Goto(pc, stack, memory) => Running(rest + [f.(pc := pc, stack := stack, memory := memory)], w)
    case Return(output) => EndFrame(frames, w, output, true)
    case Revert(output) => EndFrame(frames, w, output, false)
    case Fault => EndFrame(frames, w, [], false)
  }

  /** What the next instruction does, by its opcode. */
  function Execute(logic: Logic, r: Reader, frames: seq<Frame>, w: Writes): Machine
    requires frames != []
  {
    var f := frames[|frames| - 1];
    var op := Opcode(f);
    if LooksAtState(op) && |f.stack| >= Operands(op) then StepState(r, frames, w)
    else if LooksAtState(op) || op == STOP then EndFrame(frames, w, [], op == STOP)
    else Continue(logic(Seen(f)), frames, w)
  }

  /** One instruction. */
  function Step(logic: Logic, r: Reader, m: Machine): Machine {
    if m.Done? || m.frames == [] then m else Execute(logic, r, m.frames, m.writes)
  }

  /** The machine after `n` instructions. */
  function Run(logic: Logic, r: Reader, m: Machine, n: nat): Machine {
    if n == 0 then m else Step(logic, r, Run(logic, r, m, n - 1))
  }

  // ---- what a call does to its caller ----

  /** The frame a call of the caller `f` starts with: whose code and state it is, who calls
      it, with what value, and what it may write. */
  predicate CalleeOf(r: Reader, f: Frame, w: Writes, g: Frame)
    requires Calls(f)
  {
    && g.code == AccountCode(r, ToAddress(f.stack[1])) && g.saved == w
    && g.pc == 0 && g.stack == [] && g.memory == [] && g.returned == []
    && match Opcode(f) {
         case 0xf1 =>
           g.target == ToAddress(f.stack[1]) && g.caller == f.target && g.callValue == f.stack[2]
           && g.isStatic == f.isStatic
         case 0xf2 =>
           g.target == f.target && g.caller == f.target && g.callValue == f.stack[2] && g.isStatic == f.isStatic
         case 0xf4 =>
           g.target == f.target && g.caller == f.caller && g.callValue == f.callValue && g.isStatic == f.isStatic
         case _ =>
           g.target == ToAddress(f.stack[1]) && g.caller == f.target && g.callValue == 0 && g.isStatic
       }
  }

  /** A call that starts puts one frame on top of its caller, and moves value only with CALL. */
  lemma CallStarts(r: Reader, frames: seq<Frame>, w: Writes)
    requires 0 < |frames| <= CALL_STACK_LIMIT && Calls(frames[|frames| - 1])
    requires var f := frames[|frames| - 1]; Pays(r, f, w) && !Forbidden(f)
    ensures var f, m := frames[|frames| - 1], StepCall(r, frames, w);
      && m.Running? && |m.frames| == |frames| + 1 && m.frames[..|frames| - 1] == frames[..|frames| - 1]
      && CalleeOf(r, f, w, m.frames[|frames|])
      && m.writes.slots == w.slots && (Opcode(f) != CALL ==> m.writes == w)
  {
  }

  /** When the frame on top of a caller ends, the caller finds its output and one or zero
      on its stack; and after a failure the writes are those of before the call. */
  lemma CallEnds(frames: seq<Frame>, w: Writes, output: Bytes, success: bool)
    requires |frames| >= 2
    ensures var m, caller := EndFrame(frames, w, output, success), frames[|frames| - 2];
      && m.Running? && |m.frames| == |frames| - 1 && m.frames[..|frames| - 2] == frames[..|frames| - 2]
      && m.frames[|frames| - 2].returned == output
      && m.frames[|frames| - 2].stack == [if success then 1 else 0] + caller.stack
      && m.writes == if success then w else frames[|frames| - 1].saved
  {
  }

  // ---- a transaction ----

  datatype Tx = Tx(from: Address, to: Address, value: Word, data: Bytes)

  /** A delegation designator, the only code a sender may have (EIP-3607, EIP-7702). */
  predicate Delegation(code: Bytes) {
    |code| == 23 && code[..3] == [0xef, 0x01, 0x00]
  }

  /** The call carries nonce zero, and so must its sender's account; and the sender must
      have no code. */
  predicate MaySend(r: Reader, a: Address) {
    && (r.account(a).Some? ==> r.account(a).value.nonce == 0)
    && (AccountCode(r, a) == [] || Delegation(AccountCode(r, a)))
  }

  /** The first frame; `None` when the caller may not send, or cannot pay the value. */
  function Start(r: Reader, tx: Tx): Option<Machine> {
    if !MaySend(r, tx.from) || Balance(r, NO_WRITES, tx.from) < tx.value then None
    else
      Some(Running(
        [Frame(AccountCode(r, tx.to), 0, [], [], tx.data, [], tx.to, tx.from, tx.value, false, NO_WRITES, (0, 0))],
        Transfer(r, NO_WRITES, tx.from, tx.to, tx.value)))
  }

  /** A call can be made exactly when its sender's nonce is zero, its sender has no code or
      only a delegation, and its value can be paid; it starts as one frame with the target's
      code and the call's own data, with the value moved and nothing else written. */
  lemma StartIff(r: Reader, tx: Tx, x: Address)
    ensures Start(r, tx).Some? <==>
      && (r.account(tx.from) == None || r.account(tx.from).value.nonce == 0)
      && (var code := AccountCode(r, tx.from); |code| == 0 || (|code| == 23 && code[..3] == [0xef, 0x01, 0x00]))
      && tx.value <= Balance(r, NO_WRITES, tx.from)
    ensures Start(r, tx).Some? ==>
      var m := Start(r, tx).value;
      && m.Running? && |m.frames| == 1 && Opens(r, tx, m.frames[0]) && m.writes.slots == map[]
      && Balance(r, m.writes, x) ==
           (if tx.from == tx.to then Balance(r, NO_WRITES, x)
            else if x == tx.from then Balance(r, NO_WRITES, x) - tx.value
            else if x == tx.to then (Balance(r, NO_WRITES, x) + tx.value) % WORDS
            else Balance(r, NO_WRITES, x))
  {
  }

  /** The frame a transaction starts with. */
  predicate Opens(r: Reader, tx: Tx, f: Frame) {
    && f.code == AccountCode(r, tx.to) && f.input == tx.data
    && f.target == tx.to && f.caller == tx.from && f.callValue == tx.value
    && f.pc == 0 && f.stack == [] && f.memory == [] && f.returned == []
    && !f.isStatic && f.saved == NO_WRITES
  }

  // ---- which reads an instruction depends on ----

  datatype Query = SlotOf(address: Address, slot: Word) | AccountOf(address: Address) | CodeOf(address: Address)

  predicate Agree(r: Reader, r': Reader, q: Query) {
    match q
    case SlotOf(a, s) => r.slot(a, s) == r'.slot(a, s)
    case AccountOf(a) => r.account(a) == r'.account(a)
    case CodeOf(a) => r.account(a) == r'.account(a) && AccountCode(r, a) == AccountCode(r', a)
  }

  /** All the reads an instruction can make. */
  function Touches(m: Machine): seq<Query> {
    if m.Done? || m.frames == [] then []
    else
      var f := m.frames[|m.frames| - 1];
      var op := Opcode(f);
      if |f.stack| < Operands(op) then []
      else if op == SLOAD || op == SSTORE then [SlotOf(f.target, f.stack[0])]
      else if op == BALANCE || op == EXTCODEHASH then [AccountOf(ToAddress(f.stack[0]))]
      else if op == EXTCODESIZE || op == EXTCODECOPY then [CodeOf(ToAddress(f.stack[0]))]
      else if op == SELFBALANCE then [AccountOf(f.target)]
      else if IsCall(op) then [AccountOf(f.target), CodeOf(ToAddress(f.stack[1]))]
      else []
  }

  ghost predicate AgreeOn(r: Reader, r': Reader, qs: seq<Query>) {
    forall i :: 0 <= i < |qs| ==> Agree(r, r', qs[i])
  }

  lemma CallLocal(r: Reader, r': Reader, frames: seq<Frame>, w: Writes)
    requires frames != [] && Calls(frames[|frames| - 1])
    requires var f := frames[|frames| - 1];
      Agree(r, r', AccountOf(f.target)) && Agree(r, r', CodeOf(CallAddress(f)))
    ensures StepCall(r, frames, w) == StepCall(r', frames, w)
  {
    var f := frames[|frames| - 1];
    assert forall w' :: Balance(r, w', f.target) == Balance(r', w', f.target);
    assert forall w' :: Balance(r, w', CallAddress(f)) == Balance(r', w', CallAddress(f));
  }

  lemma WordLocal(r: Reader, r': Reader, f: Frame, w: Writes, q: Query)
    requires |f.stack| >= Operands(Opcode(f)) && Agree(r, r', q)
    requires match q {
      case SlotOf(a, s) => Opcode(f) == SLOAD && a == f.target && s == f.stack[0]
      case AccountOf(a) =>
        ((Opcode(f) == BALANCE || Opcode(f) == EXTCODEHASH) && a == ToAddress(f.stack[0])) ||
        (Opcode(f) == SELFBALANCE && a == f.target)
      case CodeOf(a) => Opcode(f) == EXTCODESIZE && a == ToAddress(f.stack[0])
    }
    ensures Word1(r, f, w) == Word1(r', f, w)
  {
  }

  lemma StateLocal(r: Reader, r': Reader, m: Machine)
    requires m.Running? && m.frames != [] && AgreeOn(r, r', Touches(m))
    requires var f := m.frames[|m.frames| - 1]; LooksAtState(Opcode(f)) && |f.stack| >= Operands(Opcode(f))
    ensures StepState(r, m.frames, m.writes) == StepState(r', m.frames, m.writes)
  {
    var f := m.frames[|m.frames| - 1];
    var op, qs := Opcode(f), Touches(m);
    assert qs != [] ==> Agree(r, r', qs[0]);
    if IsCall(op) {
      assert Agree(r, r', qs[1]);
      CallLocal(r, r', m.frames, m.writes);
    } else if op != SSTORE && op != EXTCODECOPY {
      WordLocal(r, r', f, m.writes, qs[0]);
    }
  }

  /** An instruction depends on the reader only through the reads it touches. */
  lemma StepLocal(logic: Logic, r: Reader, r': Reader, m: Machine)
    requires AgreeOn(r, r', Touches(m))
    ensures Step(logic, r, m) == Step(logic, r', m)
  {
    if m.Running? && m.frames != [] {
      var f := m.frames[|m.frames| - 1];
      if LooksAtState(Opcode(f)) && |f.stack| >= Operands(Opcode(f)) { StateLocal(r, r', m); }
    }
  }

  /** Two readers that agree on every read of a run take the same steps. */
  lemma {:induction false} RunLocal(logic: Logic, r: Reader, r': Reader, m: Machine, n: nat)
    requires forall k :: 0 <= k < n ==> AgreeOn(r, r', Touches(Run(logic, r, m, k)))
    ensures Run(logic, r, m, n) == Run(logic, r', m, n)
  {
    if n > 0 {
      RunLocal(logic, r, r', m, n - 1);
      StepLocal(logic, r, r', Run(logic, r, m, n - 1));
    }
  }

  lemma StartLocal(r: Reader, r': Reader, tx: Tx)
    requires Agree(r, r', CodeOf(tx.from)) && Agree(r, r', CodeOf(tx.to))
    ensures Start(r, tx) == Start(r', tx)
  {
    assert forall w :: Balance(r, w, tx.from) == Balance(r', w, tx.from);
    assert forall w :: Balance(r, w, tx.to) == Balance(r', w, tx.to);
  }
}
