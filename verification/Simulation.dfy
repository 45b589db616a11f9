/** Execution over two readers that agree on the recorded reads: when they go through
    the same machines, up to the balances nobody has recorded. */
module Simulation {
  import opened Types
  import opened StackMachine
  import opened Recorder
  import Stepwise

  /** The read is one the access list covers. */
  predicate Covers(acc: Accesses, q: Query) {
    match q
    case SlotOf(a, s) => s in SlotsAt(acc, a)
    case AccountOf(a) => a in acc
    case CodeOf(a) => a in acc
  }

  ghost predicate AgreeOnCovered(r: Reader, r': Reader, acc: Accesses) {
    forall q :: Covers(acc, q) ==> Agree(r, r', q)
  }

  lemma CoveredReads(r: Reader, r': Reader, acc: Accesses, a: Address)
    requires AgreeOnCovered(r, r', acc) && a in acc
    ensures r.account(a) == r'.account(a) && AccountCode(r, a) == AccountCode(r', a)
  {
    assert Covers(acc, CodeOf(a));
  }

  // ---- the same, as far as any instruction can tell ----

  /** The same slots written, and the same balances at recorded addresses. An unrecorded
      balance can only be looked at by an instruction that records it. */
  ghost predicate SameWrites(r: Reader, r': Reader, acc: Accesses, w: Writes, w': Writes) {
    w.slots == w'.slots && forall a :: a in acc ==> Balance(r, w, a) == Balance(r', w', a)
  }

  ghost predicate SameFrame(r: Reader, r': Reader, acc: Accesses, f: Frame, f': Frame) {
    Seen(f) == Seen(f') && SameWrites(r, r', acc, f.saved, f'.saved)
  }

  ghost predicate SameFrames(r: Reader, r': Reader, acc: Accesses, fs: seq<Frame>, fs': seq<Frame>) {
    |fs| == |fs'| && forall i :: 0 <= i < |fs| ==> SameFrame(r, r', acc, fs[i], fs'[i])
  }

  ghost predicate Same(r: Reader, r': Reader, acc: Accesses, m: Machine, m': Machine) {
    match m
    case Done(_, _) => m' == m
    case Running(frames, writes) =>
      m'.Running? && SameFrames(r, r', acc, frames, m'.frames) && SameWrites(r, r', acc, writes, m'.writes)
  }

  lemma SameLast(r: Reader, r': Reader, acc: Accesses, fs: seq<Frame>, fs': seq<Frame>)
    requires SameFrames(r, r', acc, fs, fs') && fs != []
    ensures SameFrame(r, r', acc, fs[|fs| - 1], fs'[|fs'| - 1])
    ensures SameFrames(r, r', acc, fs[..|fs| - 1], fs'[..|fs'| - 1])
  {
  }

  lemma SameAppend(r: Reader, r': Reader, acc: Accesses, fs: seq<Frame>, fs': seq<Frame>, f: Frame, f': Frame)
    requires SameFrames(r, r', acc, fs, fs') && SameFrame(r, r', acc, f, f')
    ensures SameFrames(r, r', acc, fs + [f], fs' + [f'])
  {
  }

  lemma WritesSame(r: Reader, r': Reader, acc: Accesses, w: Writes)
    requires AgreeOnCovered(r, r', acc)
    ensures SameWrites(r, r', acc, w, w)
  {
    forall a | a in acc ensures Balance(r, w, a) == Balance(r', w, a) { CoveredReads(r, r', acc, a); }
  }

  lemma SameItself(r: Reader, r': Reader, acc: Accesses, m: Machine)
    requires AgreeOnCovered(r, r', acc)
    ensures Same(r, r', acc, m, m)
  {
    if m.Running? {
      forall i | 0 <= i < |m.frames| ensures SameFrame(r, r', acc, m.frames[i], m.frames[i]) {
        WritesSame(r, r', acc, m.frames[i].saved);
      }
      WritesSame(r, r', acc, m.writes);
    }
  }

  // ---- instructions other than calls ----

  lemma EndSame(
    r: Reader, r': Reader, acc: Accesses, fs: seq<Frame>, fs': seq<Frame>, w: Writes, w': Writes,
    output: Bytes, success: bool)
    requires SameFrames(r, r', acc, fs, fs') && SameWrites(r, r', acc, w, w') && fs != []
    ensures Same(r, r', acc, EndFrame(fs, w, output, success), EndFrame(fs', w', output, success))
  {
    SameLast(r, r', acc, fs, fs');
    var rest, rest' := fs[..|fs| - 1], fs'[..|fs'| - 1];
    if rest != [] {
      SameLast(r, r', acc, rest, rest');
      var m, m' := EndFrame(fs, w, output, success), EndFrame(fs', w', output, success);
      SameAppend(r, r', acc, rest[..|rest| - 1], rest'[..|rest| - 1], m.frames[|rest| - 1], m'.frames[|rest| - 1]);
    }
  }

  /** The top frame goes on as `g`. */
  lemma TopSame(
    r: Reader, r': Reader, acc: Accesses, fs: seq<Frame>, fs': seq<Frame>, g: Frame, g': Frame, w: Writes, w': Writes)
    requires SameFrames(r, r', acc, fs, fs') && fs != []
    requires SameFrame(r, r', acc, g, g') && SameWrites(r, r', acc, w, w')
    ensures Same(r, r', acc, Running(fs[..|fs| - 1] + [g], w), Running(fs'[..|fs'| - 1] + [g'], w'))
  {
    SameLast(r, r', acc, fs, fs');
    SameAppend(r, r', acc, fs[..|fs| - 1], fs'[..|fs'| - 1], g, g');
  }

  /** What the inspector records before the instruction is on the list. */
  ghost predicate Records(acc: Accesses, m: Machine) {
    forall a :: a in RecordStep(map[], m) ==> a in acc && RecordStep(map[], m)[a] <= acc[a]
  }

  lemma RecordedSlot(acc: Accesses, m: Machine, f: Frame)
    requires m.Running? && m.frames != [] && f == m.frames[|m.frames| - 1] && Records(acc, m)
    requires (Opcode(f) == SLOAD || Opcode(f) == SSTORE) && |f.stack| >= Operands(Opcode(f))
    ensures f.stack[0] in SlotsAt(acc, f.target)
  {
    assert f.target in RecordStep(map[], m) && f.stack[0] in RecordStep(map[], m)[f.target];
  }

  /** The account an instruction other than a call looks at. */
  function Looked(f: Frame): Address
    requires |f.stack| >= Operands(Opcode(f))
  {
    if Opcode(f) in {BALANCE, EXTCODESIZE, EXTCODECOPY, EXTCODEHASH} then ToAddress(f.stack[0]) else f.target
  }

  lemma RecordedAccount(acc: Accesses, m: Machine, f: Frame)
    requires m.Running? && m.frames != [] && f == m.frames[|m.frames| - 1] && Records(acc, m)
    requires LooksAtState(Opcode(f)) && !IsCall(Opcode(f)) && |f.stack| >= Operands(Opcode(f))
    ensures Looked(f) in acc
  {
    assert Looked(f) in RecordStep(map[], m);
  }

  lemma WordSame(r: Reader, r': Reader, acc: Accesses, f: Frame, f': Frame, w: Writes, w': Writes)
    requires AgreeOnCovered(r, r', acc) && SameFrame(r, r', acc, f, f') && SameWrites(r, r', acc, w, w')
    requires |f.stack| >= Operands(Opcode(f)) && Looked(f) in acc
    requires Opcode(f) == SLOAD ==> f.stack[0] in SlotsAt(acc, f.target)
    ensures Word1(r, f, w) == Word1(r', f', w')
  {
    CoveredReads(r, r', acc, Looked(f));
    if Opcode(f) == SLOAD { assert Covers(acc, SlotOf(f.target, f.stack[0])); }
    assert Balance(r, w, Looked(f)) == Balance(r', w', Looked(f));
  }

  lemma CopySame(
    r: Reader, r': Reader, acc: Accesses, fs: seq<Frame>, fs': seq<Frame>, w: Writes, w': Writes)
    requires AgreeOnCovered(r, r', acc) && SameFrames(r, r', acc, fs, fs') && SameWrites(r, r', acc, w, w') && fs != []
    requires Opcode(fs[|fs| - 1]) == EXTCODECOPY && |fs[|fs| - 1].stack| >= 4 && Looked(fs[|fs| - 1]) in acc
    ensures SameFrame(r, r', acc, fs[|fs| - 1], fs'[|fs'| - 1])
    ensures Same(r, r', acc, StepState(r, fs, w), StepState(r', fs', w'))
  {
    var f, f' := fs[|fs| - 1], fs'[|fs'| - 1];
    SameLast(r, r', acc, fs, fs');
    CoveredReads(r, r', acc, Looked(f));
    var code := Slice(AccountCode(r, Looked(f)), f.stack[2], f.stack[3]);
    var memory := Overwrite(f.memory, f.stack[1], code);
    TopSame(r, r', acc, fs, fs', f.(pc := f.pc + 1, stack := f.stack[4..], memory := memory),
      f'.(pc := f.pc + 1, stack := f.stack[4..], memory := memory), w, w');
  }

  lemma PushSame(
    r: Reader, r': Reader, acc: Accesses, fs: seq<Frame>, fs': seq<Frame>, w: Writes, w': Writes)
    requires AgreeOnCovered(r, r', acc) && SameFrames(r, r', acc, fs, fs') && SameWrites(r, r', acc, w, w') && fs != []
    requires var f := fs[|fs| - 1];
      && LooksAtState(Opcode(f)) && !IsCall(Opcode(f)) && Opcode(f) != SSTORE && Opcode(f) != EXTCODECOPY
      && |f.stack| >= Operands(Opcode(f)) && Looked(f) in acc
      && (Opcode(f) == SLOAD ==> f.stack[0] in SlotsAt(acc, f.target))
    ensures SameFrame(r, r', acc, fs[|fs| - 1], fs'[|fs'| - 1])
    ensures Same(r, r', acc, StepState(r, fs, w), StepState(r', fs', w'))
  {
    var f, f' := fs[|fs| - 1], fs'[|fs'| - 1];
    SameLast(r, r', acc, fs, fs');
    WordSame(r, r', acc, f, f', w, w');
    var word, n := Word1(r, f, w), Operands(Opcode(f));
    TopSame(r, r', acc, fs, fs', Push(f, n, word), Push(f', n, word), w, w');
  }

  lemma StateSame(r: Reader, r': Reader, acc: Accesses, m: Machine, m': Machine)
    requires AgreeOnCovered(r, r', acc) && Same(r, r', acc, m, m') && Records(acc, m)
    requires m.Running? && m.frames != []
    requires var f := m.frames[|m.frames| - 1];
      LooksAtState(Opcode(f)) && !IsCall(Opcode(f)) && |f.stack| >= Operands(Opcode(f))
    ensures SameFrame(r, r', acc, m.frames[|m.frames| - 1], m'.frames[|m'.frames| - 1])
    ensures Same(r, r', acc, StepState(r, m.frames, m.writes), StepState(r', m'.frames, m'.writes))
  {
    var f := m.frames[|m.frames| - 1];
    SameLast(r, r', acc, m.frames, m'.frames);
    RecordedAccount(acc, m, f);
    var op := Opcode(f);
    if op == SLOAD { RecordedSlot(acc, m, f); }
    if op == SSTORE && f.isStatic {
      EndSame(r, r', acc, m.frames, m'.frames, m.writes, m'.writes, [], false);
    } else if op == SSTORE {
      StoreSame(r, r', acc, m.frames, m'.frames, m.writes, m'.writes);
    } else if op == EXTCODECOPY {
      CopySame(r, r', acc, m.frames, m'.frames, m.writes, m'.writes);
    } else {
      PushSame(r, r', acc, m.frames, m'.frames, m.writes, m'.writes);
    }
  }

  lemma StoreSame(r: Reader, r': Reader, acc: Accesses, fs: seq<Frame>, fs': seq<Frame>, w: Writes, w': Writes)
    requires SameFrames(r, r', acc, fs, fs') && SameWrites(r, r', acc, w, w') && fs != []
    requires Opcode(fs[|fs| - 1]) == SSTORE && |fs[|fs| - 1].stack| >= 2 && !fs[|fs| - 1].isStatic
    ensures SameFrame(r, r', acc, fs[|fs| - 1], fs'[|fs'| - 1])
    ensures Same(r, r', acc, StepState(r, fs, w), StepState(r', fs', w'))
  {
    var f, f' := fs[|fs| - 1], fs'[|fs'| - 1];
    SameLast(r, r', acc, fs, fs');
    var slots := w.slots[(f.target, f.stack[0]) := f.stack[1]];
    SameSlots(r, r', acc, w, w', slots);
    TopSame(r, r', acc, fs, fs', f.(pc := f.pc + 1, stack := f.stack[2..]), f'.(pc := f.pc + 1, stack := f.stack[2..]),
      w.(slots := slots), w'.(slots := slots));
  }

  lemma SameSlots(
    r: Reader, r': Reader, acc: Accesses, w: Writes, w': Writes, slots: map<(Address, Word), Word>)
    requires SameWrites(r, r', acc, w, w')
    ensures SameWrites(r, r', acc, w.(slots := slots), w'.(slots := slots))
  {
    forall a | a in acc ensures Balance(r, w.(slots := slots), a) == Balance(r', w'.(slots := slots), a) {
      assert Balance(r, w, a) == Balance(r', w', a);
    }
  }

  /** A call is about to be made. */
  predicate AtCall(m: Machine) {
    m.Running? && m.frames != [] && Calls(m.frames[|m.frames| - 1])
  }

  lemma ExecuteSame(logic: Logic, r: Reader, r': Reader, acc: Accesses, m: Machine, m': Machine)
    requires AgreeOnCovered(r, r', acc) && Same(r, r', acc, m, m') && Records(acc, m) && !AtCall(m)
    requires m.Running? && m.frames != []
    ensures Same(r, r', acc, Execute(logic, r, m.frames, m.writes), Execute(logic, r', m'.frames, m'.writes))
  {
    var f := m.frames[|m.frames| - 1];
    var op := Opcode(f);
    SameLast(r, r', acc, m.frames, m'.frames);
    if LooksAtState(op) && |f.stack| >= Operands(op) {
      StateSame(r, r', acc, m, m');
    } else if LooksAtState(op) || op == STOP {
      EndSame(r, r', acc, m.frames, m'.frames, m.writes, m'.writes, [], op == STOP);
    } else {
      ContinueSame(r, r', acc, logic(Seen(f)), m.frames, m'.frames, m.writes, m'.writes);
    }
  }

  /** Any instruction but a call takes like machines to like machines. */
  lemma StepSame(logic: Logic, r: Reader, r': Reader, acc: Accesses, m: Machine, m': Machine)
    requires AgreeOnCovered(r, r', acc) && Same(r, r', acc, m, m') && Records(acc, m) && !AtCall(m)
    ensures Same(r, r', acc, StackMachine.Step(logic, r, m), StackMachine.Step(logic, r', m'))
  {
    if m.Running? && m.frames != [] {
      ExecuteSame(logic, r, r', acc, m, m');
    }
  }

  lemma ContinueSame(
    r: Reader, r': Reader, acc: Accesses, local: Local, fs: seq<Frame>, fs': seq<Frame>, w: Writes, w': Writes)
    requires SameFrames(r, r', acc, fs, fs') && SameWrites(r, r', acc, w, w') && fs != []
    ensures Same(r, r', acc, Continue(local, fs, w), Continue(local, fs', w'))
  {
    var f, f' := fs[|fs| - 1], fs'[|fs'| - 1];
    match local
    case Goto(pc, stack, memory) =>
      SameLast(r, r', acc, fs, fs');
      TopSame(r, r', acc, fs, fs', f.(pc := pc, stack := stack, memory := memory),
        f'.(pc := pc, stack := stack, memory := memory), w, w');
    case Return(output) => EndSame(r, r', acc, fs, fs', w, w', output, true);
    case Revert(output) => EndSame(r, r', acc, fs, fs', w, w', output, false);
    case Fault => EndSame(r, r', acc, fs, fs', w, w', [], false);
  }

  // ---- calls, exactly ----

  /** A call that may be made starts over both or over neither, and then finds one code. */
  predicate CallAlike(r: Reader, r': Reader, f: Frame, f': Frame, w: Writes, w': Writes)
    requires Calls(f) && Calls(f')
  {
    && (Pays(r, f, w) <==> Pays(r', f', w'))
    && (Pays(r, f, w) ==> AccountCode(r, CallAddress(f)) == AccountCode(r', CallAddress(f)))
  }

  predicate CallsAlike(r: Reader, r': Reader, m: Machine, m': Machine) {
    AtCall(m) && AtCall(m') && |m.frames| <= CALL_STACK_LIMIT && !Forbidden(m.frames[|m.frames| - 1]) ==>
      CallAlike(r, r', m.frames[|m.frames| - 1], m'.frames[|m'.frames| - 1], m.writes, m'.writes)
  }

  /** What a transfer leaves at each address. */
  lemma TransferAt(r: Reader, w: Writes, from: Address, to: Address, value: Word, x: Address)
    requires value <= Balance(r, w, from)
    ensures var w' := Transfer(r, w, from, to, value);
      && w'.slots == w.slots
      && Balance(r, w', x) ==
           (if x == to then (if from == to then Balance(r, w, from) else (Balance(r, w, to) + value) % WORDS)
            else if x == from then Balance(r, w, from) - value
            else Balance(r, w, x))
  {
  }

  lemma TransferSame(
    r: Reader, r': Reader, acc: Accesses, w: Writes, w': Writes, from: Address, to: Address, value: Word)
    requires SameWrites(r, r', acc, w, w') && value <= Balance(r, w, from) && value <= Balance(r', w', from)
    ensures SameWrites(r, r', acc, Transfer(r, w, from, to, value), Transfer(r', w', from, to, value))
  {
    TransferAt(r, w, from, to, value, to);
    TransferAt(r', w', from, to, value, to);
    forall x | x in acc
      ensures Balance(r, Transfer(r, w, from, to, value), x) == Balance(r', Transfer(r', w', from, to, value), x)
    {
      TransferAt(r, w, from, to, value, x);
      TransferAt(r', w', from, to, value, x);
      assert Balance(r, w, x) == Balance(r', w', x);
    }
  }

  lemma EnterSame(
    r: Reader, r': Reader, acc: Accesses, fs: seq<Frame>, fs': seq<Frame>, g: Frame, g': Frame,
    callee: Frame, callee': Frame, paid: Writes, paid': Writes)
    requires SameFrames(r, r', acc, fs, fs') && fs != []
    requires SameFrame(r, r', acc, g, g') && SameWrites(r, r', acc, callee.saved, callee'.saved)
    requires SameWrites(r, r', acc, paid, paid')
    ensures Same(r, r', acc, Enter(fs, g, callee, paid), Enter(fs', g', callee', paid'))
      <==> Seen(callee) == Seen(callee')
  {
    var entered, entered' := fs[..|fs| - 1] + [g, callee], fs'[..|fs'| - 1] + [g', callee'];
    assert entered[|fs|] == callee && entered'[|fs|] == callee';
    if SameFrames(r, r', acc, entered, entered') { assert SameFrame(r, r', acc, entered[|fs|], entered'[|fs|]); }
    if Seen(callee) == Seen(callee') {
      SameLast(r, r', acc, fs, fs');
      SameAppend(r, r', acc, fs[..|fs| - 1], fs'[..|fs'| - 1], g, g');
      SameAppend(r, r', acc, fs[..|fs| - 1] + [g], fs'[..|fs'| - 1] + [g'], callee, callee');
      assert entered == fs[..|fs| - 1] + [g] + [callee] && entered' == fs'[..|fs'| - 1] + [g'] + [callee'];
    }
  }

  lemma CalleeBut(f: Frame, saved: Writes, code: Bytes, code': Bytes, w: Writes, w': Writes)
    requires Calls(f)
    ensures Callee(f.(saved := saved), code', w') == Callee(f, code, w).(code := code', saved := w')
    ensures Callee(f, code, w).code == code && Callee(f, code, w).saved == w
  {
  }

  lemma CalleeSame(
    r: Reader, r': Reader, acc: Accesses, f: Frame, f': Frame, code: Bytes, code': Bytes, w: Writes, w': Writes)
    requires SameFrame(r, r', acc, f, f') && Calls(f) && Calls(f')
    ensures SameFrame(r, r', acc, Waiting(f), Waiting(f'))
    ensures Seen(Callee(f, code, w)) == Seen(Callee(f', code', w')) <==> code == code'
    ensures Callee(f, code, w).saved == w && Callee(f', code', w').saved == w'
  {
    assert f' == f.(saved := f'.saved);
    CalleeBut(f, f'.saved, code, code', w, w');
  }

  lemma NoCallSame(r: Reader, r': Reader, acc: Accesses, fs: seq<Frame>, fs': seq<Frame>, w: Writes, w': Writes)
    requires SameFrames(r, r', acc, fs, fs') && fs != [] && Calls(fs[|fs| - 1]) && Calls(fs'[|fs'| - 1])
    requires SameWrites(r, r', acc, w, w')
    ensures Same(r, r', acc, NoCall(fs, Waiting(fs[|fs| - 1]), w), NoCall(fs', Waiting(fs'[|fs'| - 1]), w'))
  {
    var f, f' := fs[|fs| - 1], fs'[|fs'| - 1];
    SameLast(r, r', acc, fs, fs');
    var g, g' := Waiting(f), Waiting(f');
    TopSame(r, r', acc, fs, fs',
      g.(stack := [0] + g.stack, returned := []), g'.(stack := [0] + g'.stack, returned := []), w, w');
  }

  /** A machine that entered a frame has more of them than one that did not. */
  lemma EnterDiffers(
    r: Reader, r': Reader, acc: Accesses, fs: seq<Frame>, fs': seq<Frame>, g: Frame, g': Frame, callee: Frame,
    w: Writes, w': Writes)
    requires |fs| == |fs'| && fs != []
    ensures !Same(r, r', acc, Enter(fs, g, callee, w), NoCall(fs', g', w'))
    ensures !Same(r, r', acc, NoCall(fs, g, w), Enter(fs', g', callee, w'))
  {
    assert |Enter(fs, g, callee, w).frames| == |fs| + 1 && |NoCall(fs', g', w').frames| == |fs|;
    assert |Enter(fs', g', callee, w').frames| == |fs| + 1 && |NoCall(fs, g, w).frames| == |fs|;
  }

  lemma PaidSame(r: Reader, r': Reader, acc: Accesses, f: Frame, f': Frame, w: Writes, w': Writes)
    requires SameFrame(r, r', acc, f, f') && SameWrites(r, r', acc, w, w') && Calls(f) && Calls(f')
    requires Pays(r, f, w) && Pays(r', f', w')
    ensures SameWrites(r, r', acc, Paid(r, f, w), Paid(r', f', w'))
  {
    if Opcode(f) == CALL { TransferSame(r, r', acc, w, w', f.target, CallAddress(f), CallValue(f)); }
  }

  /** A call takes like machines to like machines exactly when it starts alike and finds
      the same code. */
  lemma CallSameIff(r: Reader, r': Reader, acc: Accesses, fs: seq<Frame>, fs': seq<Frame>, w: Writes, w': Writes)
    requires SameFrames(r, r', acc, fs, fs') && SameWrites(r, r', acc, w, w')
    requires 0 < |fs| <= CALL_STACK_LIMIT && Calls(fs[|fs| - 1]) && Calls(fs'[|fs'| - 1]) && !Forbidden(fs[|fs| - 1])
    ensures Same(r, r', acc, StepCall(r, fs, w), StepCall(r', fs', w'))
      <==> CallAlike(r, r', fs[|fs| - 1], fs'[|fs'| - 1], w, w')
  {
    var f, f' := fs[|fs| - 1], fs'[|fs'| - 1];
    SameLast(r, r', acc, fs, fs');
    var code, code' := AccountCode(r, CallAddress(f)), AccountCode(r', CallAddress(f'));
    if Pays(r, f, w) && Pays(r', f', w') {
      PaidSame(r, r', acc, f, f', w, w');
      CalleeSame(r, r', acc, f, f', code, code', w, w');
      EnterSame(r, r', acc, fs, fs', Waiting(f), Waiting(f'), Callee(f, code, w), Callee(f', code', w'),
        Paid(r, f, w), Paid(r', f', w'));
    } else if Pays(r, f, w) {
      EnterDiffers(r, r', acc, fs, fs', Waiting(f), Waiting(f'), Callee(f, code, w), Paid(r, f, w), w');
    } else if Pays(r', f', w') {
      EnterDiffers(r, r', acc, fs, fs', Waiting(f), Waiting(f'), Callee(f', code', w'), w, Paid(r', f', w'));
    } else {
      NoCallSame(r, r', acc, fs, fs', w, w');
    }
  }

  /** A call that may not be made at all ends alike. */
  lemma StoppedSame(r: Reader, r': Reader, acc: Accesses, fs: seq<Frame>, fs': seq<Frame>, w: Writes, w': Writes)
    requires SameFrames(r, r', acc, fs, fs') && SameWrites(r, r', acc, w, w')
    requires fs != [] && Calls(fs[|fs| - 1]) && Calls(fs'[|fs'| - 1])
    requires Forbidden(fs[|fs| - 1]) || |fs| > CALL_STACK_LIMIT
    ensures Same(r, r', acc, StepCall(r, fs, w), StepCall(r', fs', w'))
  {
    SameLast(r, r', acc, fs, fs');
    if Forbidden(fs[|fs| - 1]) {
      EndSame(r, r', acc, fs, fs', w, w', [], false);
    } else {
      NoCallSame(r, r', acc, fs, fs', w, w');
    }
  }

  lemma CallStepIff(r: Reader, r': Reader, acc: Accesses, fs: seq<Frame>, fs': seq<Frame>, w: Writes, w': Writes)
    requires SameFrames(r, r', acc, fs, fs') && SameWrites(r, r', acc, w, w')
    requires fs != [] && Calls(fs[|fs| - 1]) && Calls(fs'[|fs'| - 1])
    ensures Same(r, r', acc, StepCall(r, fs, w), StepCall(r', fs', w'))
      <==> CallsAlike(r, r', Running(fs, w), Running(fs', w'))
  {
    if Forbidden(fs[|fs| - 1]) || |fs| > CALL_STACK_LIMIT {
      StoppedSame(r, r', acc, fs, fs', w, w');
    } else {
      CallSameIff(r, r', acc, fs, fs', w, w');
    }
  }

  lemma StepIsCall(logic: Logic, r: Reader, m: Machine)
    requires AtCall(m)
    ensures StackMachine.Step(logic, r, m) == StepCall(r, m.frames, m.writes)
  {
  }

  lemma AtCallAlike(r: Reader, r': Reader, acc: Accesses, m: Machine, m': Machine)
    requires Same(r, r', acc, m, m') && AtCall(m)
    ensures AtCall(m') && SameFrames(r, r', acc, m.frames, m'.frames) && SameWrites(r, r', acc, m.writes, m'.writes)
  {
    SameLast(r, r', acc, m.frames, m'.frames);
  }

  lemma AtCallIff(logic: Logic, r: Reader, r': Reader, acc: Accesses, m: Machine, m': Machine)
    requires Same(r, r', acc, m, m') && AtCall(m)
    ensures Same(r, r', acc, StackMachine.Step(logic, r, m), StackMachine.Step(logic, r', m'))
      <==> CallsAlike(r, r', m, m')
  {
    AtCallAlike(r, r', acc, m, m');
    StepIsCall(logic, r, m);
    StepIsCall(logic, r', m');
    CallStepIff(r, r', acc, m.frames, m'.frames, m.writes, m'.writes);
  }

  /** One instruction of any kind. */
  lemma StepSameIff(logic: Logic, r: Reader, r': Reader, acc: Accesses, m: Machine, m': Machine)
    requires AgreeOnCovered(r, r', acc) && Same(r, r', acc, m, m') && Records(acc, m)
    ensures Same(r, r', acc, StackMachine.Step(logic, r, m), StackMachine.Step(logic, r', m'))
      <==> CallsAlike(r, r', m, m')
  {
    if AtCall(m) {
      AtCallIff(logic, r, r', acc, m, m');
    } else {
      StepSame(logic, r, r', acc, m, m');
    }
  }

  // ---- over a run ----

  ghost function SameAt(logic: Logic, r: Reader, r': Reader, acc: Accesses, start: Machine): nat -> bool {
    (k: nat) => Same(r, r', acc, Run(logic, r, start, k), Run(logic, r', start, k))
  }

  ghost function CallsAlikeAt(logic: Logic, r: Reader, r': Reader, start: Machine): nat -> bool {
    (k: nat) => CallsAlike(r, r', Run(logic, r, start, k), Run(logic, r', start, k))
  }

  /** `n` instructions go through the same machines. */
  ghost predicate SameRun(logic: Logic, r: Reader, r': Reader, acc: Accesses, start: Machine, n: nat) {
    forall k: nat :: k <= n ==> SameAt(logic, r, r', acc, start)(k)
  }

  /** Every call of the two runs starts alike and finds the same code. */
  ghost predicate CallsAlikeRun(logic: Logic, r: Reader, r': Reader, start: Machine, n: nat) {
    forall k: nat :: k < n ==> CallsAlikeAt(logic, r, r', start)(k)
  }

  ghost predicate RecordsRun(logic: Logic, r: Reader, acc: Accesses, start: Machine, n: nat) {
    forall k: nat :: k < n ==> Records(acc, Run(logic, r, start, k))
  }

  /** What is given of two readers, an access list and the first `n` instructions: the
      readers agree on the list, and the list has what is recorded. */
  ghost function Recording(logic: Logic, r: Reader, r': Reader, acc: Accesses, start: Machine, n: nat): () -> bool {
    () => AgreeOnCovered(r, r', acc) && RecordsRun(logic, r, acc, start, n)
  }

  lemma RecordingStarts(logic: Logic, r: Reader, r': Reader, acc: Accesses, start: Machine, n: nat)
    requires AgreeOnCovered(r, r', acc) && RecordsRun(logic, r, acc, start, n)
    ensures Recording(logic, r, r', acc, start, n)() && SameAt(logic, r, r', acc, start)(0)
  {
    SameItself(r, r', acc, start);
  }

  lemma NextSame(logic: Logic, r: Reader, r': Reader, acc: Accesses, start: Machine, n: nat, k: nat)
    requires Recording(logic, r, r', acc, start, n)() && k < n && SameAt(logic, r, r', acc, start)(k)
    ensures SameAt(logic, r, r', acc, start)(k + 1) <==> CallsAlikeAt(logic, r, r', start)(k)
  {
    StepSameIff(logic, r, r', acc, Run(logic, r, start, k), Run(logic, r', start, k));
  }

  /** While `known` holds, the next step is `same` exactly when this one is `alike`, and
      then `known` too. */
  ghost function Stepping(same: nat -> bool, known: nat -> bool, alike: nat -> bool): nat -> bool {
    (k: nat) => known(k) ==> (same(k + 1) <==> alike(k)) && (alike(k) ==> known(k + 1))
  }

  lemma SteppingAt(same: nat -> bool, known: nat -> bool, alike: nat -> bool, k: nat)
    requires known(k) ==> (same(k + 1) <==> alike(k)) && (alike(k) ==> known(k + 1))
    ensures Stepping(same, known, alike)(k)
  {
  }

  lemma SteppingIff(same: nat -> bool, known: nat -> bool, alike: nat -> bool, n: nat)
    requires same(0) && known(0) && forall k: nat :: k < n ==> Stepping(same, known, alike)(k)
    ensures (forall k: nat :: k <= n ==> same(k)) <==> (forall k: nat :: k < n ==> alike(k))
  {
    forall k: nat | k < n && known(k) ensures (same(k + 1) <==> alike(k)) && (alike(k) ==> known(k + 1)) {
      assert Stepping(same, known, alike)(k);
    }
    Stepwise.StaysAlike(known, same, alike, n);
  }

  lemma AllNextSame(logic: Logic, r: Reader, r': Reader, acc: Accesses, start: Machine, n: nat)
    requires Recording(logic, r, r', acc, start, n)()
    ensures var same, alike := SameAt(logic, r, r', acc, start), CallsAlikeAt(logic, r, r', start);
      forall k: nat :: k < n ==> Stepping(same, same, alike)(k)
  {
    var same, alike := SameAt(logic, r, r', acc, start), CallsAlikeAt(logic, r, r', start);
    forall k: nat | k < n ensures Stepping(same, same, alike)(k) {
      if same(k) { NextSame(logic, r, r', acc, start, n, k); }
      SteppingAt(same, same, alike, k);
    }
  }

  /** Two readers that agree on what is recorded go through the same machines exactly
      when every call starts alike and finds the same code. */
  lemma RunSameIff(logic: Logic, r: Reader, r': Reader, acc: Accesses, start: Machine, n: nat)
    requires Recording(logic, r, r', acc, start, n)() && SameAt(logic, r, r', acc, start)(0)
    ensures SameRun(logic, r, r', acc, start, n) <==> CallsAlikeRun(logic, r, r', start, n)
  {
    var same, alike := SameAt(logic, r, r', acc, start), CallsAlikeAt(logic, r, r', start);
    AllNextSame(logic, r, r', acc, start, n);
    SteppingIff(same, same, alike, n);
  }

  // ---- when one of the readers knows nothing beyond the record ----

  /** `local` knows no account that is not on the list. */
  ghost predicate KnowsOnly(local: Reader, acc: Accesses) {
    forall a :: a !in acc ==> local.account(a) == None
  }

  /** `local` knows of no code off the list where `r` has none. */
  ghost predicate InventsNoCode(r: Reader, local: Reader, acc: Accesses) {
    forall a :: a !in acc && AccountCode(r, a) == [] ==> AccountCode(local, a) == []
  }

  /** A call to an unrecorded address does not start, or finds no code there. */
  predicate HarmlessStep(r: Reader, acc: Accesses, m: Machine) {
    AtCall(m) && |m.frames| <= CALL_STACK_LIMIT && !Forbidden(m.frames[|m.frames| - 1]) ==>
      var f := m.frames[|m.frames| - 1];
      CallAddress(f) in acc || !Pays(r, f, m.writes) || AccountCode(r, CallAddress(f)) == []
  }

  ghost function HarmlessAt(logic: Logic, r: Reader, acc: Accesses, start: Machine): nat -> bool {
    (k: nat) => HarmlessStep(r, acc, Run(logic, r, start, k))
  }

  ghost predicate HarmlessRun(logic: Logic, r: Reader, acc: Accesses, start: Machine, n: nat) {
    forall k: nat :: k < n ==> HarmlessAt(logic, r, acc, start)(k)
  }

  /** Every frame that has code to execute runs on the state of a recorded address. */
  ghost predicate TargetsKnown(acc: Accesses, m: Machine) {
    m.Running? ==> forall i :: 0 <= i < |m.frames| ==> m.frames[i].target in acc || m.frames[i].code == []
  }

  lemma EndTargets(acc: Accesses, fs: seq<Frame>, w: Writes, output: Bytes, success: bool)
    requires TargetsKnown(acc, Running(fs, w)) && fs != []
    ensures TargetsKnown(acc, EndFrame(fs, w, output, success))
  {
  }

  /** The top frame goes on with the same code and target. */
  lemma TopTargets(acc: Accesses, fs: seq<Frame>, g: Frame, w: Writes, w': Writes)
    requires TargetsKnown(acc, Running(fs, w)) && fs != []
    requires g.target == fs[|fs| - 1].target && g.code == fs[|fs| - 1].code
    ensures TargetsKnown(acc, Running(fs[..|fs| - 1] + [g], w'))
  {
  }

  lemma StateTargets(r: Reader, acc: Accesses, fs: seq<Frame>, w: Writes)
    requires fs != [] && |fs[|fs| - 1].stack| >= Operands(Opcode(fs[|fs| - 1]))
    requires TargetsKnown(acc, Running(fs, w)) && !IsCall(Opcode(fs[|fs| - 1]))
    ensures TargetsKnown(acc, StepState(r, fs, w))
  {
    var m := StepState(r, fs, w);
    if Opcode(fs[|fs| - 1]) == SSTORE && fs[|fs| - 1].isStatic {
      EndTargets(acc, fs, w, [], false);
    } else {
      TopTargets(acc, fs, m.frames[|fs| - 1], w, m.writes);
    }
  }

  lemma ContinueTargets(acc: Accesses, local: Local, fs: seq<Frame>, w: Writes)
    requires TargetsKnown(acc, Running(fs, w)) && fs != []
    ensures TargetsKnown(acc, Continue(local, fs, w))
  {
    match local
    case Goto(pc, stack, memory) =>
      TopTargets(acc, fs, fs[|fs| - 1].(pc := pc, stack := stack, memory := memory), w, w);
    case Return(output) => EndTargets(acc, fs, w, output, true);
    case Revert(output) => EndTargets(acc, fs, w, output, false);
    case Fault => EndTargets(acc, fs, w, [], false);
  }

  lemma OtherTargets(logic: Logic, r: Reader, acc: Accesses, m: Machine)
    requires TargetsKnown(acc, m) && !AtCall(m)
    ensures TargetsKnown(acc, StackMachine.Step(logic, r, m))
  {
    if m.Running? && m.frames != [] {
      var f := m.frames[|m.frames| - 1];
      var op := Opcode(f);
      if LooksAtState(op) && |f.stack| >= Operands(op) {
        StateTargets(r, acc, m.frames, m.writes);
      } else if LooksAtState(op) || op == STOP {
        EndTargets(acc, m.frames, m.writes, [], op == STOP);
      } else {
        ContinueTargets(acc, logic(Seen(f)), m.frames, m.writes);
      }
    }
  }

  lemma CallTargets(r: Reader, acc: Accesses, fs: seq<Frame>, w: Writes)
    requires fs != [] && Calls(fs[|fs| - 1])
    requires TargetsKnown(acc, Running(fs, w)) && HarmlessStep(r, acc, Running(fs, w))
    ensures TargetsKnown(acc, StepCall(r, fs, w))
  {
  }

  lemma HarmlessTargets(logic: Logic, r: Reader, acc: Accesses, m: Machine)
    requires TargetsKnown(acc, m) && HarmlessStep(r, acc, m)
    ensures TargetsKnown(acc, StackMachine.Step(logic, r, m))
  {
    if AtCall(m) {
      StepIsCall(logic, r, m);
      CallTargets(r, acc, m.frames, m.writes);
    } else {
      OtherTargets(logic, r, acc, m);
    }
  }

  lemma PaysSame(r: Reader, r': Reader, acc: Accesses, f: Frame, f': Frame, w: Writes, w': Writes)
    requires SameFrame(r, r', acc, f, f') && SameWrites(r, r', acc, w, w') && f.target in acc && Calls(f)
    ensures Calls(f') && CallAddress(f') == CallAddress(f) && (Pays(r, f, w) <==> Pays(r', f', w'))
  {
    assert Balance(r, w, f.target) == Balance(r', w', f.target);
  }

  lemma HarmlessAlike(r: Reader, local: Reader, acc: Accesses, m: Machine, m': Machine)
    requires AgreeOnCovered(r, local, acc) && InventsNoCode(r, local, acc) && TargetsKnown(acc, m)
    requires Same(r, local, acc, m, m') && HarmlessStep(r, acc, m)
    ensures CallsAlike(r, local, m, m')
  {
    if AtCall(m) {
      AtCallAlike(r, local, acc, m, m');
      SameLast(r, local, acc, m.frames, m'.frames);
      var f, f' := m.frames[|m.frames| - 1], m'.frames[|m'.frames| - 1];
      assert f.target in acc;
      PaysSame(r, local, acc, f, f', m.writes, m'.writes);
      if CallAddress(f) in acc { CoveredReads(r, local, acc, CallAddress(f)); }
    }
  }

  lemma HarmlessStepIff(r: Reader, local: Reader, acc: Accesses, m: Machine, m': Machine)
    requires AgreeOnCovered(r, local, acc) && KnowsOnly(local, acc) && TargetsKnown(acc, m)
    requires Same(r, local, acc, m, m')
    ensures CallsAlike(r, local, m, m') <==> HarmlessStep(r, acc, m)
  {
    if HarmlessStep(r, acc, m) {
      HarmlessAlike(r, local, acc, m, m');
    } else {
      SameLast(r, local, acc, m.frames, m'.frames);
      assert local.account(CallAddress(m.frames[|m.frames| - 1])) == None;
    }
  }

  ghost function KnownAt(
    logic: Logic, r: Reader, local: Reader, acc: Accesses, start: Machine): nat -> bool
  {
    (k: nat) => SameAt(logic, r, local, acc, start)(k) && TargetsKnown(acc, Run(logic, r, start, k))
  }

  /** What is given when, besides, the second reader knows nothing else. */
  ghost function RecordingAll(logic: Logic, r: Reader, local: Reader, acc: Accesses, start: Machine, n: nat): () -> bool
  {
    () => Recording(logic, r, local, acc, start, n)() && KnowsOnly(local, acc)
  }

  lemma NextHarmless(logic: Logic, r: Reader, local: Reader, acc: Accesses, start: Machine, n: nat, k: nat)
    requires RecordingAll(logic, r, local, acc, start, n)() && k < n
    requires KnownAt(logic, r, local, acc, start)(k)
    ensures SameAt(logic, r, local, acc, start)(k + 1) <==> HarmlessAt(logic, r, acc, start)(k)
    ensures HarmlessAt(logic, r, acc, start)(k) ==> KnownAt(logic, r, local, acc, start)(k + 1)
  {
    var m := Run(logic, r, start, k);
    NextSame(logic, r, local, acc, start, n, k);
    HarmlessStepIff(r, local, acc, m, Run(logic, local, start, k));
    if HarmlessStep(r, acc, m) { HarmlessTargets(logic, r, acc, m); }
  }

  lemma AllNextHarmless(logic: Logic, r: Reader, local: Reader, acc: Accesses, start: Machine, n: nat)
    requires RecordingAll(logic, r, local, acc, start, n)()
    ensures var same, known, harmless :=
      SameAt(logic, r, local, acc, start), KnownAt(logic, r, local, acc, start), HarmlessAt(logic, r, acc, start);
      forall k: nat :: k < n ==> Stepping(same, known, harmless)(k)
  {
    var same, known, harmless :=
      SameAt(logic, r, local, acc, start), KnownAt(logic, r, local, acc, start), HarmlessAt(logic, r, acc, start);
    forall k: nat | k < n ensures Stepping(same, known, harmless)(k) {
      if known(k) { NextHarmless(logic, r, local, acc, start, n, k); }
      SteppingAt(same, known, harmless, k);
    }
  }

  /** The condition in terms of one run alone: the two go through the same machines exactly
      when each call to an unrecorded address does not start, or finds no code there. */
  lemma HarmlessRunIff(logic: Logic, r: Reader, local: Reader, acc: Accesses, start: Machine, n: nat)
    requires RecordingAll(logic, r, local, acc, start, n)()
    requires SameAt(logic, r, local, acc, start)(0) && TargetsKnown(acc, start)
    ensures SameRun(logic, r, local, acc, start, n) <==> HarmlessRun(logic, r, acc, start, n)
  {
    var same, known, harmless :=
      SameAt(logic, r, local, acc, start), KnownAt(logic, r, local, acc, start), HarmlessAt(logic, r, acc, start);
    AllNextHarmless(logic, r, local, acc, start, n);
    SteppingIff(same, known, harmless, n);
  }

  /** What is given when the second reader invents no code, and the calls of the first run
      are harmless. */
  ghost function RecordingTrue(
    logic: Logic, r: Reader, local: Reader, acc: Accesses, start: Machine, n: nat): () -> bool
  {
    () =>
      && Recording(logic, r, local, acc, start, n)() && InventsNoCode(r, local, acc)
      && HarmlessRun(logic, r, acc, start, n)
  }

  ghost function Keeps(known: nat -> bool): nat -> bool {
    (k: nat) => known(k) ==> known(k + 1)
  }

  lemma KeepsAt(known: nat -> bool, k: nat)
    requires known(k) ==> known(k + 1)
    ensures Keeps(known)(k)
  {
  }

  lemma KeepsTo(known: nat -> bool, n: nat)
    requires known(0) && forall k: nat :: k < n ==> Keeps(known)(k)
    ensures known(n)
  {
    forall k: nat | k < n && known(k) ensures known(k + 1) { assert Keeps(known)(k); }
    Stepwise.Preserved(known, n);
  }

  lemma NextKnown(logic: Logic, r: Reader, local: Reader, acc: Accesses, start: Machine, n: nat, k: nat)
    requires RecordingTrue(logic, r, local, acc, start, n)() && k < n
    requires KnownAt(logic, r, local, acc, start)(k)
    ensures KnownAt(logic, r, local, acc, start)(k + 1)
  {
    var m := Run(logic, r, start, k);
    assert HarmlessAt(logic, r, acc, start)(k);
    NextSame(logic, r, local, acc, start, n, k);
    HarmlessAlike(r, local, acc, m, Run(logic, local, start, k));
    HarmlessTargets(logic, r, acc, m);
  }

  lemma AllNextKnown(logic: Logic, r: Reader, local: Reader, acc: Accesses, start: Machine, n: nat)
    requires RecordingTrue(logic, r, local, acc, start, n)()
    ensures forall k: nat :: k < n ==> Keeps(KnownAt(logic, r, local, acc, start))(k)
  {
    var known := KnownAt(logic, r, local, acc, start);
    forall k: nat | k < n ensures Keeps(known)(k) {
      if known(k) { NextKnown(logic, r, local, acc, start, n, k); }
      KeepsAt(known, k);
    }
  }

  /** A reader that invents no code needs nothing more for a run whose calls are all
      harmless. */
  lemma HarmlessSuffices(logic: Logic, r: Reader, local: Reader, acc: Accesses, start: Machine, n: nat)
    requires RecordingTrue(logic, r, local, acc, start, n)()
    requires SameAt(logic, r, local, acc, start)(0) && TargetsKnown(acc, start)
    ensures SameAt(logic, r, local, acc, start)(n)
  {
    AllNextKnown(logic, r, local, acc, start, n);
    KeepsTo(KnownAt(logic, r, local, acc, start), n);
  }
}
