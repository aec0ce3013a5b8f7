/** Properties of the stack machine of `src/stack-machine.js`: what a single step does,
    the calling convention's frame discipline, and what loading puts in memory. */
module MachineProperties {
  import opened Bytes
  import opened Results
  import opened Instructions
  import Header
  import opened StackMachine

  // ------------------------------------------------------------------ memory

  /** A word store changes the two bytes it writes and no others. */
  lemma WriteLeavesOtherBytes(mem: Memory, addr: int, value: int)
    requires WriteU16(mem, addr, value).Ok?
    ensures forall i | 0 <= i < MEMORY_SIZE && i != addr && i != addr + 1 :: WriteU16(mem, addr, value).value[i] == mem[i]
  {
  }

  // ------------------------------------------------------------------ single steps

  /** Bytes the `switch` has no case for (unknown bytes, and SSP, whose constant is
      declared but never handled) and the two no-op cases only move `ip` past the opcode. */
  lemma StepWithoutEffect(s: State)
    requires 0 <= s.ip < MEMORY_SIZE
    requires Decode(s.mem[s.ip]) in {None, Some(SSP), Some(NOP), Some(DBG)}
    ensures Step(s) == Ok(Running(s.(ip := s.ip + 1)))
  {
  }

  /** HALT is the only opcode that stops the machine; it reports the word at `sp` and
      changes nothing but `ip`. */
  lemma StepHaltsOnlyOnHalt(s: State)
    requires Step(s).Ok?
    ensures Step(s).value.Halted? <==> s.mem[s.ip] == Opcode(HALT)
    ensures Step(s).value.Halted? ==>
      Step(s).value.state == s.(ip := s.ip + 1) && ReadU16(s.mem, s.sp) == Ok(Step(s).value.result)
  {
    var b := s.mem[s.ip];
    DecodeInvertsOpcode(HALT, b);
  }

  /** The machine stepped from `s` to a state whose top word is `v` (as a 16-bit word),
      having consumed two words and produced one, with `ip`, `fp` untouched. */
  predicate ReplacesTwoByOne(r: Result<State, Fault>, s: State, v: int)
  {
    && r.Ok?
    && var t := r.value;
    && t.sp == s.sp + 2 && t.fs == s.fs - 2 && t.fp == s.fp && t.ip == s.ip
    && ReadU16(t.mem, t.sp) == Ok(ToU16(v))
  }

  // Which shared operation each opcode performs. One lemma per opcode keeps every proof
  // that relies on them down to a single unfolding of `Transition`.

  lemma AddIsPlus(s: State) ensures Transition(ADD, s) == Binary(s, Plus) {}
  lemma SubIsMinus(s: State) ensures Transition(SUB, s) == Binary(s, Minus) {}
  lemma MulIsTimes(s: State) ensures Transition(MUL, s) == Binary(s, Times) {}
  lemma LsfIsShiftUp(s: State) ensures Transition(LSF, s) == Binary(s, ShiftUp) {}
  lemma RsfIsShiftDown(s: State) ensures Transition(RSF, s) == Binary(s, ShiftDown) {}
  lemma AndIsAndBits(s: State) ensures Transition(AND, s) == Binary(s, Bits(AndBits)) {}
  lemma OrIsOrBits(s: State) ensures Transition(OR, s) == Binary(s, Bits(OrBits)) {}
  lemma XorIsXorBits(s: State) ensures Transition(XOR, s) == Binary(s, Bits(XorBits)) {}
  lemma JeqIsEqual(s: State) ensures Transition(JEQ, s) == CompareJump(s, Equal) {}
  lemma JneIsNotEqual(s: State) ensures Transition(JNE, s) == CompareJump(s, NotEqual) {}
  lemma JgtIsGreater(s: State) ensures Transition(JGT, s) == CompareJump(s, Greater) {}
  lemma JltIsLess(s: State) ensures Transition(JLT, s) == CompareJump(s, Less) {}
  lemma JgeIsGreaterOrEqual(s: State) ensures Transition(JGE, s) == CompareJump(s, GreaterOrEqual) {}
  lemma JleIsLessOrEqual(s: State) ensures Transition(JLE, s) == CompareJump(s, LessOrEqual) {}
  lemma IncAddsOne(s: State) ensures Transition(INC, s) == AddInPlace(s, 1) {}
  lemma DecSubtractsOne(s: State) ensures Transition(DEC, s) == AddInPlace(s, -1) {}

  /** Every two-operand instruction consumes the two top words and leaves one word, the
      result reduced to 16 bits, where the lower of them was. */
  lemma BinaryEffect(s: State, operator: Operator, a: Word, b: Word)
    requires ReadU16(s.mem, s.sp) == Ok(a) && ReadU16(s.mem, s.sp + 2) == Ok(b)
    ensures ReplacesTwoByOne(Binary(s, operator), s, Apply(operator, a, b))
  {
  }

  /** The arithmetic operations pop `a` (the top) first and `b` second and push `a OP b`
      reduced to 16 bits, so SUB computes top minus next. */
  lemma ArithmeticOperations(s: State, a: Word, b: Word)
    requires ReadU16(s.mem, s.sp) == Ok(a) && ReadU16(s.mem, s.sp + 2) == Ok(b)
    ensures ReplacesTwoByOne(Transition(ADD, s), s, a + b)
    ensures ReplacesTwoByOne(Transition(SUB, s), s, a - b)
    ensures ReplacesTwoByOne(Transition(MUL, s), s, a * b)
  {
    AddIsPlus(s);
    SubIsMinus(s);
    MulIsTimes(s);
    BinaryEffect(s, Plus, a, b);
    BinaryEffect(s, Minus, a, b);
    BinaryEffect(s, Times, a, b);
  }

  /** The shifts take their amount from the top and the value from below it. */
  lemma ShiftOperations(s: State, amount: Word, v: Word)
    requires ReadU16(s.mem, s.sp) == Ok(amount) && ReadU16(s.mem, s.sp + 2) == Ok(v)
    ensures ReplacesTwoByOne(Transition(LSF, s), s, v * Pow2(amount % 32))
    ensures ReplacesTwoByOne(Transition(RSF, s), s, v / Pow2(amount % 32))
  {
    LsfIsShiftUp(s);
    RsfIsShiftDown(s);
    BinaryEffect(s, ShiftUp, amount, v);
    BinaryEffect(s, ShiftDown, amount, v);
  }

  /** AND, OR and XOR combine the two top words bit by bit. */
  lemma BitwiseOperations(s: State, a: Word, b: Word)
    requires ReadU16(s.mem, s.sp) == Ok(a) && ReadU16(s.mem, s.sp + 2) == Ok(b)
    ensures ReplacesTwoByOne(Transition(AND, s), s, Bitwise(AndBits, a, b))
    ensures ReplacesTwoByOne(Transition(OR, s), s, Bitwise(OrBits, a, b))
    ensures ReplacesTwoByOne(Transition(XOR, s), s, Bitwise(XorBits, a, b))
  {
    AndIsAndBits(s);
    OrIsOrBits(s);
    XorIsXorBits(s);
    BinaryEffect(s, Bits(AndBits), a, b);
    BinaryEffect(s, Bits(OrBits), a, b);
    BinaryEffect(s, Bits(XorBits), a, b);
  }

  /** The three bitwise operators do not depend on operand order, and a word XORed with
      itself is zero. */
  lemma {:induction false} BitwiseLaws(op: BitOp, a: nat, b: nat)
    ensures Bitwise(op, a, b) == Bitwise(op, b, a)
    ensures Bitwise(XorBits, a, a) == 0
    decreases a + b
  {
    if a != 0 || b != 0 {
      BitwiseLaws(op, a / 2, b / 2);
    }
  }

  /** A bitwise combination of two `k`-bit numbers is a `k`-bit number, so the result of
      AND, OR or XOR on two words is a word and its push needs no truncation. */
  lemma {:induction false} BitwiseWidth(op: BitOp, a: nat, b: nat, k: nat)
    requires a < Pow2(k) && b < Pow2(k)
    ensures Bitwise(op, a, b) < Pow2(k)
    decreases k
  {
    if a != 0 || b != 0 {
      BitwiseWidth(op, a / 2, b / 2, k - 1);
    }
  }

  lemma {:induction false} Pow2Split(k: nat)
    requires k >= 16
    ensures Pow2(k) == 0x1_0000 * Pow2(k - 16)
  {
    if k == 16 {
      assert Pow2(4) == 0x10;
      assert Pow2(8) == 0x100;
      assert Pow2(12) == 0x1000;
    } else {
      Pow2Split(k - 1);
      assert Pow2(k) == 2 * (0x1_0000 * Pow2(k - 17));
    }
  }

  /** A shift amount is taken modulo 32; any amount from 16 to 31 (mod 32) shifts every
      bit of a 16-bit value out of the word, in either direction. */
  lemma ShiftsLeaveTheWord(v: Word, amount: Word)
    requires 16 <= amount % 32
    ensures ToU16(ShiftLeft(v, amount)) == 0
    ensures ShiftRight(v, amount) == 0
  {
    var k := amount % 32;
    Pow2Split(k);
    var p := Pow2(k - 16);
    MultiplyAssociates(v, p);
    MultipleOfWordSize(v * p);
    DivideBySmaller(v, Pow2(k));
  }

  lemma MultiplyAssociates(v: int, p: int)
    ensures v * (0x1_0000 * p) == 0x1_0000 * (v * p)
  {
  }

  lemma MultipleOfWordSize(q: int)
    ensures ToU16(0x1_0000 * q) == 0
  {
  }

  lemma DivideBySmaller(v: nat, d: nat)
    requires v < d
    ensures v / d == 0
  {
  }

  /** NOT replaces the top word by its 16-bit complement. */
  lemma NotComplements(s: State, a: Word)
    requires ReadU16(s.mem, s.sp) == Ok(a)
    ensures Transition(NOT, s).Ok?
    ensures var t := Transition(NOT, s).value;
      t.sp == s.sp && t.fs == s.fs && t.ip == s.ip && ReadU16(t.mem, t.sp) == Ok(0xFFFF - a)
  {
  }

  /** INC and DEC rewrite the word at `sp` in place, with wrap-around, and change no
      register and no other byte. */
  lemma IncDecInPlace(s: State, v: Word)
    requires ReadU16(s.mem, s.sp) == Ok(v)
    ensures Transition(INC, s).Ok? && Transition(DEC, s).Ok?
    ensures InPlaceResult(s, Transition(INC, s).value, ToU16(v as int + 1))
    ensures InPlaceResult(s, Transition(DEC, s).value, ToU16(v as int - 1))
  {
    IncAddsOne(s);
    DecSubtractsOne(s);
  }

  /** `t` differs from `s` only in the word at `sp`, which now holds `w`. */
  predicate InPlaceResult(s: State, t: State, w: Word)
  {
    && t == s.(mem := t.mem)
    && ReadU16(t.mem, s.sp) == Ok(w)
    && forall i | 0 <= i < MEMORY_SIZE && i != s.sp && i != s.sp + 1 :: t.mem[i] == s.mem[i]
  }

  /** Writing back the word a location already holds leaves memory as it was. */
  lemma WriteSameWord(mem: Memory, addr: int, m: Memory)
    requires WordInRange(addr)
    requires ReadU16(m, addr) == ReadU16(mem, addr)
    requires forall i | 0 <= i < MEMORY_SIZE && i != addr && i != addr + 1 :: m[i] == mem[i]
    ensures m == mem
  {
    DigitUnique(m[addr], m[addr + 1], mem[addr], mem[addr + 1]);
    assert forall i | 0 <= i < MEMORY_SIZE :: m[i] == mem[i];
  }

  /** Adding `delta` in place and then `-delta` restores the state exactly. */
  lemma AddInPlaceUndone(s: State, delta: int)
    requires WordInRange(s.sp)
    ensures AddInPlace(s, delta).Ok?
    ensures AddInPlace(AddInPlace(s, delta).value, -delta) == Ok(s)
  {
    var v := ReadU16(s.mem, s.sp).value;
    var t := AddInPlace(s, delta).value;
    var w := ReadU16(t.mem, s.sp).value;
    ToU16Undo(v, delta);
    var m2 := WriteU16(t.mem, s.sp, w as int - delta).value;
    WriteSameWord(s.mem, s.sp, m2);
  }

  /** INC then DEC gives back exactly the state it started from; both wrap at 16 bits. */
  lemma IncThenDec(s: State)
    requires WordInRange(s.sp)
    ensures Transition(INC, s).Ok?
    ensures Transition(DEC, Transition(INC, s).value) == Ok(s)
  {
    IncAddsOne(s);
    AddInPlaceUndone(s, 1);
    DecSubtractsOne(Transition(INC, s).value);
  }

  /** JNZ pops the target and then the tested word and jumps exactly when the word is
      not zero. */
  lemma JumpIfNotZero(s: State, target: Word, checked: Word)
    requires ReadU16(s.mem, s.sp) == Ok(target) && ReadU16(s.mem, s.sp + 2) == Ok(checked)
    ensures Transition(JNZ, s).Ok?
    ensures var t := Transition(JNZ, s).value;
      t.sp == s.sp + 4 && t.ip == (if checked != 0 then target else s.ip)
  {
  }

  /** The comparison jumps pop the target, the comparison value and the tested value (in
      that order) and jump exactly when `tested OP comparison`. */
  lemma CompareJumps(s: State, target: Word, comparison: Word, tested: Word)
    requires ReadU16(s.mem, s.sp) == Ok(target)
    requires ReadU16(s.mem, s.sp + 2) == Ok(comparison)
    requires ReadU16(s.mem, s.sp + 4) == Ok(tested)
    ensures Transition(JEQ, s) == Ok(PoppedThree(s, if tested == comparison then target else s.ip))
    ensures Transition(JNE, s) == Ok(PoppedThree(s, if tested != comparison then target else s.ip))
    ensures Transition(JGT, s) == Ok(PoppedThree(s, if tested > comparison then target else s.ip))
    ensures Transition(JLT, s) == Ok(PoppedThree(s, if tested < comparison then target else s.ip))
    ensures Transition(JGE, s) == Ok(PoppedThree(s, if tested >= comparison then target else s.ip))
    ensures Transition(JLE, s) == Ok(PoppedThree(s, if tested <= comparison then target else s.ip))
  {
    JeqIsEqual(s);
    JneIsNotEqual(s);
    JgtIsGreater(s);
    JltIsLess(s);
    JgeIsGreaterOrEqual(s);
    JleIsLessOrEqual(s);
    CompareJumpEffect(s, Equal, target, comparison, tested);
    CompareJumpEffect(s, NotEqual, target, comparison, tested);
    CompareJumpEffect(s, Greater, target, comparison, tested);
    CompareJumpEffect(s, Less, target, comparison, tested);
    CompareJumpEffect(s, GreaterOrEqual, target, comparison, tested);
    CompareJumpEffect(s, LessOrEqual, target, comparison, tested);
  }

  /** The state after three words are popped and `ip` set to `ip'`. */
  function PoppedThree(s: State, ip': int): State
  {
    s.(sp := s.sp + 6, fs := s.fs - 6, ip := ip')
  }

  /** The shared behaviour of the comparison jumps. */
  lemma CompareJumpEffect(s: State, relation: Relation, target: Word, comparison: Word, tested: Word)
    requires ReadU16(s.mem, s.sp) == Ok(target)
    requires ReadU16(s.mem, s.sp + 2) == Ok(comparison)
    requires ReadU16(s.mem, s.sp + 4) == Ok(tested)
    ensures CompareJump(s, relation) == Ok(PoppedThree(s, if Holds(relation, tested, comparison) then target else s.ip))
  {
  }

  /** Only PUSH, CPS and SMV read a 16-bit operand after the opcode. PMF, although its
      description says it takes an argument, reads none: it takes both operands from the
      stack. */
  lemma OperandWidths(s: State)
    ensures Transition(PUSH, s).Ok? ==> Transition(PUSH, s).value.ip == s.ip + 2
    ensures Transition(CPS, s).Ok? ==> Transition(CPS, s).value.ip == s.ip + 2
    ensures Transition(SMV, s).Ok? ==> Transition(SMV, s).value.ip == s.ip + 2
    ensures Transition(PMF, s).Ok? ==> Transition(PMF, s).value.ip == s.ip
  {
  }

  // ------------------------------------------------------------------ frames

  /** Manipulating `sp` directly is the one way to break the frame invariant. */
  lemma StackAdjustUnlinksFrame(s: State)
    requires FrameLinked(s)
    ensures !FrameLinked(Transition(ISP, s).value)
    ensures !FrameLinked(Transition(DSP, s).value)
  {
  }

  /** Whatever the state before, a completed CALL or RET leaves `fp == sp + fs`. */
  lemma CallAndRetLinkFrames(s: State)
    ensures Call(s).Ok? ==> FrameLinked(Call(s).value)
    ensures Ret(s).Ok? ==> FrameLinked(Ret(s).value)
  {
  }

  /** The frame CALL builds. With the target on top, `n` below it and the `n` arguments
      below that (argument 0 deepest), the callee starts at the target with `fp` pointing
      at the return address, the caller's remaining frame size just above it, and
      argument k at `fp - 2(k+1)`; its frame holds exactly the arguments. */
  lemma CallFrame(s: State, n: Word, entered: State)
    requires ReadU16(s.mem, s.sp + 2) == Ok(n)
    requires Call(s) == Ok(entered)
    ensures Ok(entered.ip) == ReadU16(s.mem, s.sp)
    ensures entered.fp == s.sp + 2 * n
    ensures ReadU16(entered.mem, entered.fp) == Ok(ToU16(s.ip))
    ensures ReadU16(entered.mem, entered.fp + 2) == Ok(ToU16(s.fs - 4 - 2 * n))
    ensures entered.sp == entered.fp - 2 * n && entered.fs == 2 * n
    ensures forall k :: 0 <= k < n ==> ArgumentSlot(entered, k) == ReadU16(s.mem, s.sp + 4 + 2 * (n - 1 - k))
  {
    var count := CallSteps(s, n, entered);
    var args := PopArgs(count, n).value;
    var frame := EnterFrame(args.1, s.ip, args.0).value;
    assert args.1.sp == s.sp + 4 + 2 * n && args.1.fs == s.fs - 4 - 2 * n;
    assert entered == frame.(ip := ReadU16(s.mem, s.sp).value);
    ArgumentsInFrame(count, n, args.0, args.1, s.ip, entered);
  }

  /** CALL's steps: after the target and the count are popped, the arguments are popped
      and the callee's frame entered. */
  lemma CallSteps(s: State, n: Word, entered: State) returns (count: State)
    requires ReadU16(s.mem, s.sp + 2) == Ok(n)
    requires Call(s) == Ok(entered)
    ensures ReadU16(s.mem, s.sp).Ok?
    ensures count.sp == s.sp + 4 && count.fs == s.fs - 4 && count.mem == s.mem
    ensures PopArgs(count, n).Ok?
    ensures var args := PopArgs(count, n).value;
      && EnterFrame(args.1, s.ip, args.0).Ok?
      && entered == EnterFrame(args.1, s.ip, args.0).value.(ip := ReadU16(s.mem, s.sp).value)
  {
    var target := Pop(s).value;
    var popped := Pop(target.1).value;
    count := popped.1;
  }

  /** The arguments PopArgs took off the caller's stack are where the callee's frame
      expects them. */
  lemma ArgumentsInFrame(p: State, n: Word, args: seq<Word>, popped: State, returnAddress: int, entered: State)
    requires PopArgs(p, n) == Ok((args, popped))
    requires EnterFrame(popped, returnAddress, args).Ok?
    requires entered.mem == EnterFrame(popped, returnAddress, args).value.mem
    requires entered.fp == EnterFrame(popped, returnAddress, args).value.fp
    ensures forall k :: 0 <= k < n ==> ArgumentSlot(entered, k) == ReadU16(p.mem, p.sp + 2 * (n - 1 - k))
  {
    var frame := EnterFrame(popped, returnAddress, args).value;
    forall k | 0 <= k < n
      ensures ArgumentSlot(entered, k) == ReadU16(p.mem, p.sp + 2 * (n - 1 - k))
    {
      assert ArgumentSlot(entered, k) == ArgumentSlot(frame, k) == Ok(args[k]);
    }
  }

  /** A call followed by a return lands back after the CALL with the caller's frame pointer
      restored and a single result word where the target, the count and the arguments
      were. The callee must leave `fp` and the two header words alone, and the caller's
      frame must have held the call's operands. */
  lemma CallThenRet(s: State, n: Word, entered: State, callee: State)
    requires ReadU16(s.mem, s.sp + 2) == Ok(n)
    requires 4 + 2 * n <= s.fs < 0x1_0000 + 4 + 2 * n
    requires 0 <= s.ip < 0x1_0000
    requires Call(s) == Ok(entered)
    requires callee.fp == entered.fp
    requires ReadU16(callee.mem, callee.fp) == ReadU16(entered.mem, entered.fp)
    requires ReadU16(callee.mem, callee.fp + 2) == ReadU16(entered.mem, entered.fp + 2)
    requires WordInRange(callee.sp)
    ensures Ret(callee).Ok?
    ensures var back := Ret(callee).value;
      && back.ip == s.ip
      && back.sp == s.sp + 2 + 2 * n
      && back.fs == s.fs - 2 - 2 * n
      && (FrameLinked(s) ==> back.fp == s.fp)
      && ReadU16(back.mem, back.sp) == ReadU16(callee.mem, callee.sp)
  {
    CallFrame(s, n, entered);
  }

  // ------------------------------------------------------------------ run

  /** Once a run has stopped (halted or faulted), more fuel changes nothing. */
  lemma {:induction false} RunStable(s: State, fuel: nat, extra: nat)
    requires !Run(s, fuel).OutOfFuel?
    ensures Run(s, fuel + extra) == Run(s, fuel)
    decreases fuel, 0
  {
    AfterStable(Step(s), fuel - 1, extra);
  }

  lemma {:induction false} AfterStable(r: Result<Outcome, Fault>, fuel: nat, extra: nat)
    requires !After(r, fuel).OutOfFuel?
    ensures After(r, fuel + extra) == After(r, fuel)
    decreases fuel, 1
  {
    if r.Ok? && r.value.Running? {
      RunStable(r.value.state, fuel, extra);
    }
  }

  // ------------------------------------------------------------------ loading

  /** A buffer whose first four bytes are not "VMFC" is refused before anything is read. */
  lemma LoadChecksMagic(program: seq<Byte>)
    ensures |program| < 4 ==> Load(program).Err?
    ensures |program| >= 4 && program[..4] != Header.MagicBytes ==> Load(program) == Err(InvalidBinary)
  {
  }

  /** Memory address `a` holds the byte of the code section that belongs there when the
      section starts at `codePtr` in the file and at `base` in memory. */
  predicate CodeByteCopied(program: seq<Byte>, m: Memory, codePtr: int, base: int, a: int)
  {
    && 0 <= a < MEMORY_SIZE
    && 0 <= codePtr + (a - base) < |program|
    && m[a] == program[codePtr + (a - base)]
  }

  /** The code bytes land verbatim at consecutive addresses from `base`; nothing else
      changes. */
  lemma {:induction false} CopyCodeVerbatim(program: seq<Byte>, mem: Memory, codePtr: int, base: int, length: int, i: nat, m: Memory)
    requires CopyCode(program, mem, codePtr, base, length, i) == Ok(m)
    ensures forall a :: base + i <= a < base + length ==> CodeByteCopied(program, m, codePtr, base, a)
    ensures forall a :: 0 <= a < MEMORY_SIZE && !(base + i <= a < base + length) ==> m[a] == mem[a]
    decreases length - i
  {
    if i < length {
      assert 0 <= codePtr + i < |program| && 0 <= base + i < MEMORY_SIZE;
      var mem' := WriteU8(mem, base + i, program[codePtr + i]).value;
      assert CopyCode(program, mem', codePtr, base, length, i + 1) == Ok(m);
      CopyCodeVerbatim(program, mem', codePtr, base, length, i + 1, m);
      assert m[base + i] == mem'[base + i];
      assert CodeByteCopied(program, m, codePtr, base, base + i);
    }
  }

  /** The file's little-endian word at `ptr + j` reads back from memory at `offset + j`. */
  predicate SectionWordCopied(program: seq<Byte>, m: Memory, d: Header.SectionDescriptor, j: int)
  {
    && 0 <= d.ptr + j && d.ptr + j + 1 < |program|
    && ReadU16(m, d.offset + j) == Ok(DecodeLE16(program[d.ptr + j], program[d.ptr + j + 1]))
  }

  /** Section data is stored little-endian in the file and big-endian in memory: each
      word keeps its value, so the machine reads back the words the file holds. */
  lemma {:induction false} CopySectionWords(program: seq<Byte>, mem: Memory, d: Header.SectionDescriptor, i: nat, m: Memory)
    requires CopySection(program, mem, d, i) == Ok(m)
    ensures forall j :: i <= j < d.length && (j - i) % 2 == 0 ==> SectionWordCopied(program, m, d, j)
    ensures forall a :: 0 <= a < MEMORY_SIZE && !(d.offset + i <= a <= d.offset + d.length) ==> m[a] == mem[a]
    decreases d.length - i
  {
    if i < d.length {
      var value := Header.GetUint16(program, d.ptr + i, true).value;
      var mem' := WriteU16(mem, d.offset + i, value).value;
      CopySectionWords(program, mem', d, i + 2, m);
    }
  }

  /** Two memories that agree on bytes a and a + 1 read the same word at a. */
  lemma ReadSameBytes(m1: Memory, m2: Memory, a: int)
    requires 0 <= a && a + 1 < MEMORY_SIZE
    requires m2[a] == m1[a] && m2[a + 1] == m1[a + 1]
    ensures ReadU16(m2, a) == ReadU16(m1, a)
  {
  }

  /** Copying section d writes no byte at a: the section is empty, or a lies outside
      `offset .. offset + length`, the bytes its words reach (an odd length writes one
      byte past the end). */
  predicate Untouched(d: Header.SectionDescriptor, a: int)
  {
    d.length == 0 || a < d.offset || d.offset + d.length < a
  }

  predicate UntouchedByAll(ds: seq<Header.SectionDescriptor>, a: int)
  {
    forall n :: 0 <= n < |ds| ==> Untouched(ds[n], a)
  }

  /** No section after the k-th writes either byte of the word at a. */
  predicate KeptAfter(ds: seq<Header.SectionDescriptor>, k: int, a: int)
    requires 0 <= k < |ds|
  {
    UntouchedByAll(ds[k + 1..], a) && UntouchedByAll(ds[k + 1..], a + 1)
  }

  /** The word at a lies wholly before or after the code bytes. */
  predicate OutsideCode(base: int, length: int, a: int)
  {
    a + 1 < base || base + length <= a
  }

  /** Copying the sections changes no byte that no section reaches. */
  lemma {:induction false} CopySectionsFrame(program: seq<Byte>, mem: Memory, ds: seq<Header.SectionDescriptor>, m: Memory)
    requires CopySections(program, mem, ds) == Ok(m)
    ensures forall a :: 0 <= a < MEMORY_SIZE && UntouchedByAll(ds, a) ==> m[a] == mem[a]
    decreases |ds|
  {
    if |ds| > 0 {
      var tail := ds[1..];
      forall a | UntouchedByAll(ds, a)
        ensures UntouchedByAll(tail, a)
      {
        forall n | 0 <= n < |tail|
          ensures Untouched(tail[n], a)
        {
          assert tail[n] == ds[n + 1];
        }
      }
      if ds[0].length == 0 {
        CopySectionsFrame(program, mem, tail, m);
      } else {
        var mem' := CopySection(program, mem, ds[0], 0).value;
        CopySectionWords(program, mem, ds[0], 0, mem');
        CopySectionsFrame(program, mem', tail, m);
        forall a | 0 <= a < MEMORY_SIZE && UntouchedByAll(ds, a)
          ensures m[a] == mem[a]
        {
          assert Untouched(ds[0], a);
        }
      }
    }
  }

  /** The sections are copied in header order: each word of a section reads back as the
      file's word unless a later section writes over it. */
  lemma {:induction false} CopySectionsWords(program: seq<Byte>, mem: Memory, ds: seq<Header.SectionDescriptor>, m: Memory)
    requires CopySections(program, mem, ds) == Ok(m)
    ensures forall k, j ::
              0 <= k < |ds| && 0 <= j < ds[k].length && j % 2 == 0 && KeptAfter(ds, k, ds[k].offset + j)
              ==> SectionWordCopied(program, m, ds[k], j)
    decreases |ds|
  {
    if |ds| > 0 {
      var tail := ds[1..];
      var first := if ds[0].length == 0 then mem else CopySection(program, mem, ds[0], 0).value;
      assert CopySections(program, first, tail) == Ok(m);
      CopySectionsWords(program, first, tail, m);
      forall k, j | 0 <= k < |ds| && 0 <= j < ds[k].length && j % 2 == 0 && KeptAfter(ds, k, ds[k].offset + j)
        ensures SectionWordCopied(program, m, ds[k], j)
      {
        if k == 0 {
          var w := ds[0].offset + j;
          CopySectionWords(program, mem, ds[0], 0, first);
          assert SectionWordCopied(program, first, ds[0], j);
          CopySectionsFrame(program, first, tail, m);
          ReadSameBytes(first, m, w);
        } else {
          assert ds[k] == tail[k - 1] && ds[k + 1..] == tail[k..];
          assert KeptAfter(tail, k - 1, ds[k].offset + j);
        }
      }
    }
  }

  /** The three stages of a successful load: the header, the sections copied onto blank
      memory, then the code copied after them. */
  lemma LoadStages(program: seq<Byte>, st: State) returns (info: Header.HeaderInfo, mem: Memory)
    requires Load(program) == Ok(st)
    ensures Header.GetHeaderInformation(program) == Ok(info)
    ensures CopySections(program, Blank(), info.sections) == Ok(mem)
    ensures CopyCode(program, mem, info.codePtr, BaseCodeAddress(info.sections), info.codeLength, 0) == Ok(st.mem)
  {
    info := Header.GetHeaderInformation(program).value;
    mem := CopySections(program, Blank(), info.sections).value;
  }

  /** What memory holds after a load. Every code byte is at its place from the code base
      on. Every word of a section reads back as the file's little-endian word, unless a
      later section or the code writes over it. Every other byte is zero. */
  lemma LoadMemory(program: seq<Byte>, st: State)
    requires Load(program) == Ok(st)
    ensures var info := Header.GetHeaderInformation(program).value;
      var base := BaseCodeAddress(info.sections);
      forall a :: base <= a < base + info.codeLength ==> CodeByteCopied(program, st.mem, info.codePtr, base, a)
    ensures var info := Header.GetHeaderInformation(program).value;
      var ds := info.sections;
      var base := BaseCodeAddress(ds);
      forall k, j :: 0 <= k < |ds| && 0 <= j < ds[k].length && j % 2 == 0
        && KeptAfter(ds, k, ds[k].offset + j) && OutsideCode(base, info.codeLength, ds[k].offset + j)
        ==> SectionWordCopied(program, st.mem, ds[k], j)
    ensures var info := Header.GetHeaderInformation(program).value;
      var base := BaseCodeAddress(info.sections);
      forall a :: 0 <= a < MEMORY_SIZE && UntouchedByAll(info.sections, a) && !(base <= a < base + info.codeLength)
        ==> st.mem[a] == 0
  {
    var info, mem := LoadStages(program, st);
    var ds := info.sections;
    var base := BaseCodeAddress(ds);
    CopyCodeVerbatim(program, mem, info.codePtr, base, info.codeLength, 0, st.mem);
    CopySectionsWords(program, Blank(), ds, mem);
    CopySectionsFrame(program, Blank(), ds, mem);
    forall k, j | 0 <= k < |ds| && 0 <= j < ds[k].length && j % 2 == 0
      && KeptAfter(ds, k, ds[k].offset + j) && OutsideCode(base, info.codeLength, ds[k].offset + j)
      ensures SectionWordCopied(program, st.mem, ds[k], j)
    {
      var w := ds[k].offset + j;
      assert SectionWordCopied(program, mem, ds[k], j);
      ReadSameBytes(mem, st.mem, w);
    }
  }
}
