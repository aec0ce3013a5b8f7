/** The stack virtual machine of `src/stack-machine.js`: a flat memory of 0xFFFF bytes
    (the source's `MEMORY_SIZE`, one byte short of 64 KiB), four registers that are
    unbounded JavaScript numbers, a loader for the VMFC container and a single-step
    interpreter.

    Memory is accessed through a `DataView`: multi-byte values are big-endian and an
    access that does not fit in the buffer raises a RangeError, modelled as `Err`.
    Every store converts its value with ToUint16 / ToUint8. */
module StackMachine {
  import opened Bytes
  import opened Results
  import opened Instructions
  import Header

  const MEMORY_SIZE: nat := 0xFFFF

  /** `sp` and `fp` after `load`: the constructor's 0xFFFD, pre-decremented by 2. */
  const STACK_TOP: int := 0xFFFB

  type Memory = m: seq<Byte> | |m| == MEMORY_SIZE witness seq(MEMORY_SIZE, _ => 0)

  datatype Fault =
    | InvalidBinary          // `throw new Error('Invalid VMFC Binary')`
    | RangeError(at: int)    // a DataView access outside its buffer

  datatype State = State(mem: Memory, ip: int, sp: int, fp: int, fs: int, entryPoint: int)

  /** Outcome of one `step()`: it returns true only for HALT, whose result is the word at `sp`. */
  datatype Outcome = Running(state: State) | Halted(state: State, result: Word)

  // ------------------------------------------------------------------ memory

  predicate WordInRange(addr: int)
  {
    0 <= addr <= MEMORY_SIZE - 2
  }

  function ReadU16(mem: Memory, addr: int): (r: Result<Word, Fault>)
    ensures r.Ok? <==> WordInRange(addr)
  {
    if WordInRange(addr) then Ok(DecodeBE16(mem[addr], mem[addr + 1])) else Err(RangeError(addr))
  }

  /** `setUint16(addr, value)`: stores ToUint16(value) big-endian and nothing else. */
  function WriteU16(mem: Memory, addr: int, value: int): (r: Result<Memory, Fault>)
    ensures r.Ok? <==> WordInRange(addr)
    ensures r.Ok? ==> ReadU16(r.value, addr) == Ok(ToU16(value))
  {
    if WordInRange(addr) then
      var w := ToU16(value);
      BE16RoundTrip(w);
      Ok(mem[addr := w / 0x100][addr + 1 := w % 0x100])
    else
      Err(RangeError(addr))
  }

  /** A word store is seen by a word load at the same address, and by no load that does
      not overlap it. */
  lemma ReadAfterWrite(mem: Memory, addr: int, value: int, other: int)
    requires WriteU16(mem, addr, value).Ok?
    ensures ReadU16(WriteU16(mem, addr, value).value, addr) == Ok(ToU16(value))
    ensures other <= addr - 2 || addr + 2 <= other ==>
      ReadU16(WriteU16(mem, addr, value).value, other) == ReadU16(mem, other)
  {
  }

  function ReadU8(mem: Memory, addr: int): (r: Result<Byte, Fault>)
    ensures r.Ok? <==> 0 <= addr < MEMORY_SIZE
  {
    if 0 <= addr < MEMORY_SIZE then Ok(mem[addr]) else Err(RangeError(addr))
  }

  function WriteU8(mem: Memory, addr: int, value: int): (r: Result<Memory, Fault>)
    ensures r.Ok? <==> 0 <= addr < MEMORY_SIZE
    ensures r.Ok? ==> r.value == mem[addr := ToU8(value)]
  {
    if 0 <= addr < MEMORY_SIZE then Ok(mem[addr := ToU8(value)]) else Err(RangeError(addr))
  }

  // ------------------------------------------------------------------ registers

  /** `fetch8`: the byte at `ip`; `ip` moves past it. */
  function Fetch8(s: State): (r: Result<(Byte, State), Fault>)
    ensures r.Ok? <==> 0 <= s.ip < MEMORY_SIZE
    ensures r.Ok? ==> r.value.0 == s.mem[s.ip] && r.value.1 == s.(ip := s.ip + 1)
  {
    var b :- ReadU8(s.mem, s.ip);
    Ok((b, s.(ip := s.ip + 1)))
  }

  /** `fetch16`: the big-endian word at `ip`; `ip` moves past it. */
  function Fetch16(s: State): (r: Result<(Word, State), Fault>)
    ensures r.Ok? <==> WordInRange(s.ip)
    ensures r.Ok? ==> r.value.0 == DecodeBE16(s.mem[s.ip], s.mem[s.ip + 1]) && r.value.1 == s.(ip := s.ip + 2)
  {
    var w :- ReadU16(s.mem, s.ip);
    Ok((w, s.(ip := s.ip + 2)))
  }

  /** `push`: `sp` moves down a word, the value is stored there as a 16-bit word and the
      frame grows by 2; nothing else changes. */
  function Push(s: State, value: int): (r: Result<State, Fault>)
    ensures r.Ok? <==> WordInRange(s.sp - 2)
    ensures r.Ok? ==> r.value.sp == s.sp - 2 && r.value.fs == s.fs + 2
    ensures r.Ok? ==> r.value.ip == s.ip && r.value.fp == s.fp && r.value.entryPoint == s.entryPoint
    ensures r.Ok? ==> ReadU16(r.value.mem, r.value.sp) == Ok(ToU16(value))
  {
    var mem :- WriteU16(s.mem, s.sp - 2, value);
    Ok(s.(sp := s.sp - 2, mem := mem, fs := s.fs + 2))
  }

  /** `pop`: the word at `sp`; `sp` moves up a word and the frame shrinks by 2; memory is
      untouched. */
  function Pop(s: State): (r: Result<(Word, State), Fault>)
    ensures r.Ok? <==> WordInRange(s.sp)
    ensures r.Ok? ==> Ok(r.value.0) == ReadU16(s.mem, s.sp)
    ensures r.Ok? ==> r.value.1 == s.(sp := s.sp + 2, fs := s.fs - 2)
  {
    var v :- ReadU16(s.mem, s.sp);
    Ok((v, s.(sp := s.sp + 2, fs := s.fs - 2)))
  }

  /** Popping right after pushing `v` returns `v` reduced to 16 bits and restores `sp`
      and `fs` exactly. */
  lemma PopAfterPush(s: State, v: int)
    requires Push(s, v).Ok?
    ensures Pop(Push(s, v).value).Ok?
    ensures Pop(Push(s, v).value).value.0 == ToU16(v)
    ensures var t := Pop(Push(s, v).value).value.1;
      t.sp == s.sp && t.fs == s.fs && t.fp == s.fp && t.ip == s.ip
  {
  }

  /** The frame invariant of the calling convention: the frame pointer sits `fs` bytes
      above the stack pointer. */
  predicate FrameLinked(s: State)
  {
    s.fp == s.sp + s.fs
  }

  lemma PushPopKeepFrameLinked(s: State, v: int)
    requires FrameLinked(s)
    ensures Push(s, v).Ok? ==> FrameLinked(Push(s, v).value)
    ensures Pop(s).Ok? ==> FrameLinked(Pop(s).value.1)
  {
  }

  // ------------------------------------------------------------------ operations

  /** The operators of the two-operand instructions. */
  datatype Operator = Plus | Minus | Times | ShiftUp | ShiftDown | Bits(op: BitOp)

  /** The number a two-operand instruction pushes, before the push reduces it to 16
      bits; `a` is the word popped first (the top), `b` the one below it. */
  function Apply(operator: Operator, a: Word, b: Word): int
  {
    match operator
    case Plus => a + b
    case Minus => a - b
    case Times => a * b
    case ShiftUp => ShiftLeft(b, a)
    case ShiftDown => ShiftRight(b, a)
    case Bits(op) => Bitwise(op, a, b)
  }

  /** INC and DEC: add `delta` to the word at `sp` without popping it. */
  function AddInPlace(s: State, delta: int): Result<State, Fault>
  {
    var value :- ReadU16(s.mem, s.sp);
    var mem :- WriteU16(s.mem, s.sp, value as int + delta);
    Ok(s.(mem := mem))
  }

  /** The operator of each two-operand instruction. */
  function OperatorOf(op: Op): Operator
    requires op in {ADD, SUB, MUL, LSF, RSF, AND, OR, XOR}
  {
    match op
    case ADD => Plus
    case SUB => Minus
    case MUL => Times
    case LSF => ShiftUp
    case RSF => ShiftDown
    case AND => Bits(AndBits)
    case OR => Bits(OrBits)
    case XOR => Bits(XorBits)
  }

  /** Two-operand instructions pop `a` (the top) and then `b`, and push the result. */
  function Binary(s: State, operator: Operator): Result<State, Fault>
  {
    var a :- Pop(s);
    var b :- Pop(a.1);
    Push(b.1, Apply(operator, a.0, b.0))
  }

  /** The relations tested by the conditional jumps. */
  datatype Relation = Equal | NotEqual | Greater | Less | GreaterOrEqual | LessOrEqual

  function Holds(relation: Relation, checked: Word, comparison: Word): bool
  {
    match relation
    case Equal => checked == comparison
    case NotEqual => checked != comparison
    case Greater => checked > comparison
    case Less => checked < comparison
    case GreaterOrEqual => checked >= comparison
    case LessOrEqual => checked <= comparison
  }

  /** The relation each comparison jump tests. */
  function RelationOf(op: Op): Relation
    requires op in {JEQ, JNE, JGT, JLT, JGE, JLE}
  {
    match op
    case JEQ => Equal
    case JNE => NotEqual
    case JGT => Greater
    case JLT => Less
    case JGE => GreaterOrEqual
    case JLE => LessOrEqual
  }

  /** The conditional jumps pop the target, then the comparison value, then the value
      tested, and jump when `checked` stands in the relation to `comparison`. */
  function CompareJump(s: State, relation: Relation): Result<State, Fault>
  {
    var target :- Pop(s);
    var comparison :- Pop(target.1);
    var checked :- Pop(comparison.1);
    Ok(if Holds(relation, checked.0, comparison.0) then checked.1.(ip := target.0) else checked.1)
  }

  /** `v << s` on a non-negative 16-bit `v`: JavaScript shifts by `s & 31`; the int32
      wrap-around it may cause disappears in the ToUint16 of the following push. */
  function ShiftLeft(v: Word, s: Word): int
  {
    v * Pow2(s % 32)
  }

  /** `v >> s` on a non-negative 16-bit `v`, again shifting by `s & 31`. */
  function ShiftRight(v: Word, s: Word): int
  {
    v / Pow2(s % 32)
  }

  /** Pops `count` words. The first pop is the last argument, and `args.unshift` puts
      each one in front, so the result is in the order the caller pushed them. */
  function PopArgs(s: State, count: nat): (r: Result<(seq<Word>, State), Fault>)
    ensures r.Ok? ==> |r.value.0| == count
    ensures r.Ok? ==> r.value.1 == s.(sp := s.sp + 2 * count, fs := s.fs - 2 * count)
    ensures r.Ok? ==> forall k :: 0 <= k < count ==>
      Ok(r.value.0[k]) == ReadU16(s.mem, s.sp + 2 * (count - 1 - k))
    decreases count
  {
    if count == 0 then
      Ok(([], s))
    else
      var last :- Pop(s);
      var rest :- PopArgs(last.1, count - 1);
      Ok((rest.0 + [last.0], rest.1))
  }

  /** Pushes the values in order (`args.forEach(arg => this.push(arg))`): value k lands
      `2(k+1)` bytes below the starting `sp`, and no byte outside the pushed words changes. */
  function PushAll(s: State, values: seq<Word>): (r: Result<State, Fault>)
    ensures r.Ok? ==> r.value == s.(sp := s.sp - 2 * |values|, fs := s.fs + 2 * |values|, mem := r.value.mem)
    ensures r.Ok? ==> forall k :: 0 <= k < |values| ==>
      ReadU16(r.value.mem, s.sp - 2 * (k + 1)) == Ok(values[k])
    ensures r.Ok? ==> forall i :: 0 <= i < MEMORY_SIZE && !(s.sp - 2 * |values| <= i < s.sp) ==>
      r.value.mem[i] == s.mem[i]
    decreases |values|
  {
    if |values| == 0 then
      Ok(s)
    else
      var s1 :- Push(s, values[0]);
      PushAll(s1, values[1..])
  }

  /** The word `2(k+1)` bytes below the frame pointer: argument k of the running call. */
  function ArgumentSlot(s: State, k: int): Result<Word, Fault>
  {
    ReadU16(s.mem, s.fp - 2 * (k + 1))
  }

  /** The second half of CALL, once its operands are popped: push the caller's `fs` and
      the return address, point `fp` at the return address with an empty frame, and
      re-push the arguments so that argument k sits at `fp - 2(k+1)`. */
  function EnterFrame(s: State, returnAddress: int, args: seq<Word>): (r: Result<State, Fault>)
    ensures r.Ok? ==> r.value.fp == s.sp - 4 && r.value.ip == s.ip && r.value.entryPoint == s.entryPoint
    ensures r.Ok? ==> r.value.sp == r.value.fp - 2 * |args| && r.value.fs == 2 * |args|
    ensures r.Ok? ==> ReadU16(r.value.mem, r.value.fp) == Ok(ToU16(returnAddress))
    ensures r.Ok? ==> ReadU16(r.value.mem, r.value.fp + 2) == Ok(ToU16(s.fs))
    ensures r.Ok? ==> forall k :: 0 <= k < |args| ==> ArgumentSlot(r.value, k) == Ok(args[k])
  {
    var saved :- Push(s, s.fs);
    var linked :- Push(saved, returnAddress);
    PushAll(linked.(fp := linked.sp, fs := 0), args)
  }

  /** CALL. Pops the target, `nArgs` and the arguments, enters the callee's frame with
      the return address `ip` (already past the CALL byte) and jumps. */
  function Call(s: State): Result<State, Fault>
  {
    var target :- Pop(s);
    var nArgs :- Pop(target.1);
    var args :- PopArgs(nArgs.1, nArgs.0);
    var entered :- EnterFrame(args.1, s.ip, args.0);
    Ok(entered.(ip := target.0))
  }

  /** RET. Reads the result at `sp`, the return address at `fp` and the saved frame size at
      `fp + 2`; drops the callee's frame (`sp = fp + 4`), recomputes the caller's frame
      pointer from the saved size, jumps back and pushes the result. */
  function Ret(s: State): Result<State, Fault>
  {
    var returnValue :- ReadU16(s.mem, s.sp);
    var returnAddress :- ReadU16(s.mem, s.fp);
    var frameSize :- ReadU16(s.mem, s.fp + 2);
    var dropped := s.(sp := s.fp + 4);
    Push(dropped.(fp := dropped.sp + frameSize, fs := frameSize, ip := returnAddress), returnValue)
  }

  /** The cases of the `switch` of `step()` other than HALT, for an opcode byte that
      matched one of the declared constants. SSP has a constant but no case, and DBG
      only prints. */
  /** PUSH: push the 16-bit operand that follows the opcode. */
  function PushImmediate(s: State): Result<State, Fault>
  {
    var imm :- Fetch16(s);
    Push(imm.1, imm.0)
  }

  /** PMS: pop an address and push the word stored there. */
  function PushFromAddress(s: State): Result<State, Fault>
  {
    var address :- Pop(s);
    var value :- ReadU16(address.1.mem, address.0);
    Push(address.1, value)
  }

  /** PMF: pop an address, then a frame offset, and copy the word at the address to
      `fp + offset`. No operand is fetched. */
  function StoreInFrame(s: State): Result<State, Fault>
  {
    var address :- Pop(s);
    var offset :- Pop(address.1);
    var value :- ReadU16(offset.1.mem, address.0);
    var mem :- WriteU16(offset.1.mem, offset.1.fp + offset.0, value);
    Ok(offset.1.(mem := mem))
  }

  /** MSM: pop an address and store there the word now on top, without popping it. */
  function StoreAtAddress(s: State): Result<State, Fault>
  {
    var address :- Pop(s);
    var value :- ReadU16(address.1.mem, address.1.sp);
    var mem :- WriteU16(address.1.mem, address.0, value);
    Ok(address.1.(mem := mem))
  }

  /** CPS: push the word at `fp - offset`, the offset being the operand. */
  function PushFromFrame(s: State): Result<State, Fault>
  {
    var offset :- Fetch16(s);
    var value :- ReadU16(offset.1.mem, offset.1.fp - offset.0);
    Push(offset.1, value)
  }

  /** SMV: pop a word and store it at `fp - offset`, the offset being the operand. */
  function PopToFrame(s: State): Result<State, Fault>
  {
    var offset :- Fetch16(s);
    var value :- Pop(offset.1);
    var mem :- WriteU16(value.1.mem, value.1.fp - offset.0, value.0);
    Ok(value.1.(mem := mem))
  }

  /** NOT: replace the top word by JavaScript's `~a` on the non-negative `a`. */
  function Complement(s: State): Result<State, Fault>
  {
    var a :- Pop(s);
    Push(a.1, -(a.0 as int) - 1)
  }

  /** JMP: pop the target into `ip`. */
  function Jump(s: State): Result<State, Fault>
  {
    var target :- Pop(s);
    Ok(target.1.(ip := target.0))
  }

  /** JNZ: pop the target, then the tested word, and jump when that word is not zero. */
  function JumpUnlessZero(s: State): Result<State, Fault>
  {
    var target :- Pop(s);
    var checked :- Pop(target.1);
    Ok(if checked.0 != 0 then checked.1.(ip := target.0) else checked.1)
  }

  function Transition(op: Op, s: State): Result<State, Fault>
    requires op != HALT
  {
    match op
    case NOP => Ok(s)
    case DBG => Ok(s)
    case SSP => Ok(s)
    case PUSH => PushImmediate(s)
    case PMS => PushFromAddress(s)
    case PMF => StoreInFrame(s)
    case PIP => Push(s, s.ip)
    case PSP => Push(s, s.sp)
    case MSM => StoreAtAddress(s)
    case CPS => PushFromFrame(s)
    case SMV => PopToFrame(s)
    case CALL => Call(s)
    case RET => Ret(s)
    case ADD | SUB | MUL | LSF | RSF | AND | OR | XOR => Binary(s, OperatorOf(op))
    case NOT => Complement(s)
    case INC | DEC => AddInPlace(s, if op == INC then 1 else -1)
    case ISP => Ok(s.(sp := s.sp + 2))
    case DSP => Ok(s.(sp := s.sp - 2))
    case IIP => Ok(s.(ip := s.ip + 2))
    case DIP => Ok(s.(ip := s.ip - 2))
    case JMP => Jump(s)
    case JNZ => JumpUnlessZero(s)
    case JEQ | JNE | JGT | JLT | JGE | JLE => CompareJump(s, RelationOf(op))
  }

  /** `step()`: fetch one opcode byte and run its case. A byte that matches no case
      falls out of the `switch` (there is no `default`) having only advanced `ip`; HALT
      reads the word at `sp` and is the only case that returns true. */
  function Step(s: State): Result<Outcome, Fault>
  {
    var fetched :- Fetch8(s);
    match Decode(fetched.0)
    case None => Ok(Running(fetched.1))
    case Some(HALT) =>
      var result :- ReadU16(fetched.1.mem, fetched.1.sp);
      Ok(Halted(fetched.1, result))
    case Some(op) =>
      var next :- Transition(op, fetched.1);
      Ok(Running(next))
  }

  datatype RunResult = Finished(state: State, result: Word) | Crashed(fault: Fault) | OutOfFuel(state: State)

  /** `run()`: step until a step reports HALT. The source loops without bound; here at most
      `fuel` steps are taken. */
  function Run(s: State, fuel: nat): RunResult
    decreases fuel, 0
  {
    if fuel == 0 then OutOfFuel(s) else After(Step(s), fuel - 1)
  }

  /** What the run does with the outcome of one step, with `fuel` steps left. */
  function After(r: Result<Outcome, Fault>, fuel: nat): RunResult
    decreases fuel, 1
  {
    match r
    case Err(f) => Crashed(f)
    case Ok(Halted(t, v)) => Finished(t, v)
    case Ok(Running(t)) => Run(t, fuel)
  }

  // ------------------------------------------------------------------ loader

  function FromRead<T>(r: Result<T, Header.ReadError>): (q: Result<T, Fault>)
    ensures r.Ok? <==> q.Ok?
    ensures r.Ok? ==> q.value == r.value
  {
    match r
    case Ok(v) => Ok(v)
    case Err(e) => Err(RangeError(e.offset))
  }

  /** The memory of a freshly constructed machine: all zero. */
  function Blank(): Memory
  {
    seq(MEMORY_SIZE, _ => 0)
  }

  /** One section: for i = 0, 2, … < length, the little-endian word at `ptr + i` of the
      file is stored big-endian at `offset + i`. */
  function CopySection(program: seq<Byte>, mem: Memory, d: Header.SectionDescriptor, i: nat): Result<Memory, Fault>
    decreases d.length - i
  {
    if i >= d.length then
      Ok(mem)
    else
      var value :- FromRead(Header.GetUint16(program, d.ptr + i, true));
      var mem' :- WriteU16(mem, d.offset + i, value);
      CopySection(program, mem', d, i + 2)
  }

  /** `sections.forEach(…)`: zero-length sections are skipped, the others copied in
      header order (a later section overwrites an earlier one it overlaps). */
  function CopySections(program: seq<Byte>, mem: Memory, ds: seq<Header.SectionDescriptor>): Result<Memory, Fault>
    decreases |ds|
  {
    if |ds| == 0 then
      Ok(mem)
    else if ds[0].length == 0 then
      CopySections(program, mem, ds[1..])
    else
      var mem' :- CopySection(program, mem, ds[0], 0);
      CopySections(program, mem', ds[1..])
  }

  /** The code bytes, copied verbatim from `codePtr + i` to `base + i`. */
  function CopyCode(program: seq<Byte>, mem: Memory, codePtr: int, base: int, length: int, i: nat): Result<Memory, Fault>
    decreases length - i
  {
    if i >= length then
      Ok(mem)
    else
      var value :- FromRead(if 0 <= codePtr + i < |program| then Ok(program[codePtr + i])
                            else Err(Header.RangeError(codePtr + i)));
      var mem' :- WriteU8(mem, base + i, value);
      CopyCode(program, mem', codePtr, base, length, i + 1)
  }

  /** Where the code goes: right after the last section descriptor of the header, or at 0
      when there is none. */
  function BaseCodeAddress(ds: seq<Header.SectionDescriptor>): nat
  {
    if |ds| == 0 then 0 else ds[|ds| - 1].offset + ds[|ds| - 1].length
  }

  /** `load(program)` on a freshly constructed machine. */
  function Load(program: seq<Byte>): (r: Result<State, Fault>)
    ensures r.Ok? ==> Header.GetHeaderInformation(program).Ok?
    ensures r.Ok? ==>
      var base := BaseCodeAddress(Header.GetHeaderInformation(program).value.sections);
      r.value.ip == r.value.entryPoint == base && r.value.sp == r.value.fp == STACK_TOP && r.value.fs == 0
  {
    var valid :- FromRead(Header.ValidateMagicNumber(program));
    if !valid then
      Err(InvalidBinary)
    else
      var info :- FromRead(Header.GetHeaderInformation(program));
      var mem :- CopySections(program, Blank(), info.sections);
      var base := BaseCodeAddress(info.sections);
      var mem' :- CopyCode(program, mem, info.codePtr, base, info.codeLength, 0);
      Ok(State(mem', base, STACK_TOP, STACK_TOP, 0, base))
  }
}
