/** The lines of `Listing` run on the machine. A machine state shows a frame when its
    stack pointer is that many words below the frame pointer and word i of the frame sits
    at `fp - 2(i+1)`; running the machine's case for a line then shows the frame the
    line's effect in `Listing.Exec1` produces.

    The operand is taken as the machine fetches it: `OperandAt` asks that the big-endian
    word after the opcode be the line's value. The generator stores operands
    little-endian (`Bytes.LEReadAsBE`), so in an assembled image `cps 0x2` fetches 0x200
    and these lemmas apply only where both bytes of the operand agree. */
module ListingOnMachine {
  import opened Bytes
  import opened Results
  import opened Instructions
  import opened StackMachine
  import L = Listing
  import Translate

  /** Word i of the frame is stored at `fp - 2(i+1)`. */
  predicate SlotHolds(s: State, f: L.Frame, i: int)
    requires 0 <= i < |f|
  {
    ReadU16(s.mem, s.fp - 2 * (i + 1)) == Ok(f[i])
  }

  predicate Shows(s: State, f: L.Frame)
  {
    && s.sp == s.fp - 2 * |f|
    && forall i :: 0 <= i < |f| ==> SlotHolds(s, f, i)
  }

  /** The opcode a line is assembled to. */
  function OpcodeOf(l: L.Line): (r: Op)
    ensures r != HALT
  {
    match l
    case PushLine(_) => PUSH
    case CopyLine(_) => CPS
    case StoreLine(_) => SMV
    case OpLine(op) => match op case AddOp => ADD case SubOp => SUB case MulOp => MUL
  }

  /** The word after the opcode is the line's operand, as `fetch16` reads it. */
  predicate OperandAt(l: L.Line, s: State)
  {
    match l
    case PushLine(v) => ReadU16(s.mem, s.ip) == Ok(ToU16(v))
    case CopyLine(o) => ReadU16(s.mem, s.ip) == Ok(o)
    case StoreLine(o) => ReadU16(s.mem, s.ip) == Ok(o)
    case OpLine(_) => true
  }

  /** The machine's case for each line is the one `step()` dispatches its opcode to, and
      the arithmetic lines use the operator `Listing` gives them. */
  lemma OpcodeCases(l: L.Line, s: State)
    ensures l.PushLine? ==> Transition(OpcodeOf(l), s) == PushImmediate(s)
    ensures l.CopyLine? ==> Transition(OpcodeOf(l), s) == PushFromFrame(s)
    ensures l.StoreLine? ==> Transition(OpcodeOf(l), s) == PopToFrame(s)
    ensures l.OpLine? ==> Transition(OpcodeOf(l), s) == Binary(s, L.OperatorOf(l.op))
  {
  }

  /** Pushing onto a state that shows f shows f with the value, reduced to 16 bits, on
      top; the words already in the frame lie above the new one and keep their values. */
  lemma PushShows(s: State, f: L.Frame, value: int, t: State)
    requires Shows(s, f)
    requires Push(s, value) == Ok(t)
    ensures Shows(t, f + [ToU16(value)])
    ensures t.fp == s.fp && t.ip == s.ip
  {
    var g := f + [ToU16(value)];
    assert t.mem == WriteU16(s.mem, s.sp - 2, value).value;
    forall i | 0 <= i < |g|
      ensures SlotHolds(t, g, i)
    {
      if i < |f| {
        assert SlotHolds(s, f, i);
        ReadAfterWrite(s.mem, s.sp - 2, value, s.fp - 2 * (i + 1));
      }
    }
  }

  /** Moving the stack pointer up n words without touching memory shows the frame
      without its top n words. */
  lemma DropShows(s: State, f: L.Frame, n: nat, t: State)
    requires Shows(s, f)
    requires n <= |f|
    requires t.mem == s.mem && t.fp == s.fp && t.sp == s.sp + 2 * n
    ensures Shows(t, f[..|f| - n])
  {
    var g := f[..|f| - n];
    forall i | 0 <= i < |g|
      ensures SlotHolds(t, g, i)
    {
      assert SlotHolds(s, f, i);
    }
  }

  /** PUSH v. */
  lemma PushLineSimulated(s: State, f: L.Frame, v: nat, t: State)
    requires Shows(s, f)
    requires OperandAt(L.PushLine(v), s)
    requires PushImmediate(s) == Ok(t)
    ensures Shows(t, L.Exec1(L.PushLine(v), f).value)
    ensures t.fp == s.fp && t.ip == s.ip + 2
  {
    var imm := Fetch16(s).value;
    assert imm.0 == ToU16(v) && imm.1 == s.(ip := s.ip + 2);
    DropShows(s, f, 0, imm.1);
    assert f[..|f| - 0] == f;
    PushShows(imm.1, f, imm.0, t);
  }

  /** CPS o, with o naming a word of the frame. */
  lemma CopyLineSimulated(s: State, f: L.Frame, o: nat, t: State)
    requires Shows(s, f)
    requires OperandAt(L.CopyLine(o), s)
    requires L.InFrame(o, |f|)
    requires PushFromFrame(s) == Ok(t)
    ensures Shows(t, L.Exec1(L.CopyLine(o), f).value)
    ensures t.fp == s.fp && t.ip == s.ip + 2
  {
    var offset := Fetch16(s).value;
    var k := L.SlotIndex(o);
    assert offset.0 == o && s.fp - o == s.fp - 2 * (k + 1);
    assert SlotHolds(s, f, k);
    var value := ReadU16(offset.1.mem, offset.1.fp - offset.0).value;
    assert value == f[k];
    DropShows(s, f, 0, offset.1);
    assert f[..|f| - 0] == f;
    PushShows(offset.1, f, value, t);
  }

  /** SMV o, with o naming a word of the frame below the popped one. */
  lemma StoreLineSimulated(s: State, f: L.Frame, o: nat, t: State)
    requires Shows(s, f)
    requires OperandAt(L.StoreLine(o), s)
    requires |f| >= 1 && L.InFrame(o, |f| - 1)
    requires PopToFrame(s) == Ok(t)
    ensures Shows(t, L.Exec1(L.StoreLine(o), f).value)
    ensures t.fp == s.fp && t.ip == s.ip + 2
  {
    var offset := Fetch16(s).value;
    var k := L.SlotIndex(o);
    var top := |f| - 1;
    assert offset.0 == o && s.fp - o == s.fp - 2 * (k + 1);
    var popped := Pop(offset.1).value;
    assert SlotHolds(s, f, top);
    assert popped.0 == f[top];
    var g := f[..top][k := f[top]];
    assert t.mem == WriteU16(popped.1.mem, s.fp - o, popped.0).value;
    forall i | 0 <= i < |g|
      ensures SlotHolds(t, g, i)
    {
      if i != k {
        assert SlotHolds(s, f, i);
        ReadAfterWrite(popped.1.mem, s.fp - o, popped.0, s.fp - 2 * (i + 1));
      }
    }
  }

  /** ADD, SUB, MUL: the top two words become one, the operation applied with the top
      word as its first operand. */
  lemma OpLineSimulated(s: State, f: L.Frame, op: Translate.ArithOp, t: State)
    requires Shows(s, f)
    requires |f| >= 2
    requires Binary(s, L.OperatorOf(op)) == Ok(t)
    ensures Shows(t, L.Exec1(L.OpLine(op), f).value)
    ensures t.fp == s.fp && t.ip == s.ip
  {
    var a := Pop(s).value;
    var b := Pop(a.1).value;
    assert SlotHolds(s, f, |f| - 1) && SlotHolds(s, f, |f| - 2);
    assert a.0 == f[|f| - 1] && b.0 == f[|f| - 2];
    DropShows(s, f, 2, b.1);
    PushShows(b.1, f[..|f| - 2], Apply(L.OperatorOf(op), a.0, b.0), t);
  }

  /** Every line whose effect is defined on the frame does on the machine what
      `Listing.Exec1` says, whenever the machine's case for its opcode succeeds: the
      resulting state shows the new frame, `fp` is kept and `ip` has moved past the
      operand. */
  lemma LineSimulated(l: L.Line, s: State, f: L.Frame, t: State)
    requires Shows(s, f)
    requires OperandAt(l, s)
    requires L.Exec1(l, f).Some?
    requires Transition(OpcodeOf(l), s) == Ok(t)
    ensures Shows(t, L.Exec1(l, f).value)
    ensures t.fp == s.fp && t.ip == s.ip + (if l.OpLine? then 0 else 2)
  {
    OpcodeCases(l, s);
    match l
    case PushLine(v) => PushLineSimulated(s, f, v, t);
    case CopyLine(o) => CopyLineSimulated(s, f, o, t);
    case StoreLine(o) => StoreLineSimulated(s, f, o, t);
    case OpLine(op) => OpLineSimulated(s, f, op, t);
  }
}
