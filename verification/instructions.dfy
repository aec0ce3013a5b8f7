/** The opcode table the interpreter and the assembler generator dispatch on
    (`src/instructions.js`). Node resolves `require('./instructions')` to this file
    before the directory of the same name, so this numbering — not the one in
    `src/instructions/descriptions.js` — is the one that reaches the binary. */
module Instructions {
  import opened Bytes
  import opened Results

  datatype Op =
    | PUSH | PIP | PSP | ADD | INC | DEC | MUL | SUB | LSF | RSF
    | CALL | RET | ISP | DSP | IIP | DIP | JNZ | JMP | SSP | PMS
    | PMF | MSM | CPS | SMV | JEQ | JNE | JGT | JLT | JGE | JLE
    | AND | OR | XOR | NOT
    | HALT | DBG | NOP

  function Opcode(op: Op): Byte
  {
    match op
    case PUSH => 0x01
    case PIP => 0x02
    case PSP => 0x03
    case ADD => 0x04
    case INC => 0x05
    case DEC => 0x06
    case MUL => 0x07
    case SUB => 0x08
    case LSF => 0x09
    case RSF => 0x0A
    case CALL => 0x0B
    case RET => 0x0C
    case ISP => 0x0D
    case DSP => 0x0E
    case IIP => 0x0F
    case DIP => 0x10
    case JNZ => 0x11
    case JMP => 0x12
    case SSP => 0x13
    case PMS => 0x14
    case PMF => 0x15
    case MSM => 0x16
    case CPS => 0x17
    case SMV => 0x18
    case JEQ => 0x19
    case JNE => 0x1A
    case JGT => 0x1B
    case JLT => 0x1C
    case JGE => 0x1D
    case JLE => 0x1E
    case AND => 0x1F
    case OR => 0x20
    case XOR => 0x21
    case NOT => 0x22
    case HALT => 0xFF
    case DBG => 0xFE
    case NOP => 0xFD
  }

  /** The exported constant's name, as the generator finds it after upper-casing a mnemonic. */
  function Name(op: Op): string
  {
    match op
    case PUSH => "PUSH"
    case PIP => "PIP"
    case PSP => "PSP"
    case ADD => "ADD"
    case INC => "INC"
    case DEC => "DEC"
    case MUL => "MUL"
    case SUB => "SUB"
    case LSF => "LSF"
    case RSF => "RSF"
    case CALL => "CALL"
    case RET => "RET"
    case ISP => "ISP"
    case DSP => "DSP"
    case IIP => "IIP"
    case DIP => "DIP"
    case JNZ => "JNZ"
    case JMP => "JMP"
    case SSP => "SSP"
    case PMS => "PMS"
    case PMF => "PMF"
    case MSM => "MSM"
    case CPS => "CPS"
    case SMV => "SMV"
    case JEQ => "JEQ"
    case JNE => "JNE"
    case JGT => "JGT"
    case JLT => "JLT"
    case JGE => "JGE"
    case JLE => "JLE"
    case AND => "AND"
    case OR => "OR"
    case XOR => "XOR"
    case NOT => "NOT"
    case HALT => "HALT"
    case DBG => "DBG"
    case NOP => "NOP"
  }

  /** The constants in the order they are declared. */
  const Declared: seq<Op> :=
    [PUSH, PIP, PSP, ADD, INC, DEC, MUL, SUB, LSF, RSF, CALL, RET, ISP, DSP, IIP, DIP, JNZ,
     JMP, SSP, PMS, PMF, MSM, CPS, SMV, JEQ, JNE, JGT, JLT, JGE, JLE, AND, OR, XOR, NOT,
     HALT, DBG, NOP]

  /** The interpreter's dispatch: which constant, if any, a fetched byte equals. */
  function Decode(b: int): Option<Op>
  {
    match b
    case 0x01 => Some(PUSH)
    case 0x02 => Some(PIP)
    case 0x03 => Some(PSP)
    case 0x04 => Some(ADD)
    case 0x05 => Some(INC)
    case 0x06 => Some(DEC)
    case 0x07 => Some(MUL)
    case 0x08 => Some(SUB)
    case 0x09 => Some(LSF)
    case 0x0A => Some(RSF)
    case 0x0B => Some(CALL)
    case 0x0C => Some(RET)
    case 0x0D => Some(ISP)
    case 0x0E => Some(DSP)
    case 0x0F => Some(IIP)
    case 0x10 => Some(DIP)
    case 0x11 => Some(JNZ)
    case 0x12 => Some(JMP)
    case 0x13 => Some(SSP)
    case 0x14 => Some(PMS)
    case 0x15 => Some(PMF)
    case 0x16 => Some(MSM)
    case 0x17 => Some(CPS)
    case 0x18 => Some(SMV)
    case 0x19 => Some(JEQ)
    case 0x1A => Some(JNE)
    case 0x1B => Some(JGT)
    case 0x1C => Some(JLT)
    case 0x1D => Some(JGE)
    case 0x1E => Some(JLE)
    case 0x1F => Some(AND)
    case 0x20 => Some(OR)
    case 0x21 => Some(XOR)
    case 0x22 => Some(NOT)
    case 0xFF => Some(HALT)
    case 0xFE => Some(DBG)
    case 0xFD => Some(NOP)
    case _ => None
  }

  /** Decoding inverts the opcode assignment on both sides: every constant is found
      again from its byte, and a byte decodes only to the constant that owns it. */
  lemma DecodeInvertsOpcode(op: Op, b: int)
    ensures Decode(Opcode(op)) == Some(op)
    ensures Decode(b) == Some(op) <==> b == Opcode(op)
  {
    DecodeFindsOpcode(op);
    DecodeOnlyOwnByte(b);
  }

  lemma DecodeFindsOpcode(op: Op)
    ensures Decode(Opcode(op)) == Some(op)
  {
  }

  lemma DecodeOnlyOwnByte(b: int)
    ensures Decode(b).Some? ==> Opcode(Decode(b).value) == b
  {
  }

  lemma OpcodesDistinct(a: Op, b: Op)
    ensures Opcode(a) == Opcode(b) <==> a == b
  {
    DecodeFindsOpcode(a);
    DecodeFindsOpcode(b);
  }

  /** PUSH … NOT receive 0x01 … 0x22 in declaration order; the control codes sit at the top
      of the byte range. */
  lemma DeclaredNumbering()
    ensures |Declared| == 37
    ensures forall i :: 0 <= i < 34 ==> Opcode(Declared[i]) == i + 1
    ensures Opcode(HALT) == 0xFF && Opcode(DBG) == 0xFE && Opcode(NOP) == 0xFD
  {
    NumberingStackAndArithmetic();
    NumberingCallsAndMemory();
    NumberingMovesAndJumps();
    NumberingJumpsAndBitwise();
  }

  // The four slices below are small enough for the solver to enumerate.

  lemma NumberingStackAndArithmetic()
    ensures forall i :: 0 <= i < 9 ==> Opcode(Declared[i]) == i + 1
  {
  }

  lemma NumberingCallsAndMemory()
    ensures forall i :: 9 <= i < 18 ==> Opcode(Declared[i]) == i + 1
  {
  }

  lemma NumberingMovesAndJumps()
    ensures forall i :: 18 <= i < 26 ==> Opcode(Declared[i]) == i + 1
  {
  }

  lemma NumberingJumpsAndBitwise()
    ensures forall i :: 26 <= i < 34 ==> Opcode(Declared[i]) == i + 1
  {
  }

  /** Every constant is exported (appears in the declaration list). */
  lemma DeclaredComplete(op: Op)
    ensures op in Declared
  {
    DeclaredNumbering();
    var i := if Opcode(op) <= 0x22 then Opcode(op) - 1 else 0xFF - Opcode(op) + 34;
    assert Opcode(Declared[i]) == Opcode(op);
    OpcodesDistinct(Declared[i], op);
  }

  /** The table has no JZ and no CPOS constant. */
  lemma NoJzNoCpos(op: Op)
    ensures Name(op) != "JZ" && Name(op) != "CPOS"
  {
  }
}
