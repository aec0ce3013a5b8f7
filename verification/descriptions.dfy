/** The alternative opcode table (`src/instructions/descriptions.js`), numbered by a
    running `nextOpcode++`, and its reduction to a mnemonic → opcode object
    (`src/instructions/index.js`). Neither the interpreter nor the generator uses it. */
module Descriptions {
  import Instructions

  datatype Description = Description(opcode: int, argument: bool, instruction: string)

  /** The mnemonics of the entries, in list order. */
  const Mnemonics: seq<string> := [
    "PUSH", "PIP", "PSP", "PMS", "PMF", "CPS",
    "ADD", "INC", "DEC", "MUL", "SUB", "LSF", "RSF", "AND", "OR", "XOR", "NOT",
    "CALL", "RET",
    "ISP", "DSP", "IIP", "DIP", "SSP", "HALT", "DBG", "NOP",
    "JNZ", "JZ", "JMP", "JEQ", "JNE", "JGT", "JLT", "JGE", "JLE",
    "MSM", "SMV", "CPOS"
  ]

  /** The `argument` flags of the entries, in the same order. */
  const Flags: seq<bool> := [
    true, false, false, false, true, true,
    false, false, false, false, false, false, false, false, false, false, false,
    false, false,
    false, false, false, false, false, false, false, false,
    false, false, false, false, false, false, false, false, false,
    false, true, false
  ]

  /** Gives the entries the opcodes `next, next + 1, …` in list order: the value the shared
      `nextOpcode++` counter has reached when entry `i` is built is `next + i`. */
  function Number(flags: seq<bool>, names: seq<string>, next: int): seq<Description>
    requires |flags| == |names|
  {
    seq(|names|, i requires 0 <= i < |names| => Description(next + i, flags[i], names[i]))
  }

  const Table: seq<Description> := Number(Flags, Mnemonics, 1)

  /** The 39 entries cover the opcodes 1 … 39 densely, in list order. */
  lemma TableDense()
    ensures |Table| == 39
    ensures forall i :: 0 <= i < 39 ==> Table[i] == Description(i + 1, Flags[i], Mnemonics[i])
    ensures forall n :: n in Opcodes(Table) <==> 1 <= n <= 39
  {
    forall n ensures n in Opcodes(Table) <==> 1 <= n <= 39 {
      if 1 <= n <= 39 {
        assert Table[n - 1].opcode == n;
      }
      if n in Opcodes(Table) {
        var d :| d in Table && d.opcode == n;
        var i :| 0 <= i < |Table| && Table[i] == d;
      }
    }
  }

  function Opcodes(ds: seq<Description>): set<int>
  {
    set d | d in ds :: d.opcode
  }

  /** No mnemonic is listed twice. */
  lemma NamesDistinct()
    ensures forall i, j :: 0 <= i < j < |Table| ==> Table[i].instruction != Table[j].instruction
  {
    MnemonicsDistinct();
    TableDense();
  }

  lemma MnemonicsDistinct()
    ensures forall i, j :: 0 <= i < j < |Mnemonics| ==> Mnemonics[i] != Mnemonics[j]
  {
    MnemonicRowsDistinct0();
    MnemonicRowsDistinct1();
    MnemonicRowsDistinct2();
    MnemonicRowsDistinct3();
    MnemonicRowsDistinct4();
    MnemonicRowsDistinct5();
    MnemonicRowsDistinct6();
  }

  // The pairwise comparison split by rows, to keep each proof small.

  lemma MnemonicRowsDistinct0()
    ensures forall i, j :: 0 <= i < 1 && i < j < |Mnemonics| ==> Mnemonics[i] != Mnemonics[j]
  {
  }

  lemma MnemonicRowsDistinct1()
    ensures forall i, j :: 1 <= i < 2 && i < j < |Mnemonics| ==> Mnemonics[i] != Mnemonics[j]
  {
  }

  lemma MnemonicRowsDistinct2()
    ensures forall i, j :: 2 <= i < 3 && i < j < |Mnemonics| ==> Mnemonics[i] != Mnemonics[j]
  {
  }

  lemma MnemonicRowsDistinct3()
    ensures forall i, j :: 3 <= i < 5 && i < j < |Mnemonics| ==> Mnemonics[i] != Mnemonics[j]
  {
  }

  lemma MnemonicRowsDistinct4()
    ensures forall i, j :: 5 <= i < 11 && i < j < |Mnemonics| ==> Mnemonics[i] != Mnemonics[j]
  {
  }

  lemma MnemonicRowsDistinct5()
    ensures forall i, j :: 11 <= i < 18 && i < j < |Mnemonics| ==> Mnemonics[i] != Mnemonics[j]
  {
  }

  lemma MnemonicRowsDistinct6()
    ensures forall i, j :: 18 <= i < 39 && i < j < |Mnemonics| ==> Mnemonics[i] != Mnemonics[j]
  {
  }

  /** Exactly PUSH, PMF, CPS and SMV are flagged as taking an immediate. */
  lemma ArgumentFlags()
    ensures forall i :: 0 <= i < |Table| ==>
      (Table[i].argument <==> Table[i].instruction in {"PUSH", "PMF", "CPS", "SMV"})
  {
    FlagsMatchMnemonics();
    TableDense();
  }

  lemma FlagsMatchMnemonics()
    ensures forall i :: 0 <= i < |Mnemonics| ==>
      (Flags[i] <==> Mnemonics[i] in {"PUSH", "PMF", "CPS", "SMV"})
  {
    FlagRowsMatch0();
    FlagRowsMatch1();
    FlagRowsMatch2();
    FlagRowsMatch3();
  }

  lemma FlagRowsMatch0()
    ensures forall i :: 0 <= i < 10 ==> (Flags[i] <==> Mnemonics[i] in {"PUSH", "PMF", "CPS", "SMV"})
  {
  }

  lemma FlagRowsMatch1()
    ensures forall i :: 10 <= i < 20 ==> (Flags[i] <==> Mnemonics[i] in {"PUSH", "PMF", "CPS", "SMV"})
  {
  }

  lemma FlagRowsMatch2()
    ensures forall i :: 20 <= i < 30 ==> (Flags[i] <==> Mnemonics[i] in {"PUSH", "PMF", "CPS", "SMV"})
  {
  }

  lemma FlagRowsMatch3()
    ensures forall i :: 30 <= i < 39 ==> (Flags[i] <==> Mnemonics[i] in {"PUSH", "PMF", "CPS", "SMV"})
  {
  }

  /** The two tables disagree: HALT is 25 here and 0xFF in the table that is dispatched on. */
  lemma NumberingDiffers()
    ensures Table[24].instruction == Instructions.Name(Instructions.HALT)
    ensures Table[24].opcode == 25 != Instructions.Opcode(Instructions.HALT)
  {
    HaltEntry(Table);
  }

  lemma HaltEntry(t: seq<Description>)
    requires t == Table
    ensures |t| == 39 && t[24] == Description(25, false, "HALT")
  {
    TableDense();
    assert t[24] == Description(25, Flags[24], Mnemonics[24]);
  }

  /** `descriptions.reduce((acc, d) => { acc[d.instruction] = d.opcode; … }, {})`: later
      entries overwrite earlier ones with the same name. */
  function ToOpcodeMap(ds: seq<Description>): map<string, int>
  {
    if |ds| == 0 then map[]
    else ToOpcodeMap(ds[..|ds| - 1])[ds[|ds| - 1].instruction := ds[|ds| - 1].opcode]
  }

  /** The keys are exactly the listed mnemonics. */
  lemma {:induction false} OpcodeMapKeys(ds: seq<Description>)
    ensures ToOpcodeMap(ds).Keys == set i | 0 <= i < |ds| :: ds[i].instruction
  {
    if |ds| > 0 {
      var init := ds[..|ds| - 1];
      OpcodeMapKeys(init);
      assert forall i :: 0 <= i < |init| ==> init[i] == ds[i];
      var lhs := ToOpcodeMap(ds).Keys;
      var rhs := set i | 0 <= i < |ds| :: ds[i].instruction;
      forall k | k in rhs ensures k in lhs {
        var i :| 0 <= i < |ds| && ds[i].instruction == k;
        if i < |ds| - 1 {
          assert init[i].instruction == k;
        }
      }
    }
  }

  /** An entry's opcode survives unless a later entry has the same mnemonic. */
  lemma {:induction false} OpcodeMapLastWins(ds: seq<Description>, i: int)
    requires 0 <= i < |ds|
    requires forall j :: i < j < |ds| ==> ds[j].instruction != ds[i].instruction
    ensures ds[i].instruction in ToOpcodeMap(ds)
    ensures ToOpcodeMap(ds)[ds[i].instruction] == ds[i].opcode
  {
    if i < |ds| - 1 {
      var init := ds[..|ds| - 1];
      OpcodeMapLastWins(init, i);
    }
  }

  /** With distinct mnemonics no key is overwritten: every mnemonic maps to its own opcode;
      with distinct opcodes as well, the map is injective. */
  lemma OpcodeMapOfDistinct(ds: seq<Description>)
    requires forall i, j :: 0 <= i < j < |ds| ==> ds[i].instruction != ds[j].instruction
    ensures forall i :: 0 <= i < |ds| ==>
      ds[i].instruction in ToOpcodeMap(ds) && ToOpcodeMap(ds)[ds[i].instruction] == ds[i].opcode
    ensures (forall i, j :: 0 <= i < j < |ds| ==> ds[i].opcode != ds[j].opcode) ==>
      forall a, b :: a in ToOpcodeMap(ds) && b in ToOpcodeMap(ds) && a != b ==>
        ToOpcodeMap(ds)[a] != ToOpcodeMap(ds)[b]
  {
    var m := ToOpcodeMap(ds);
    OpcodeMapKeys(ds);
    forall i | 0 <= i < |ds|
      ensures ds[i].instruction in m && m[ds[i].instruction] == ds[i].opcode
    {
      OpcodeMapLastWins(ds, i);
    }
  }

  /** Reducing the table overwrites no key: every mnemonic maps to its own opcode, the key
      set is the 39 mnemonics, and the map is injective. */
  lemma TableOpcodeMap()
    ensures forall i :: 0 <= i < |Table| ==>
      Table[i].instruction in ToOpcodeMap(Table) && ToOpcodeMap(Table)[Table[i].instruction] == i + 1
    ensures ToOpcodeMap(Table).Keys == set i | 0 <= i < |Table| :: Table[i].instruction
    ensures forall a, b :: a in ToOpcodeMap(Table) && b in ToOpcodeMap(Table) && a != b ==>
      ToOpcodeMap(Table)[a] != ToOpcodeMap(Table)[b]
  {
    TableDense();
    NamesDistinct();
    OpcodeMapKeys(Table);
    OpcodeMapOfDistinct(Table);
  }
}
