/** The assembler back end (`assembler/generator/index.js`): encodes the data sections,
    lays out the code, resolves symbolic arguments once the layout is fixed, and emits
    header, sections and code as one byte string.

    The binary is built with construct-js, which is not part of this model; its fields
    are modelled as fixed-width encoders: `U8` one byte, `U16` two bytes little-endian
    (the order the loader reads header fields in), `U8s(n)` n zero bytes, a struct the
    concatenation of its fields, and `getOffset(name)` the size of the fields before the
    first field with that name. Values stored in a field are truncated as a `DataView`
    truncates them. */
module Generator {
  import opened Bytes
  import opened Results
  import opened Instructions
  import opened Sequences
  import opened Ast
  import Header
  import StackMachine

  datatype GenError =
    | UnknownLabel(name: string)  // construct-js finds no field with that name
    | UnknownData(name: string)    // "Cannot find <name> in section data"

  // ---------------------------------------------------------------- data entries

  /** `U16s(values)`: each value a little-endian word. */
  function WordsLE(ws: seq<int>): (r: seq<Byte>)
    ensures |r| == 2 * |ws|
  {
    if |ws| == 0 then [] else EncodeLE16(ToU16(ws[0])) + WordsLE(ws[1..])
  }

  /** `(b1 << 8) | b2`: two code units below 2^16 never reach the sign bit of the
      32-bit shift. */
  function PackPair(b1: Word, b2: Word): nat
  {
    Bitwise(OrBits, b1 * 0x100, b2)
  }

  /** The ascii loop: code units two at a time, an odd last one paired with 0. */
  function PackAscii(units: seq<Word>): (r: seq<nat>)
    ensures |r| == (|units| + 1) / 2
    decreases |units|
  {
    if |units| == 0 then []
    else if |units| == 1 then [PackPair(units[0], 0)]
    else [PackPair(units[0], units[1])] + PackAscii(units[2..])
  }

  /** The bytes `fillDataSection` adds for one entry. */
  function EntryBytes(d: DataKind): seq<Byte>
  {
    match d
    case ByteData(values) => seq(|values|, i requires 0 <= i < |values| => ToU8(values[i]))
    case WordData(values) => WordsLE(values)
    case AsciiData(units) => WordsLE(PackAscii(units))
    case BufferData(size) => seq(size, _ => 0)
  }

  function EntryChunks(entries: seq<DataEntry>): (r: seq<seq<Byte>>)
    ensures |r| == |entries|
    ensures forall i :: 0 <= i < |entries| ==> r[i] == EntryBytes(entries[i].data)
  {
    seq(|entries|, i requires 0 <= i < |entries| => EntryBytes(entries[i].data))
  }

  /** A section struct: its entries' bytes in order (comments add nothing). */
  function SectionBytes(s: Section): seq<Byte>
  {
    Flatten(EntryChunks(Entries(s.items)))
  }

  /** `struct.getOffset(name)` for the k-th entry: the size of the entries before it. */
  function EntryOffset(entries: seq<DataEntry>, k: nat): nat
    requires k <= |entries|
  {
    |Flatten(EntryChunks(entries[..k]))|
  }

  /** `bytes` take one byte per value, `words` two, `ascii` two per pair of code units
      (an odd one rounded up) and `buffer` its size. */
  lemma EntrySize(d: DataKind)
    ensures |EntryBytes(d)| == match d
      case ByteData(values) => |values|
      case WordData(values) => 2 * |values|
      case AsciiData(units) => 2 * ((|units| + 1) / 2)
      case BufferData(size) => size
  {
  }

  /** Value j of a `words` entry reads back, little-endian, from bytes 2j and 2j+1. */
  lemma {:induction false} WordsReadBack(ws: seq<int>, j: nat)
    requires j < |ws|
    ensures DecodeLE16(WordsLE(ws)[2 * j], WordsLE(ws)[2 * j + 1]) == ToU16(ws[j])
    decreases j
  {
    LE16RoundTrip(ToU16(ws[0]));
    if j > 0 {
      WordsReadBack(ws[1..], j - 1);
      assert WordsLE(ws)[2 * j] == WordsLE(ws[1..])[2 * (j - 1)];
      assert WordsLE(ws)[2 * j + 1] == WordsLE(ws[1..])[2 * (j - 1) + 1];
    }
  }

  /** Or-ing a number shifted up k bits with one below 2^k is addition. */
  lemma {:induction false} OrBelow(a: nat, b: nat, k: nat)
    requires b < Pow2(k)
    ensures Bitwise(OrBits, a * Pow2(k), b) == a * Pow2(k) + b
    decreases k
  {
    if k == 0 {
      OrZero(a);
    } else {
      var x := a * Pow2(k);
      assert x == 2 * (a * Pow2(k - 1));
      if x != 0 || b != 0 {
        OrBelow(a, b / 2, k - 1);
        assert x / 2 == a * Pow2(k - 1) && x % 2 == 0;
      }
    }
  }

  lemma {:induction false} OrZero(a: nat)
    ensures Bitwise(OrBits, a, 0) == a
    decreases a
  {
    if a != 0 {
      OrZero(a / 2);
    }
  }

  /** Word i of an ascii entry of byte-sized code units is `c[2i] * 256 + c[2i+1]`,
      with 0 standing for the missing partner of an odd last unit. */
  lemma {:induction false} AsciiWords(units: seq<Word>, i: nat)
    requires forall j :: 0 <= j < |units| ==> units[j] < 0x100
    requires i < (|units| + 1) / 2
    ensures PackAscii(units)[i] == units[2 * i] * 0x100 + (if 2 * i + 1 < |units| then units[2 * i + 1] else 0)
    decreases i
  {
    assert Pow2(8) == 0x100 by {
      assert Pow2(4) == 16;
    }
    if i == 0 {
      var lo := if 1 < |units| then units[1] else 0;
      OrBelow(units[0], lo, 8);
    } else {
      AsciiWords(units[2..], i - 1);
    }
  }

  /** Splitting each word back into its high and low byte. */
  function UnpackAscii(words: seq<int>): (r: seq<int>)
    ensures |r| == 2 * |words|
  {
    if |words| == 0 then [] else [words[0] / 0x100, words[0] % 0x100] + UnpackAscii(words[1..])
  }

  /** For text of byte-sized code units the packing loses nothing but adds one 0 after
      an odd-length text. */
  lemma {:induction false} AsciiRoundTrip(units: seq<Word>)
    requires forall j :: 0 <= j < |units| ==> units[j] < 0x100
    ensures UnpackAscii(PackAscii(units)) == units + (if |units| % 2 == 1 then [0] else [])
    decreases |units|
  {
    if |units| > 0 {
      AsciiWords(units, 0);
      if |units| > 1 {
        AsciiRoundTrip(units[2..]);
        assert PackAscii(units)[1..] == PackAscii(units[2..]);
        assert units == [units[0], units[1]] + units[2..];
      }
    }
  }

  /** Entry k of a section sits at its offset: its bytes follow those of the entries
      before it. */
  lemma EntryLocated(entries: seq<DataEntry>, k: nat)
    requires k < |entries|
    ensures EntryOffset(entries, k) + |EntryBytes(entries[k].data)| <= |Flatten(EntryChunks(entries))|
    ensures Flatten(EntryChunks(entries))[EntryOffset(entries, k)..EntryOffset(entries, k) + |EntryBytes(entries[k].data)|]
      == EntryBytes(entries[k].data)
  {
    var chunks := EntryChunks(entries);
    assert EntryChunks(entries[..k]) == chunks[..k];
    FlattenChunk(chunks, k);
  }

  // ---------------------------------------------------------------- code layout

  /** The struct `__GLOBAL_VM_ENTRY`, the first field of the code struct. */
  const GLOBAL_ENTRY: string := "__GLOBAL_VM_ENTRY"

  /** A label adds an empty struct; an instruction an opcode byte and, iff it has an
      argument, a 16-bit field. */
  function ElementSize(e: CodeElement): nat
  {
    match e
    case Label(_) => 0
    case Instruction(_, argument) => if argument.Some? then 3 else 1
  }

  /** `code.computeBufferSize()` over a run of elements. */
  function CodeSize(code: seq<CodeElement>): nat
  {
    if |code| == 0 then 0 else ElementSize(code[0]) + CodeSize(code[1..])
  }

  lemma {:induction false} CodeSizeAppend(a: seq<CodeElement>, b: seq<CodeElement>)
    ensures CodeSize(a + b) == CodeSize(a) + CodeSize(b)
    decreases |a|
  {
    if |a| == 0 {
      assert a + b == b;
    } else {
      assert (a + b)[1..] == a[1..] + b;
      CodeSizeAppend(a[1..], b);
    }
  }

  // ---------------------------------------------------------------- sections

  function SectionChunks(sections: seq<Section>): (r: seq<seq<Byte>>)
    ensures |r| == |sections|
    ensures forall i :: 0 <= i < |sections| ==> r[i] == SectionBytes(sections[i])
  {
    seq(|sections|, i requires 0 <= i < |sections| => SectionBytes(sections[i]))
  }

  /** The `AllSections` struct: every section's bytes, in order. */
  function AllSections(sections: seq<Section>): seq<Byte>
  {
    Flatten(SectionChunks(sections))
  }

  /** `sectionsStruct.get(name)`: the first section with that name. */
  function SectionNamed(sections: seq<Section>, name: string): (s: Section)
    requires name in SectionNames(sections)
    ensures s in sections && s.name == name
  {
    sections[FirstIndex(SectionNames(sections), name).value]
  }

  /** Whether a section has an entry with that name. */
  predicate Declares(s: Section, name: string)
  {
    name in EntryNames(Entries(s.items))
  }

  // ---------------------------------------------------------------- resolution

  /** The code base the generator assumes: the last declared section's address plus the
      size of the section that name finds (0 with no sections). */
  function CodeBase(sections: seq<Section>): nat
  {
    if |sections| == 0 then 0
    else
      var last := sections[|sections| - 1];
      assert SectionNames(sections)[|sections| - 1] == last.name;
      last.address + |SectionBytes(SectionNamed(sections, last.name))|
  }

  /** `resolveLabelAddress`: the code base plus the label's offset in the code struct. */
  function LabelAddress(p: Program, name: string): (r: Result<int, GenError>)
    ensures r.Ok? <==> name == GLOBAL_ENTRY || Label(name) in p.code
  {
    if name == GLOBAL_ENTRY then Ok(CodeBase(p.sections))
    else match FirstIndex(p.code, Label(name))
      case Some(k) => Ok(CodeBase(p.sections) + CodeSize(p.code[..k]))
      case None => Err(UnknownLabel(name))
  }

  /** `resolveDataAddress`: the address of the first section declaring the name plus the
      name's offset in it. */
  function DataAddress(sections: seq<Section>, name: string): Result<int, GenError>
  {
    if |sections| == 0 then Err(UnknownData(name))
    else if Declares(sections[0], name) then Ok(EntryAddress(sections[0], name))
    else DataAddress(sections[1..], name)
  }

  /** The section's address plus the offset of its first entry with that name. */
  function EntryAddress(s: Section, name: string): int
    requires Declares(s, name)
  {
    var entries := Entries(s.items);
    s.address + EntryOffset(entries, FirstIndex(EntryNames(entries), name).value)
  }

  /** `resolveArgument`: literals stand for themselves; arithmetic resolves `arg1`, then
      `arg2`, and adds for '+' and subtracts for any other operator. */
  function Resolve(p: Program, arg: Argument): Result<int, GenError>
  {
    match arg
    case Literal(value) => Ok(value)
    case LabelRef(target) => LabelAddress(p, target)
    case DataRef(name) => DataAddress(p.sections, name)
    case Arithmetic(arg1, operator, arg2) =>
      var v1 :- Resolve(p, arg1);
      var v2 :- Resolve(p, arg2);
      Ok(if operator == '+' then v1 + v2 else v1 - v2)
  }

  // ---------------------------------------------------------------- code bytes

  /** One element after patching: the opcode, then the resolved argument truncated to
      16 bits and stored little-endian. */
  function EncodeElement(p: Program, e: CodeElement): (r: Result<seq<Byte>, GenError>)
    ensures r.Ok? ==> |r.value| == ElementSize(e)
  {
    match e
    case Label(_) => Ok([])
    case Instruction(kind, None) => Ok([Opcode(kind)])
    case Instruction(kind, Some(arg)) =>
      var v :- Resolve(p, arg);
      Ok([Opcode(kind)] + EncodeLE16(ToU16(v)))
  }

  /** The code struct once every argument is patched; the first argument that cannot be
      resolved, in code order, is the error. */
  function EncodeCode(p: Program, code: seq<CodeElement>): Result<seq<Byte>, GenError>
  {
    if |code| == 0 then Ok([])
    else
      var head :- EncodeElement(p, code[0]);
      var tail :- EncodeCode(p, code[1..]);
      Ok(head + tail)
  }

  // ---------------------------------------------------------------- header and image

  /** Magic, N six-byte descriptors, "ENDS", codePtr and codeLength. */
  function HeaderSize(n: nat): nat
  {
    12 + 6 * n
  }

  /** Descriptor k: its pointer is patched only when it is the first descriptor with its
      section's name (later ones keep the initial 0); offset and length are the section's
      address and size. */
  function Descriptor(sections: seq<Section>, k: nat): Header.SectionDescriptor
    requires k < |sections|
  {
    var first := FirstIndex(SectionNames(sections), sections[k].name) == Some(k);
    Header.SectionDescriptor(
      if first then ToU16(HeaderSize(|sections|) + |AllSections(sections[..k])|) else 0,
      ToU16(sections[k].address),
      ToU16(|SectionBytes(sections[k])|))
  }

  function BuildHeader(p: Program): Header.HeaderInfo
  {
    Header.HeaderInfo(
      ToU16(HeaderSize(|p.sections|) + |AllSections(p.sections)|),
      ToU16(CodeSize(p.code)),
      Descriptors(p.sections))
  }

  /** One descriptor per section, in declared order. */
  function Descriptors(sections: seq<Section>): (r: seq<Header.SectionDescriptor>)
    ensures |r| == |sections|
    ensures forall k :: 0 <= k < |sections| ==> r[k] == Descriptor(sections, k)
  {
    seq(|sections|, k requires 0 <= k < |sections| => Descriptor(sections, k))
  }

  /** `generator(ast)`: header, sections, then code. Sections keep their declared order
      (the sort by address is taken to preserve it). */
  function Generate(p: Program): Result<seq<Byte>, GenError>
  {
    var code :- EncodeCode(p, p.code);
    Ok(Header.EncodeHeader(BuildHeader(p)) + AllSections(p.sections) + code)
  }
}
