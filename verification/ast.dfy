/** The assembler's syntax tree, as the data-section and code-section parsers build it
    and the transformer and generator consume it. Hex strings are taken already parsed:
    each numeric field holds the value `parseInt(text, 16)` gives. */
module Ast {
  import opened Bytes
  import opened Results
  import opened Instructions

  /** The four kinds of data entry. */
  datatype DataKind =
    | ByteData(values: seq<nat>)   // `bytes`: one U8 per value
    | WordData(values: seq<nat>)   // `words`: one U16 per value
    | AsciiData(units: seq<Word>)  // `ascii`: the text's UTF-16 code units (`charCodeAt`)
    | BufferData(size: nat)        // `buffer`: that many zero bytes

  datatype DataEntry = DataEntry(name: string, data: DataKind)

  /** A line of a data section: an entry, or a comment the parser kept. */
  datatype Item = Entry(entry: DataEntry) | Comment(text: string)

  /** A data section: its name, its load address (`binaryAddress`) and its lines. */
  datatype Section = Section(name: string, address: nat, items: seq<Item>)

  datatype Argument =
    | Literal(value: nat)
    | LabelRef(target: string)
    | DataRef(name: string)
    | Arithmetic(arg1: Argument, operator: char, arg2: Argument)

  /** An element of the code section; `argument` is present iff the source line has one. */
  datatype CodeElement =
    | Label(name: string)
    | Instruction(kind: Op, argument: Option<Argument>)

  datatype Program = Program(sections: seq<Section>, code: seq<CodeElement>)

  /** The entries of a section, in order, skipping comments. */
  function Entries(items: seq<Item>): (r: seq<DataEntry>)
    ensures |r| <= |items|
    ensures forall e :: e in r <==> Entry(e) in items
  {
    if |items| == 0 then []
    else
      assert items == [items[0]] + items[1..];
      (if items[0].Entry? then [items[0].entry] else []) + Entries(items[1..])
  }

  /** Entries keep their order: the entries of two runs of lines are those of the first
      run followed by those of the second. */
  lemma {:induction false} EntriesAppend(a: seq<Item>, b: seq<Item>)
    ensures Entries(a + b) == Entries(a) + Entries(b)
  {
    if |a| == 0 {
      assert a + b == b;
    } else {
      assert (a + b)[1..] == a[1..] + b;
      EntriesAppend(a[1..], b);
    }
  }

  function EntryNames(entries: seq<DataEntry>): (r: seq<string>)
    ensures |r| == |entries| && forall i :: 0 <= i < |entries| ==> r[i] == entries[i].name
  {
    seq(|entries|, i requires 0 <= i < |entries| => entries[i].name)
  }

  function SectionNames(sections: seq<Section>): (r: seq<string>)
    ensures |r| == |sections| && forall i :: 0 <= i < |sections| ==> r[i] == sections[i].name
  {
    seq(|sections|, i requires 0 <= i < |sections| => sections[i].name)
  }
}
