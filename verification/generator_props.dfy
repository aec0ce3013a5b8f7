/** What the generator's layout promises: where each instruction, entry and section lands,
    what its arguments resolve to, and how the header it writes reads back. */
module GeneratorProperties {
  import opened Bytes
  import opened Results
  import opened Instructions
  import opened Sequences
  import opened Ast
  import opened Generator
  import Header
  import StackMachine

  // ---------------------------------------------------------------- code

  /** Encoding the code succeeds iff every element's argument resolves. */
  lemma {:induction false} CodeResolves(p: Program, code: seq<CodeElement>)
    ensures EncodeCode(p, code).Ok? <==> forall i :: 0 <= i < |code| ==> EncodeElement(p, code[i]).Ok?
    decreases |code|
  {
    if |code| > 0 {
      CodeResolves(p, code[1..]);
      assert forall i :: 1 <= i < |code| ==> code[1..][i - 1] == code[i];
    }
  }

  /** The error reported is that of the first element, in code order, that fails. */
  lemma {:induction false} FirstFailureReported(p: Program, code: seq<CodeElement>, i: nat)
    requires i < |code| && EncodeElement(p, code[i]).Err?
    requires forall j :: 0 <= j < i ==> EncodeElement(p, code[j]).Ok?
    ensures EncodeCode(p, code) == Err(EncodeElement(p, code[i]).error)
    decreases i
  {
    if i > 0 {
      FirstFailureReported(p, code[1..], i - 1);
    }
  }

  /** The patched code is exactly as long as the layout computed before patching. */
  lemma {:induction false} EncodedLength(p: Program, code: seq<CodeElement>, bytes: seq<Byte>)
    requires EncodeCode(p, code) == Ok(bytes)
    ensures |bytes| == CodeSize(code)
    decreases |code|
  {
    if |code| > 0 {
      EncodedLength(p, code[1..], EncodeCode(p, code[1..]).value);
    }
  }

  /** Element k occupies the bytes from the size of the elements before it on. */
  lemma {:induction false} CodeLayout(p: Program, code: seq<CodeElement>, bytes: seq<Byte>, k: nat)
    requires EncodeCode(p, code) == Ok(bytes) && k < |code|
    ensures EncodeElement(p, code[k]).Ok?
    ensures CodeSize(code[..k]) + ElementSize(code[k]) <= |bytes|
    ensures bytes[CodeSize(code[..k])..CodeSize(code[..k]) + ElementSize(code[k])] == EncodeElement(p, code[k]).value
    decreases k
  {
    var head := EncodeElement(p, code[0]).value;
    var tail := EncodeCode(p, code[1..]).value;
    assert bytes == head + tail;
    EncodedLength(p, code, bytes);
    if k > 0 {
      CodeLayout(p, code[1..], tail, k - 1);
      var before := code[1..][..k - 1];
      assert code[..k] == [code[0]] + before;
      assert ([code[0]] + before)[1..] == before;
      assert CodeSize(code[..k]) == |head| + CodeSize(before);
      assert code[1..][k - 1] == code[k];
      SliceAfter(head, tail, CodeSize(before), ElementSize(code[k]));
    }
  }

  /** A slice of the second part of a concatenation, seen from the whole. */
  lemma SliceAfter<T>(a: seq<T>, b: seq<T>, o: nat, n: nat)
    requires o + n <= |b|
    ensures (a + b)[|a| + o..|a| + o + n] == b[o..o + n]
  {
    assert forall j :: |a| + o <= j < |a| + o + n ==> (a + b)[j] == b[j - |a|];
  }

  /** An instruction with an argument is its opcode followed by the resolved value,
      truncated to 16 bits and stored little-endian. The value depends on the argument
      alone, so a reference before or after its target resolves the same way. Read
      big-endian, as the machine fetches immediates, the two bytes give the value with
      its bytes swapped. */
  lemma ImmediatePatched(p: Program, bytes: seq<Byte>, k: nat)
    requires EncodeCode(p, p.code) == Ok(bytes) && k < |p.code|
    requires p.code[k].Instruction? && p.code[k].argument.Some?
    ensures Resolve(p, p.code[k].argument.value).Ok?
    ensures var o := CodeSize(p.code[..k]);
      var v := ToU16(Resolve(p, p.code[k].argument.value).value);
      && o + 3 <= |bytes|
      && bytes[o] == Opcode(p.code[k].kind)
      && DecodeLE16(bytes[o + 1], bytes[o + 2]) == v
      && DecodeBE16(bytes[o + 1], bytes[o + 2]) == Swap16(v)
  {
    CodeLayout(p, p.code, bytes, k);
    var o := CodeSize(p.code[..k]);
    var v := ToU16(Resolve(p, p.code[k].argument.value).value);
    var e := EncodeElement(p, p.code[k]).value;
    assert e == [Opcode(p.code[k].kind)] + EncodeLE16(v);
    assert bytes[o] == e[0] && bytes[o + 1] == e[1] && bytes[o + 2] == e[2];
    LE16RoundTrip(v);
    LEReadAsBE(v);
  }

  /** A label that is the first with its name resolves to the code base plus the offset
      where the element after it is laid out (labels occupy no bytes). */
  lemma LabelMarksNext(p: Program, name: string, k: nat)
    requires k < |p.code| && p.code[k] == Label(name) && name != GLOBAL_ENTRY
    requires Label(name) !in p.code[..k]
    ensures LabelAddress(p, name) == Ok(CodeBase(p.sections) + CodeSize(p.code[..k + 1]))
  {
    assert p.code[..k + 1] == p.code[..k] + [p.code[k]];
    CodeSizeAppend(p.code[..k], [p.code[k]]);
  }

  // ---------------------------------------------------------------- data

  /** Looking up a data name fails, with "Cannot find", exactly when no section declares it. */
  lemma {:induction false} DataAddressFails(sections: seq<Section>, name: string)
    ensures DataAddress(sections, name).Err? <==> forall j :: 0 <= j < |sections| ==> !Declares(sections[j], name)
    ensures DataAddress(sections, name).Err? ==> DataAddress(sections, name).error == UnknownData(name)
    decreases |sections|
  {
    if |sections| > 0 {
      DataAddressFails(sections[1..], name);
      assert forall j :: 1 <= j < |sections| ==> sections[1..][j - 1] == sections[j];
    }
  }

  /** A data name resolves into the first section declaring it, at the offset of the first
      entry with that name there. */
  lemma {:induction false} DataAddressOf(sections: seq<Section>, name: string, j: nat)
    requires j < |sections| && Declares(sections[j], name)
    requires forall i :: 0 <= i < j ==> !Declares(sections[i], name)
    ensures DataAddress(sections, name) == Ok(EntryAddress(sections[j], name))
    decreases j
  {
    if j > 0 {
      var rest := sections[1..];
      assert rest[j - 1] == sections[j];
      forall i | 0 <= i < j - 1
        ensures !Declares(rest[i], name)
      {
        assert rest[i] == sections[i + 1];
      }
      DataAddressOf(rest, name, j - 1);
      DataAddressSkips(sections, name);
    }
  }

  /** A section that does not declare the name is passed over. */
  lemma DataAddressSkips(sections: seq<Section>, name: string)
    requires |sections| > 0 && !Declares(sections[0], name)
    ensures DataAddress(sections, name) == DataAddress(sections[1..], name)
  {
  }

  /** The entry that offset belongs to is the first with the name, and its bytes sit there
      in the section. */
  lemma FirstEntryNamed(s: Section, name: string)
    requires Declares(s, name)
    ensures var entries := Entries(s.items);
      var k := FirstIndex(EntryNames(entries), name).value;
      && entries[k].name == name
      && (forall i :: 0 <= i < k ==> entries[i].name != name)
      && EntryOffset(entries, k) + |EntryBytes(entries[k].data)| <= |SectionBytes(s)|
      && SectionBytes(s)[EntryOffset(entries, k)..EntryOffset(entries, k) + |EntryBytes(entries[k].data)|]
         == EntryBytes(entries[k].data)
  {
    var entries := Entries(s.items);
    var names := EntryNames(entries);
    var k := FirstIndex(names, name).value;
    forall i | 0 <= i < k
      ensures entries[i].name != name
    {
      assert names[..k][i] == entries[i].name;
    }
    EntryLocated(entries, k);
  }

  // ---------------------------------------------------------------- arithmetic

  /** The symbol references of an argument, left to right. */
  function References(arg: Argument): seq<Argument>
  {
    match arg
    case Literal(_) => []
    case LabelRef(_) => [arg]
    case DataRef(_) => [arg]
    case Arithmetic(arg1, _, arg2) => References(arg1) + References(arg2)
  }

  /** The error of the leftmost reference that does not resolve. */
  function FirstUnresolved(p: Program, refs: seq<Argument>): Option<GenError>
  {
    if |refs| == 0 then None
    else if Resolve(p, refs[0]).Err? then Some(Resolve(p, refs[0]).error)
    else FirstUnresolved(p, refs[1..])
  }

  lemma {:induction false} FirstUnresolvedAppend(p: Program, a: seq<Argument>, b: seq<Argument>)
    ensures FirstUnresolved(p, a + b) == if FirstUnresolved(p, a).Some? then FirstUnresolved(p, a) else FirstUnresolved(p, b)
    decreases |a|
  {
    if |a| == 0 {
      assert a + b == b;
    } else {
      assert (a + b)[1..] == a[1..] + b;
      FirstUnresolvedAppend(p, a[1..], b);
    }
  }

  /** An argument resolves iff each of its references does; when it does not, the error is
      that of the leftmost failing reference, since `arg1` is resolved before `arg2`. */
  lemma {:induction false} ResolveReportsLeftmost(p: Program, arg: Argument)
    ensures Resolve(p, arg).Err? <==> FirstUnresolved(p, References(arg)).Some?
    ensures Resolve(p, arg).Err? ==> Resolve(p, arg).error == FirstUnresolved(p, References(arg)).value
  {
    match arg
    case Literal(_) =>
    case LabelRef(_) =>
    case DataRef(_) =>
    case Arithmetic(arg1, _, arg2) =>
      ResolveReportsLeftmost(p, arg1);
      ResolveReportsLeftmost(p, arg2);
      FirstUnresolvedAppend(p, References(arg1), References(arg2));
  }

  /** Each leaf of an arithmetic tree with the sign it contributes: the leaves of the
      right operand of a non-'+' operator count negatively. */
  function Terms(arg: Argument): seq<(bool, Argument)>
  {
    match arg
    case Arithmetic(arg1, operator, arg2) =>
      Terms(arg1) + (if operator == '+' then Terms(arg2) else Negated(Terms(arg2)))
    case _ => [(true, arg)]
  }

  function Negated(terms: seq<(bool, Argument)>): (r: seq<(bool, Argument)>)
    ensures |r| == |terms|
  {
    if |terms| == 0 then [] else [(!terms[0].0, terms[0].1)] + Negated(terms[1..])
  }

  /** The signed sum of the leaves' values, when each resolves. */
  function SignedSum(p: Program, terms: seq<(bool, Argument)>): Option<int>
  {
    if |terms| == 0 then Some(0)
    else if Resolve(p, terms[0].1).Err? then None
    else match SignedSum(p, terms[1..])
      case None => None
      case Some(rest) =>
        var v := Resolve(p, terms[0].1).value;
        Some((if terms[0].0 then v else -v) + rest)
  }

  lemma {:induction false} SignedSumAppend(p: Program, a: seq<(bool, Argument)>, b: seq<(bool, Argument)>)
    ensures SignedSum(p, a + b) ==
      if SignedSum(p, a).Some? && SignedSum(p, b).Some? then Some(SignedSum(p, a).value + SignedSum(p, b).value) else None
    decreases |a|
  {
    if |a| == 0 {
      assert a + b == b;
    } else {
      assert (a + b)[1..] == a[1..] + b;
      SignedSumAppend(p, a[1..], b);
    }
  }

  lemma {:induction false} SignedSumNegated(p: Program, terms: seq<(bool, Argument)>)
    ensures SignedSum(p, Negated(terms)).Some? <==> SignedSum(p, terms).Some?
    ensures SignedSum(p, terms).Some? ==> SignedSum(p, Negated(terms)).value == -SignedSum(p, terms).value
    decreases |terms|
  {
    if |terms| > 0 {
      SignedSumNegated(p, terms[1..]);
    }
  }

  /** An arithmetic argument evaluates to the signed sum of its leaves. */
  lemma {:induction false} ResolveIsSignedSum(p: Program, arg: Argument)
    ensures Resolve(p, arg).Ok? <==> SignedSum(p, Terms(arg)).Some?
    ensures Resolve(p, arg).Ok? ==> Resolve(p, arg).value == SignedSum(p, Terms(arg)).value
  {
    match arg
    case Arithmetic(arg1, operator, arg2) =>
      ResolveIsSignedSum(p, arg1);
      ResolveIsSignedSum(p, arg2);
      SignedSumNegated(p, Terms(arg2));
      var right := if operator == '+' then Terms(arg2) else Negated(Terms(arg2));
      SignedSumAppend(p, Terms(arg1), right);
    case _ =>
      assert Terms(arg) == [(true, arg)];
  }

  // ---------------------------------------------------------------- header and image

  /** The generated header parses back to exactly the descriptors, code pointer and code
      length the generator wrote, provided no descriptor begins with the bytes of "ENDS". */
  lemma GeneratedHeaderParses(p: Program, image: seq<Byte>)
    requires Generate(p) == Ok(image)
    requires forall d :: d in BuildHeader(p).sections ==> !Header.SpellsEnds(d)
    ensures Header.ValidateMagicNumber(image) == Ok(true)
    ensures Header.GetHeaderInformation(image) == Ok(BuildHeader(p))
  {
    var code := EncodeCode(p, p.code).value;
    assert image == Header.EncodeHeader(BuildHeader(p)) + (AllSections(p.sections) + code);
    Header.HeaderRoundTrip(BuildHeader(p), AllSections(p.sections) + code);
  }

  /** Sections are laid out back to back. */
  lemma SectionsBackToBack(sections: seq<Section>, k: nat)
    requires k < |sections|
    ensures |AllSections(sections[..k + 1])| == |AllSections(sections[..k])| + |SectionBytes(sections[k])|
    ensures |AllSections(sections[..k])| + |SectionBytes(sections[k])| <= |AllSections(sections)|
  {
    var chunks := SectionChunks(sections);
    assert SectionChunks(sections[..k + 1]) == SectionChunks(sections[..k]) + [chunks[k]];
    FlattenAppend(SectionChunks(sections[..k]), [chunks[k]]);
    assert SectionChunks(sections[..k]) == chunks[..k];
    FlattenChunk(chunks, k);
  }

  /** When the sections fit below 64 KiB, the first descriptor of each name records where
      its section starts (counting the header) and how long it is. */
  lemma FirstDescriptor(sections: seq<Section>, k: nat)
    requires k < |sections|
    requires FirstIndex(SectionNames(sections), sections[k].name) == Some(k)
    requires HeaderSize(|sections|) + |AllSections(sections)| < 0x1_0000
    ensures Descriptor(sections, k).ptr == HeaderSize(|sections|) + |AllSections(sections[..k])|
    ensures Descriptor(sections, k).length == |SectionBytes(sections[k])|
  {
    SectionsBackToBack(sections, k);
  }

  /** A generated image is its header, of 12 + 6N bytes, then the sections, then the code. */
  lemma ImageParts(p: Program, image: seq<Byte>)
    requires Generate(p) == Ok(image)
    ensures image == Header.EncodeHeader(BuildHeader(p)) + AllSections(p.sections) + EncodeCode(p, p.code).value
    ensures |Header.EncodeHeader(BuildHeader(p))| == HeaderSize(|p.sections|)
  {
  }

  /** In an image below 64 KiB, the first descriptor of each name points at its section's
      bytes, and its length is their number. */
  lemma SectionPlaced(p: Program, image: seq<Byte>, k: nat)
    requires Generate(p) == Ok(image) && k < |p.sections|
    requires FirstIndex(SectionNames(p.sections), p.sections[k].name) == Some(k)
    requires HeaderSize(|p.sections|) + |AllSections(p.sections)| < 0x1_0000
    ensures var d := Descriptor(p.sections, k);
      && d.ptr + d.length <= |image|
      && image[d.ptr..d.ptr + d.length] == SectionBytes(p.sections[k])
  {
    ImageParts(p, image);
    SectionInImage(p.sections, k, Header.EncodeHeader(BuildHeader(p)), EncodeCode(p, p.code).value);
  }

  lemma SectionInImage(sections: seq<Section>, k: nat, h: seq<Byte>, code: seq<Byte>)
    requires k < |sections|
    requires FirstIndex(SectionNames(sections), sections[k].name) == Some(k)
    requires HeaderSize(|sections|) + |AllSections(sections)| < 0x1_0000
    requires |h| == HeaderSize(|sections|)
    ensures var d := Descriptor(sections, k);
      && d.ptr + d.length <= |h + AllSections(sections) + code|
      && (h + AllSections(sections) + code)[d.ptr..d.ptr + d.length] == SectionBytes(sections[k])
  {
    var d := Descriptor(sections, k);
    FirstDescriptor(sections, k);
    SectionSlice(sections, k);
    ChunkInMiddle(h, AllSections(sections), code, |AllSections(sections[..k])|, |SectionBytes(sections[k])|, d.ptr, d.length, SectionBytes(sections[k]));
  }

  /** Section k's bytes follow those of the sections before it in the sections struct. */
  lemma SectionSlice(sections: seq<Section>, k: nat)
    requires k < |sections|
    ensures var o := |AllSections(sections[..k])|;
      && o + |SectionBytes(sections[k])| <= |AllSections(sections)|
      && AllSections(sections)[o..o + |SectionBytes(sections[k])|] == SectionBytes(sections[k])
  {
    var chunks := SectionChunks(sections);
    assert SectionChunks(sections[..k]) == chunks[..k];
    FlattenChunk(chunks, k);
  }

  /** A piece at offset o of the middle part of a concatenation starts at |a| + o in the whole. */
  lemma ChunkInMiddle(a: seq<Byte>, b: seq<Byte>, c: seq<Byte>, o: nat, n: nat, start: nat, len: nat, x: seq<Byte>)
    requires o + n <= |b| && b[o..o + n] == x && start == |a| + o && len == n
    ensures start + len <= |a + b + c|
    ensures (a + b + c)[start..start + len] == x
  {
    assert forall j :: start <= j < start + len ==> (a + b + c)[j] == b[j - |a|];
  }

  /** With distinct section names: the first section starts right after the header, each
      next one where the previous ends, and the code where the last ends. */
  lemma PointerChain(p: Program, k: nat)
    requires k < |p.sections|
    requires forall i, j :: 0 <= i < j < |p.sections| ==> p.sections[i].name != p.sections[j].name
    requires HeaderSize(|p.sections|) + |AllSections(p.sections)| < 0x1_0000
    ensures k == 0 ==> Descriptor(p.sections, k).ptr == HeaderSize(|p.sections|)
    ensures k + 1 < |p.sections| ==>
      Descriptor(p.sections, k + 1).ptr == Descriptor(p.sections, k).ptr + Descriptor(p.sections, k).length
    ensures k + 1 == |p.sections| ==>
      BuildHeader(p).codePtr == Descriptor(p.sections, k).ptr + Descriptor(p.sections, k).length
  {
    FirstOfDistinct(p.sections, k);
    if k == 0 {
      FirstPointer(p.sections);
    }
    if k + 1 < |p.sections| {
      FirstOfDistinct(p.sections, k + 1);
      NextPointer(p.sections, k);
    } else {
      CodePointer(p);
    }
  }

  lemma FirstPointer(sections: seq<Section>)
    requires |sections| > 0
    requires FirstIndex(SectionNames(sections), sections[0].name) == Some(0)
    requires HeaderSize(|sections|) + |AllSections(sections)| < 0x1_0000
    ensures Descriptor(sections, 0).ptr == HeaderSize(|sections|)
  {
    FirstDescriptor(sections, 0);
    assert |SectionChunks(sections[..0])| == 0;
  }

  lemma NextPointer(sections: seq<Section>, k: nat)
    requires k + 1 < |sections|
    requires FirstIndex(SectionNames(sections), sections[k].name) == Some(k)
    requires FirstIndex(SectionNames(sections), sections[k + 1].name) == Some(k + 1)
    requires HeaderSize(|sections|) + |AllSections(sections)| < 0x1_0000
    ensures Descriptor(sections, k + 1).ptr == Descriptor(sections, k).ptr + Descriptor(sections, k).length
  {
    FirstDescriptor(sections, k);
    FirstDescriptor(sections, k + 1);
    SectionsBackToBack(sections, k);
  }

  lemma CodePointer(p: Program)
    requires |p.sections| > 0
    requires var k := |p.sections| - 1; FirstIndex(SectionNames(p.sections), p.sections[k].name) == Some(k)
    requires HeaderSize(|p.sections|) + |AllSections(p.sections)| < 0x1_0000
    ensures var k := |p.sections| - 1;
      BuildHeader(p).codePtr == Descriptor(p.sections, k).ptr + Descriptor(p.sections, k).length
  {
    var k := |p.sections| - 1;
    FirstDescriptor(p.sections, k);
    SectionsBackToBack(p.sections, k);
    assert p.sections[..k + 1] == p.sections;
  }

  /** With distinct names every section is the first with its name. */
  lemma FirstOfDistinct(sections: seq<Section>, k: nat)
    requires k < |sections|
    requires forall i, j :: 0 <= i < j < |sections| ==> sections[i].name != sections[j].name
    ensures FirstIndex(SectionNames(sections), sections[k].name) == Some(k)
  {
  }

  /** In an image below 64 KiB the code pointer and length in the header delimit exactly
      the patched code. */
  lemma CodePlaced(p: Program, image: seq<Byte>)
    requires Generate(p) == Ok(image) && |image| < 0x1_0000
    ensures var h := BuildHeader(p);
      && h.codePtr + h.codeLength == |image|
      && image[h.codePtr..h.codePtr + h.codeLength] == EncodeCode(p, p.code).value
  {
    var code := EncodeCode(p, p.code).value;
    EncodedLength(p, p.code, code);
    var prefix := Header.EncodeHeader(BuildHeader(p)) + AllSections(p.sections);
    assert image == prefix + code;
  }

  /** When the last section's name is its own, and its address and size fit in 16 bits,
      the code base the generator resolves labels against is the one the loader computes
      from the header. */
  /** The last section, if there is one, is the only one with its name, and its address
      and size fit the 16-bit descriptor fields. */
  predicate LastSectionPlaced(sections: seq<Section>)
  {
    |sections| > 0 ==>
      && FirstIndex(SectionNames(sections), sections[|sections| - 1].name) == Some(|sections| - 1)
      && sections[|sections| - 1].address < 0x1_0000
      && |SectionBytes(sections[|sections| - 1])| < 0x1_0000
  }

  lemma CodeBaseAgrees(p: Program)
    requires LastSectionPlaced(p.sections)
    ensures CodeBase(p.sections) == StackMachine.BaseCodeAddress(BuildHeader(p).sections)
  {
    if |p.sections| > 0 {
      var k := |p.sections| - 1;
      assert SectionNamed(p.sections, p.sections[k].name) == p.sections[k];
      LastDescriptor(p.sections);
    }
  }

  /** The loader's code base is the last descriptor's offset plus length. */
  lemma LastDescriptor(sections: seq<Section>)
    requires |sections| > 0
    requires sections[|sections| - 1].address < 0x1_0000
    requires |SectionBytes(sections[|sections| - 1])| < 0x1_0000
    ensures var last := sections[|sections| - 1];
      StackMachine.BaseCodeAddress(Descriptors(sections)) == last.address + |SectionBytes(last)|
  {
    var k := |sections| - 1;
    var ds := Descriptors(sections);
    DescriptorPlace(sections, k);
    assert ds[|ds| - 1] == Descriptor(sections, k);
  }

  /** A descriptor's offset and length are its section's address and size, when they fit. */
  lemma DescriptorPlace(sections: seq<Section>, k: nat)
    requires k < |sections|
    requires sections[k].address < 0x1_0000 && |SectionBytes(sections[k])| < 0x1_0000
    ensures Descriptor(sections, k).offset == sections[k].address
    ensures Descriptor(sections, k).length == |SectionBytes(sections[k])|
  {
  }

  /** With two sections of one name last, the generator measures the first of them and the
      loader the last, so label addresses miss the loaded code by the difference. */
  lemma DuplicateNameShiftsBase()
    ensures var p := Program([Section("d", 0, [Entry(DataEntry("x", BufferData(4)))]),
                              Section("d", 0x10, [Entry(DataEntry("y", BufferData(2)))])], []);
      CodeBase(p.sections) == 0x14 && StackMachine.BaseCodeAddress(BuildHeader(p).sections) == 0x12
  {
    var s0 := Section("d", 0, [Entry(DataEntry("x", BufferData(4)))]);
    var s1 := Section("d", 0x10, [Entry(DataEntry("y", BufferData(2)))]);
    var p := Program([s0, s1], []);
    assert Entries(s0.items) == [DataEntry("x", BufferData(4))];
    assert Entries(s1.items) == [DataEntry("y", BufferData(2))];
    assert |SectionBytes(s0)| == 4;
    assert |SectionBytes(s1)| == 2;
    assert SectionNames(p.sections) == ["d", "d"];
    assert BuildHeader(p).sections[1] == Descriptor(p.sections, 1);
  }

  /** Loading a generated image starts execution at the address `__GLOBAL_VM_ENTRY`
      resolves to. */
  lemma EntryPointAgrees(p: Program, image: seq<Byte>)
    requires Generate(p) == Ok(image)
    requires forall d :: d in BuildHeader(p).sections ==> !Header.SpellsEnds(d)
    requires LastSectionPlaced(p.sections)
    requires StackMachine.Load(image).Ok?
    ensures StackMachine.Load(image).value.ip == LabelAddress(p, GLOBAL_ENTRY).value
  {
    GeneratedHeaderParses(p, image);
    CodeBaseAgrees(p);
  }
}
