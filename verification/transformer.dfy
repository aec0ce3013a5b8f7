/** The assembler's transform pass (`assembler/transformer/index.js`): drops the comments
    from every data section and returns the tree otherwise as it was. */
module Transformer {
  import opened Results
  import opened Sequences
  import opened Ast
  import opened Generator

  /** `section.filter(item => item.type !== 'comment')`. */
  function StripComments(items: seq<Item>): seq<Item>
  {
    if |items| == 0 then []
    else (if items[0].Comment? then [] else [items[0]]) + StripComments(items[1..])
  }

  function Transform(p: Program): Program
  {
    p.(sections := seq(|p.sections|, k requires 0 <= k < |p.sections| =>
      p.sections[k].(items := StripComments(p.sections[k].items))))
  }

  /** Entries as section lines. */
  function AsItems(entries: seq<DataEntry>): (r: seq<Item>)
    ensures |r| == |entries| && forall i :: 0 <= i < |entries| ==> r[i] == Entry(entries[i])
  {
    seq(|entries|, i requires 0 <= i < |entries| => Entry(entries[i]))
  }

  /** What is left is exactly the section's entries, in their order. */
  lemma {:induction false} StripKeepsEntries(items: seq<Item>)
    ensures StripComments(items) == AsItems(Entries(items))
    decreases |items|
  {
    if |items| > 0 {
      StripKeepsEntries(items[1..]);
      var head: seq<DataEntry> := if items[0].Entry? then [items[0].entry] else [];
      var rest := Entries(items[1..]);
      assert Entries(items) == head + rest;
      assert AsItems(head + rest) == AsItems(head) + AsItems(rest);
      if items[0].Entry? {
        assert AsItems(head) == [items[0]];
      } else {
        assert AsItems(head) == [];
      }
    }
  }

  /** No comment survives, and the entries are those of the input. */
  lemma {:induction false} StrippedItems(items: seq<Item>)
    ensures forall i :: 0 <= i < |StripComments(items)| ==> StripComments(items)[i].Entry?
    ensures Entries(StripComments(items)) == Entries(items)
    decreases |items|
  {
    if |items| > 0 {
      StrippedItems(items[1..]);
      var rest := StripComments(items[1..]);
      if items[0].Comment? {
        assert StripComments(items) == rest;
      } else {
        assert StripComments(items) == [items[0]] + rest;
        assert ([items[0]] + rest)[1..] == rest;
      }
    }
  }

  /** Every section keeps its name and address and loses its comments, there are as many
      sections as before, and the code is untouched. */
  lemma TransformShape(p: Program)
    ensures |Transform(p).sections| == |p.sections|
    ensures Transform(p).code == p.code
    ensures forall k :: 0 <= k < |p.sections| ==>
      && Transform(p).sections[k].name == p.sections[k].name
      && Transform(p).sections[k].address == p.sections[k].address
      && Transform(p).sections[k].items == StripComments(p.sections[k].items)
  {
  }

  /** Running the transform twice is running it once. */
  lemma TransformIdempotent(p: Program)
    ensures Transform(Transform(p)) == Transform(p)
  {
    var once := Transform(p);
    forall k | 0 <= k < |p.sections|
      ensures StripComments(once.sections[k].items) == once.sections[k].items
    {
      StripNothing(p.sections[k].items);
    }
    assert Transform(once).sections == once.sections;
  }

  lemma {:induction false} StripNothing(items: seq<Item>)
    ensures StripComments(StripComments(items)) == StripComments(items)
    decreases |items|
  {
    if |items| > 0 {
      StripNothing(items[1..]);
      var rest := StripComments(items[1..]);
      if items[0].Comment? {
        assert StripComments(items) == rest;
      } else {
        assert StripComments(items) == [items[0]] + rest;
        assert ([items[0]] + rest)[1..] == rest;
      }
    }
  }

  // ---------------------------------------------------------------- the binary is unchanged

  /** Two section lists that differ only in their comments. */
  predicate SameLayout(a: seq<Section>, b: seq<Section>)
  {
    && |a| == |b|
    && forall k :: 0 <= k < |a| ==>
      && a[k].name == b[k].name
      && a[k].address == b[k].address
      && Entries(a[k].items) == Entries(b[k].items)
  }

  lemma TransformSameLayout(p: Program)
    ensures SameLayout(Transform(p).sections, p.sections)
  {
    forall k | 0 <= k < |p.sections|
      ensures Entries(Transform(p).sections[k].items) == Entries(p.sections[k].items)
    {
      StrippedItems(p.sections[k].items);
    }
  }

  lemma SameLayoutSameBytes(a: seq<Section>, b: seq<Section>)
    requires SameLayout(a, b)
    ensures SectionNames(a) == SectionNames(b)
    ensures SectionChunks(a) == SectionChunks(b)
    ensures AllSections(a) == AllSections(b)
    ensures forall k :: 0 <= k <= |a| ==> AllSections(a[..k]) == AllSections(b[..k])
    ensures CodeBase(a) == CodeBase(b)
  {
    SameLayoutSameNames(a, b);
    SameLayoutSameChunks(a, b);
    forall k | 0 <= k <= |a|
      ensures AllSections(a[..k]) == AllSections(b[..k])
    {
      SameLayoutSamePrefix(a, b, k);
    }
    SameLayoutSameBase(a, b);
  }

  lemma SameLayoutSameChunks(a: seq<Section>, b: seq<Section>)
    requires SameLayout(a, b)
    ensures SectionChunks(a) == SectionChunks(b)
  {
    forall i | 0 <= i < |a|
      ensures SectionChunks(a)[i] == SectionChunks(b)[i]
    {
      SameEntriesSameBytes(a[i], b[i]);
    }
  }

  lemma SameLayoutSamePrefix(a: seq<Section>, b: seq<Section>, k: nat)
    requires SameLayout(a, b) && k <= |a|
    ensures AllSections(a[..k]) == AllSections(b[..k])
  {
    assert SameLayout(a[..k], b[..k]);
    SameLayoutSameChunks(a[..k], b[..k]);
  }

  lemma {:induction false} SameLayoutSameData(a: seq<Section>, b: seq<Section>, name: string)
    requires SameLayout(a, b)
    ensures DataAddress(a, name) == DataAddress(b, name)
    decreases |a|
  {
    if |a| > 0 {
      assert SameLayout(a[1..], b[1..]);
      SameLayoutSameData(a[1..], b[1..], name);
    }
  }

  lemma {:induction false} SameLayoutSameResolve(p: Program, q: Program, arg: Argument)
    requires SameLayout(p.sections, q.sections) && p.code == q.code
    ensures Resolve(p, arg) == Resolve(q, arg)
  {
    match arg
    case Literal(_) =>
    case LabelRef(target) =>
      SameLayoutSameBase(p.sections, q.sections);
      SameBaseSameLabel(p, q, target);
    case DataRef(name) =>
      SameLayoutSameData(p.sections, q.sections, name);
    case Arithmetic(arg1, _, arg2) =>
      SameLayoutSameResolve(p, q, arg1);
      SameLayoutSameResolve(p, q, arg2);
  }

  lemma SameBaseSameLabel(p: Program, q: Program, target: string)
    requires CodeBase(p.sections) == CodeBase(q.sections) && p.code == q.code
    ensures LabelAddress(p, target) == LabelAddress(q, target)
  {
  }

  lemma SameLayoutSameBase(a: seq<Section>, b: seq<Section>)
    requires SameLayout(a, b)
    ensures CodeBase(a) == CodeBase(b)
  {
    if |a| > 0 {
      var n := |a| - 1;
      SameLayoutSameNames(a, b);
      assert a[n].name == b[n].name;
      assert SectionNames(a)[n] == a[n].name;
      var i := FirstIndex(SectionNames(a), a[n].name).value;
      CodeBaseFrom(a, i);
      CodeBaseFrom(b, i);
      SameEntriesSameBytes(a[i], b[i]);
    }
  }

  lemma SameLayoutSameNames(a: seq<Section>, b: seq<Section>)
    requires SameLayout(a, b)
    ensures SectionNames(a) == SectionNames(b)
  {
  }

  /** The code base is measured from the section at the first index with the last name. */
  lemma CodeBaseFrom(a: seq<Section>, i: nat)
    requires |a| > 0 && FirstIndex(SectionNames(a), a[|a| - 1].name) == Some(i)
    ensures CodeBase(a) == a[|a| - 1].address + |SectionBytes(a[i])|
  {
  }

  lemma SameEntriesSameBytes(s: Section, t: Section)
    requires Entries(s.items) == Entries(t.items)
    ensures SectionBytes(s) == SectionBytes(t)
  {
  }

  lemma {:induction false} SameLayoutSameCode(p: Program, q: Program, code: seq<CodeElement>)
    requires SameLayout(p.sections, q.sections) && p.code == q.code
    ensures EncodeCode(p, code) == EncodeCode(q, code)
    decreases |code|
  {
    if |code| > 0 {
      if code[0].Instruction? && code[0].argument.Some? {
        SameLayoutSameResolve(p, q, code[0].argument.value);
      }
      SameLayoutSameCode(p, q, code[1..]);
    }
  }

  /** The transform does not change the binary the generator produces: comments add no
      bytes and move no symbol. */
  lemma TransformKeepsBinary(p: Program)
    ensures Generate(Transform(p)) == Generate(p)
  {
    var q := Transform(p);
    TransformSameLayout(p);
    SameLayoutSameBytes(q.sections, p.sections);
    SameLayoutSameCode(q, p, p.code);
    SameLayoutSameDescriptors(q.sections, p.sections);
    assert BuildHeader(q) == BuildHeader(p);
  }

  lemma SameLayoutSameDescriptors(a: seq<Section>, b: seq<Section>)
    requires SameLayout(a, b)
    ensures Descriptors(a) == Descriptors(b)
  {
    forall k | 0 <= k < |a|
      ensures Descriptors(a)[k] == Descriptors(b)[k]
    {
      SameLayoutSameDescriptor(a, b, k);
    }
  }

  lemma SameLayoutSameDescriptor(a: seq<Section>, b: seq<Section>, k: nat)
    requires SameLayout(a, b) && k < |a|
    ensures Descriptor(a, k) == Descriptor(b, k)
  {
    SameLayoutSameNames(a, b);
    SameLayoutSamePrefix(a, b, k);
    SameEntriesSameBytes(a[k], b[k]);
  }
}
