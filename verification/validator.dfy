/** The assembler's validator (`assembler/validator/index.js`): rejects repeated data names,
    repeated labels and references to names that are not declared. It reads a listing of
    three parts — rodata entries, data entries and code — and returns true or fails with
    the first problem it meets. */
module Validator {
  import opened Results
  import opened Sequences
  import opened Ast
  import opened Instructions
  import Generator

  datatype ValidationError =
    | DuplicateData                             // the message reads a misspelt field, so names no entry
    | DuplicateRodata(name: string)
    | DuplicateLabel(name: string)
    | UnknownReference(name: string, data: bool)  // `data`: a data-address reference

  datatype Listing = Listing(rodata: seq<DataEntry>, data: seq<DataEntry>, code: seq<CodeElement>)

  // ---------------------------------------------------------------- the checks, in order

  /** The data and rodata loops: each name is added to `seen` unless it is already there. */
  function CollectNames(entries: seq<DataEntry>, seen: seq<string>, rodata: bool): Result<seq<string>, ValidationError>
  {
    if |entries| == 0 then Ok(seen)
    else if entries[0].name in seen then Err(if rodata then DuplicateRodata(entries[0].name) else DuplicateData)
    else CollectNames(entries[1..], seen + [entries[0].name], rodata)
  }

  /** The label loop. */
  function CollectLabels(code: seq<CodeElement>, seen: seq<string>): Result<seq<string>, ValidationError>
  {
    if |code| == 0 then Ok(seen)
    else if code[0].Label? then
      if code[0].name in seen then Err(DuplicateLabel(code[0].name))
      else CollectLabels(code[1..], seen + [code[0].name])
    else CollectLabels(code[1..], seen)
  }

  /** The reference check for one element: literals and arithmetic pass unexamined. */
  function CheckElement(e: CodeElement, dataNames: seq<string>, labelNames: seq<string>): Result<bool, ValidationError>
  {
    if e.Label? || e.argument.None? then Ok(true)
    else match e.argument.value
      case Literal(_) => Ok(true)
      case Arithmetic(_, _, _) => Ok(true)
      case DataRef(name) => if name in dataNames then Ok(true) else Err(UnknownReference(name, true))
      case LabelRef(target) => if target in labelNames then Ok(true) else Err(UnknownReference(target, false))
  }

  function CheckReferences(code: seq<CodeElement>, dataNames: seq<string>, labelNames: seq<string>): Result<bool, ValidationError>
  {
    if |code| == 0 then Ok(true)
    else
      var _ :- CheckElement(code[0], dataNames, labelNames);
      CheckReferences(code[1..], dataNames, labelNames)
  }

  /** `validator(ast)`: data names, then rodata names, then labels, then references — all
      labels are known before the first reference is checked. */
  function Validate(l: Listing): Result<bool, ValidationError>
  {
    var dataNames :- CollectNames(l.data, [], false);
    var allNames :- CollectNames(l.rodata, dataNames, true);
    var labelNames :- CollectLabels(l.code, []);
    var _ :- CheckReferences(l.code, allNames, labelNames);
    Ok(true)
  }

  // ---------------------------------------------------------------- what it accepts

  predicate NoDuplicates(names: seq<string>)
  {
    forall i, j :: 0 <= i < j < |names| ==> names[i] != names[j]
  }

  /** The labels of a code section, in order. */
  function LabelNames(code: seq<CodeElement>): seq<string>
  {
    if |code| == 0 then []
    else (if code[0].Label? then [code[0].name] else []) + LabelNames(code[1..])
  }

  /** Whether an element's argument, if any, refers only to declared names. */
  predicate ReferenceDeclared(e: CodeElement, dataNames: seq<string>, labelNames: seq<string>)
  {
    e.Instruction? && e.argument.Some? ==>
      match e.argument.value
      case DataRef(name) => name in dataNames
      case LabelRef(target) => target in labelNames
      case _ => true
  }

  /** A listing the validator accepts: data and rodata names together are distinct, labels
      are distinct, and every plain reference names a declared entry or label. */
  predicate Valid(l: Listing)
  {
    var dataNames := EntryNames(l.data) + EntryNames(l.rodata);
    var labelNames := LabelNames(l.code);
    && NoDuplicates(dataNames)
    && NoDuplicates(labelNames)
    && forall i :: 0 <= i < |l.code| ==> ReferenceDeclared(l.code[i], dataNames, labelNames)
  }

  lemma {:induction false} CollectNamesSpec(entries: seq<DataEntry>, seen: seq<string>, rodata: bool)
    requires NoDuplicates(seen)
    ensures CollectNames(entries, seen, rodata).Ok? <==> NoDuplicates(seen + EntryNames(entries))
    ensures CollectNames(entries, seen, rodata).Ok? ==> CollectNames(entries, seen, rodata).value == seen + EntryNames(entries)
    decreases |entries|
  {
    var all := seen + EntryNames(entries);
    if |entries| == 0 {
      assert all == seen;
    } else {
      var name := entries[0].name;
      assert all == (seen + [name]) + EntryNames(entries[1..]);
      if name in seen {
        var i :| 0 <= i < |seen| && seen[i] == name;
        assert all[i] == all[|seen|];
      } else {
        assert NoDuplicates(seen + [name]);
        CollectNamesSpec(entries[1..], seen + [name], rodata);
      }
    }
  }

  lemma {:induction false} CollectLabelsSpec(code: seq<CodeElement>, seen: seq<string>)
    requires NoDuplicates(seen)
    ensures CollectLabels(code, seen).Ok? <==> NoDuplicates(seen + LabelNames(code))
    ensures CollectLabels(code, seen).Ok? ==> CollectLabels(code, seen).value == seen + LabelNames(code)
    decreases |code|
  {
    var all := seen + LabelNames(code);
    if |code| == 0 {
      assert all == seen;
    } else if code[0].Label? {
      var name := code[0].name;
      assert all == (seen + [name]) + LabelNames(code[1..]);
      if name in seen {
        var i :| 0 <= i < |seen| && seen[i] == name;
        assert all[i] == all[|seen|];
      } else {
        assert NoDuplicates(seen + [name]);
        CollectLabelsSpec(code[1..], seen + [name]);
      }
    } else {
      assert all == seen + LabelNames(code[1..]);
      CollectLabelsSpec(code[1..], seen);
    }
  }

  lemma {:induction false} CheckReferencesSpec(code: seq<CodeElement>, dataNames: seq<string>, labelNames: seq<string>)
    ensures CheckReferences(code, dataNames, labelNames).Ok? <==>
      forall i :: 0 <= i < |code| ==> ReferenceDeclared(code[i], dataNames, labelNames)
    decreases |code|
  {
    if |code| > 0 {
      CheckReferencesSpec(code[1..], dataNames, labelNames);
      assert forall i :: 1 <= i < |code| ==> code[1..][i - 1] == code[i];
    }
  }

  lemma NoDuplicatesPrefix(a: seq<string>, b: seq<string>)
    requires NoDuplicates(a + b)
    ensures NoDuplicates(a)
  {
    forall i, j | 0 <= i < j < |a|
      ensures a[i] != a[j]
    {
      assert (a + b)[i] == a[i] && (a + b)[j] == a[j];
    }
  }

  /** The validator returns true exactly on valid listings, and fails on all others. */
  lemma ValidateAcceptsValid(l: Listing)
    ensures Validate(l).Ok? <==> Valid(l)
    ensures Validate(l).Ok? ==> Validate(l).value
  {
    var dataNames := EntryNames(l.data) + EntryNames(l.rodata);
    CollectNamesSpec(l.data, [], false);
    assert [] + EntryNames(l.data) == EntryNames(l.data);
    if CollectNames(l.data, [], false).Err? {
      if NoDuplicates(dataNames) {
        NoDuplicatesPrefix(EntryNames(l.data), EntryNames(l.rodata));
      }
    } else {
      CollectNamesSpec(l.rodata, EntryNames(l.data), true);
      CollectLabelsSpec(l.code, []);
      assert [] + LabelNames(l.code) == LabelNames(l.code);
      if CollectNames(l.rodata, EntryNames(l.data), true).Ok? && CollectLabels(l.code, []).Ok? {
        CheckReferencesSpec(l.code, dataNames, LabelNames(l.code));
      }
    }
  }

  /** A repeated data name is reported before anything else is looked at. */
  lemma DuplicateDataFirst(l: Listing)
    requires !NoDuplicates(EntryNames(l.data))
    ensures Validate(l) == Err(DuplicateData)
  {
    CollectNamesSpec(l.data, [], false);
    assert [] + EntryNames(l.data) == EntryNames(l.data);
    DataErrorIsDuplicateData(l.data, []);
  }

  lemma {:induction false} DataErrorIsDuplicateData(entries: seq<DataEntry>, seen: seq<string>)
    ensures CollectNames(entries, seen, false).Err? ==> CollectNames(entries, seen, false).error == DuplicateData
    decreases |entries|
  {
    if |entries| > 0 && entries[0].name !in seen {
      DataErrorIsDuplicateData(entries[1..], seen + [entries[0].name]);
    }
  }

  /** A jump to a label defined further down is accepted: labels are all collected first. */
  lemma ForwardReferenceAccepted()
    ensures Validate(Listing([], [], [Instruction(JMP, Some(LabelRef("end"))), Label("end"), Instruction(HALT, None)])) == Ok(true)
  {
    var code := [Instruction(JMP, Some(LabelRef("end"))), Label("end"), Instruction(HALT, None)];
    var rest := [Label("end"), Instruction(HALT, None)];
    assert code[1..] == rest && rest[1..] == [Instruction(HALT, None)];
    assert CollectLabels(rest[1..], ["end"]) == Ok(["end"]);
    assert [] + ["end"] == ["end"];
    assert CollectLabels(rest, []) == Ok(["end"]);
    assert CollectLabels(code, []) == Ok(["end"]);
    assert CheckReferences(rest, [], ["end"]) == Ok(true);
  }

  // ---------------------------------------------------------------- against the generator

  lemma {:induction false} LabelNamesAreLabels(code: seq<CodeElement>, name: string)
    ensures name in LabelNames(code) <==> Label(name) in code
    decreases |code|
  {
    if |code| > 0 {
      LabelNamesAreLabels(code[1..], name);
      assert code == [code[0]] + code[1..];
    }
  }

  /** A label reference the validator accepts is one the generator resolves. */
  lemma AcceptedLabelResolves(p: Program, target: string)
    requires target in LabelNames(p.code)
    ensures Generator.Resolve(p, LabelRef(target)).Ok?
  {
    LabelNamesAreLabels(p.code, target);
  }

  /** Arithmetic slips through: the validator accepts this listing and the generator then
      fails on it. */
  lemma AcceptedYetUnresolvable()
    ensures var code := [Instruction(PUSH, Some(Arithmetic(LabelRef("nowhere"), '+', Literal(1))))];
      && Validate(Listing([], [], code)) == Ok(true)
      && Generator.Generate(Program([], code)) == Err(Generator.UnknownLabel("nowhere"))
  {
    var code := [Instruction(PUSH, Some(Arithmetic(LabelRef("nowhere"), '+', Literal(1))))];
    assert Label("nowhere") !in code;
    assert Generator.EncodeCode(Program([], code), code) == Err(Generator.UnknownLabel("nowhere"));
  }
}
