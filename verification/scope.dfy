/** The compiler's stack-slot allocator (`compiler/generator/scope.js`). Every variable of a
    function gets a slot `fp - a` below its frame pointer; `a` is handed out in steps of 2,
    the function's arguments first, in order. */
module Scopes {
  import opened Results
  import opened Hex
  import StackMachine

  datatype VarKind = ArgumentVar | LiteralVar | AssignmentVar

  /** A variable's record: its slot offset and the offset as the assembler text writes it. */
  datatype Variable = Variable(kind: VarKind, addressValue: nat, hexAddress: string)

  /** `vars` maps names to records; `address` is the last offset handed out. */
  datatype Scope = Scope(vars: map<string, Variable>, address: nat)

  /** A number as `0x${n.toString(16)}` writes it. */
  function HexText(n: nat): (r: string)
    ensures |r| >= 3 && r[..2] == "0x"
  {
    "0x" + ToHex(n)
  }

  function Empty(): Scope
  {
    Scope(map[], 0)
  }

  /** `addVariable`: take the next offset and (re)bind the name to it. */
  function AddVariable(s: Scope, name: string, kind: VarKind): (r: Scope)
    ensures r.address == s.address + 2
    ensures name in r.vars && r.vars[name].kind == kind
  {
    var a := s.address + 2;
    Scope(s.vars[name := Variable(kind, a, HexText(a))], a)
  }

  /** The constructor's loop: the arguments are added in order. */
  function AddArguments(s: Scope, args: seq<string>): (r: Scope)
    ensures r.address == s.address + 2 * |args|
    decreases |args|
  {
    if |args| == 0 then s
    else AddVariable(AddArguments(s, args[..|args| - 1]), args[|args| - 1], ArgumentVar)
  }

  /** `new Scope(args)`. */
  function FromArguments(args: seq<string>): Scope
  {
    AddArguments(Empty(), args)
  }

  /** `getHexAddress`; looking up an unbound name is an error. */
  function GetHexAddress(s: Scope, name: string): (r: Option<string>)
    ensures r.Some? <==> name in s.vars
  {
    if name in s.vars then Some(s.vars[name].hexAddress) else None
  }

  /** `fork`: a new scope continuing from the same offset with a copy of the bindings. */
  function Fork(s: Scope): Scope
  {
    Scope(map n | n in s.vars :: s.vars[n], s.address)
  }

  // ---------------------------------------------------------------- the allocation invariant

  /** Every bound offset is positive, even, no larger than the counter and written in hex;
      no two names share a slot. */
  predicate WellFormed(s: Scope)
  {
    && s.address % 2 == 0
    && (forall n | n in s.vars :: SlotOk(s.vars[n], s.address))
    && forall n, m | n in s.vars && m in s.vars && n != m :: s.vars[n].addressValue != s.vars[m].addressValue
  }

  predicate SlotOk(v: Variable, bound: nat)
  {
    0 < v.addressValue <= bound && v.addressValue % 2 == 0 && v.hexAddress == HexText(v.addressValue)
  }

  /** A new binding gets an offset above every offset in use, the other bindings stay as
      they were, and the invariant is kept. */
  lemma AddVariableFresh(s: Scope, name: string, kind: VarKind)
    requires WellFormed(s)
    ensures var r := AddVariable(s, name, kind);
      && WellFormed(r)
      && r.vars[name].addressValue == s.address + 2
      && (forall n | n in s.vars :: s.vars[n].addressValue < r.vars[name].addressValue)
      && r.vars.Keys == s.vars.Keys + {name}
      && forall n | n in s.vars && n != name :: r.vars[n] == s.vars[n]
  {
    var r := AddVariable(s, name, kind);
    AddVariableKeys(s, name, kind);
    AddVariableKeepsSlots(s, name, kind);
    forall n | n in s.vars
      ensures s.vars[n].addressValue < r.vars[name].addressValue
    {
      assert SlotOk(s.vars[n], s.address);
    }
  }

  lemma AddVariableKeepsSlots(s: Scope, name: string, kind: VarKind)
    requires WellFormed(s)
    ensures WellFormed(AddVariable(s, name, kind))
  {
    var r := AddVariable(s, name, kind);
    forall n, m | n in r.vars && m in r.vars && n != m
      ensures r.vars[n].addressValue != r.vars[m].addressValue
    {
      if n != name && m != name {
        assert r.vars[n] == s.vars[n] && r.vars[m] == s.vars[m];
      } else if n == name {
        assert SlotOk(s.vars[m], s.address);
      } else {
        assert SlotOk(s.vars[n], s.address);
      }
    }
  }

  /** Re-adding a bound name moves it to a new, larger slot. */
  lemma ReAddMoves(s: Scope, name: string, kind: VarKind)
    requires WellFormed(s) && name in s.vars
    ensures AddVariable(s, name, kind).vars[name].addressValue > s.vars[name].addressValue
    ensures |AddVariable(s, name, kind).vars| == |s.vars|
  {
    AddVariableFresh(s, name, kind);
    assert AddVariable(s, name, kind).vars.Keys == s.vars.Keys;
  }

  /** A bound name's text is `0x` and digits that read back as its offset. */
  lemma HexAddressReadsBack(s: Scope, name: string)
    requires WellFormed(s) && name in s.vars
    ensures GetHexAddress(s, name).Some?
    ensures var t := GetHexAddress(s, name).value;
      t[..2] == "0x" && ParseHex(t[2..]) == Some(s.vars[name].addressValue)
  {
    assert SlotOk(s.vars[name], s.address);
    var t := HexText(s.vars[name].addressValue);
    assert t[2..] == ToHex(s.vars[name].addressValue);
    HexRoundTrip(s.vars[name].addressValue);
  }

  // ---------------------------------------------------------------- arguments

  /** A scope built from arguments is well formed, holds only arguments and has handed
      out one slot per argument. */
  lemma {:induction false} ArgumentsWellFormed(args: seq<string>)
    ensures WellFormed(FromArguments(args))
    ensures forall n | n in FromArguments(args).vars :: FromArguments(args).vars[n].kind == ArgumentVar
    decreases |args|
  {
    if |args| > 0 {
      var init := args[..|args| - 1];
      ArgumentsWellFormed(init);
      AddVariableFresh(FromArguments(init), args[|args| - 1], ArgumentVar);
    }
  }

  lemma AddVariableKeys(s: Scope, name: string, kind: VarKind)
    ensures AddVariable(s, name, kind).vars.Keys == s.vars.Keys + {name}
  {
  }

  /** The names in a list of arguments. */
  function Names(args: seq<string>): set<string>
  {
    set i | 0 <= i < |args| :: args[i]
  }

  /** The bound names are exactly the arguments. */
  lemma {:induction false} ArgumentNames(args: seq<string>)
    ensures FromArguments(args).vars.Keys == Names(args)
    decreases |args|
  {
    if |args| > 0 {
      var init := args[..|args| - 1];
      var last := args[|args| - 1];
      ArgumentNames(init);
      assert FromArguments(args) == AddVariable(FromArguments(init), last, ArgumentVar);
      AddVariableKeys(FromArguments(init), last, ArgumentVar);
      NamesSnoc(args);
    }
  }

  lemma NamesSnoc(args: seq<string>)
    requires |args| > 0
    ensures Names(args) == Names(args[..|args| - 1]) + {args[|args| - 1]}
  {
    var init := args[..|args| - 1];
    forall x | x in Names(args)
      ensures x in Names(init) + {args[|args| - 1]}
    {
      var i :| 0 <= i < |args| && args[i] == x;
      if i < |init| {
        assert init[i] == x;
      }
    }
    forall i | 0 <= i < |init|
      ensures init[i] in Names(args)
    {
      assert args[i] == init[i];
    }
  }

  /** Argument k, where that name does not occur again later, sits at offset 2(k+1). */
  lemma {:induction false} ArgumentOffsets(args: seq<string>)
    ensures forall k | 0 <= k < |args| && args[k] !in args[k + 1..] ::
      && args[k] in FromArguments(args).vars
      && FromArguments(args).vars[args[k]].addressValue == 2 * (k + 1)
    decreases |args|
  {
    if |args| > 0 {
      var init := args[..|args| - 1];
      var last := args[|args| - 1];
      ArgumentOffsets(init);
      var s := FromArguments(args);
      forall k | 0 <= k < |args| && args[k] !in args[k + 1..]
        ensures args[k] in s.vars && s.vars[args[k]].addressValue == 2 * (k + 1)
      {
        if k < |init| {
          var later := args[k + 1..];
          assert later == init[k + 1..] + [last];
          assert init[k] == args[k] && args[k] != last;
          assert init[k] !in init[k + 1..];
          assert s.vars[args[k]] == FromArguments(init).vars[args[k]];
        }
      }
    }
  }

  /** The offset the compiler gives argument k addresses the slot in which CALL placed
      that argument: `fp - 2(k+1)`. A CPS or SMV with that offset reads or writes the
      argument. */
  lemma ArgumentSlotMatch(args: seq<string>, k: nat, t: StackMachine.State)
    requires k < |args| && args[k] !in args[k + 1..]
    ensures args[k] in FromArguments(args).vars
    ensures StackMachine.ReadU16(t.mem, t.fp - FromArguments(args).vars[args[k]].addressValue)
      == StackMachine.ArgumentSlot(t, k)
  {
    ArgumentOffsets(args);
  }

  /** Local variables added after the arguments take the slots just below them. */
  lemma LocalAfterArguments(args: seq<string>, name: string, kind: VarKind)
    ensures AddVariable(FromArguments(args), name, kind).vars[name].addressValue == 2 * (|args| + 1)
  {
  }

  // ---------------------------------------------------------------- fork

  /** A fork answers every lookup as the original does and continues its numbering, so a
      variable added to the fork takes the same offset it would have taken in the
      original. */
  lemma ForkAgrees(s: Scope, name: string, kind: VarKind)
    ensures forall n :: GetHexAddress(Fork(s), n) == GetHexAddress(s, n)
    ensures AddVariable(Fork(s), name, kind) == AddVariable(s, name, kind)
  {
    assert Fork(s) == s;
  }
}
