/** What the compiler's text means to the machine. The lines an arithmetic expression
    compiles to are named here (`push`, `cps`, `smv` and the three operations), their
    text is the text the translator writes, and their effect is given on the words of the
    running frame. `ListingOnMachine` shows that the machine's PUSH, CPS, SMV, ADD, SUB
    and MUL have that effect when the operand after the opcode is fetched as written. */
module Listing {
  import opened Results
  import opened Bytes
  import opened Scopes
  import opened Translate
  import StackMachine

  datatype Line =
    | PushLine(value: nat)
    | CopyLine(offset: nat)    // `cps`: push the word at `fp - offset`
    | StoreLine(offset: nat)   // `smv`: pop a word into `fp - offset`
    | OpLine(op: ArithOp)

  function Render(l: Line): string
  {
    match l
    case PushLine(v) => PushText(v)
    case CopyLine(o) => "cps " + HexText(o) + "\n"
    case StoreLine(o) => "smv " + HexText(o) + "\n"
    case OpLine(op) => Mnemonic(op) + "\n"
  }

  function RenderAll(lines: seq<Line>): string
  {
    if |lines| == 0 then "" else Render(lines[0]) + RenderAll(lines[1..])
  }

  lemma RenderAllFirst(lines: seq<Line>)
    requires |lines| > 0
    ensures RenderAll(lines) == Render(lines[0]) + RenderAll(lines[1..])
  {
  }

  lemma ConcatAssociates(x: string, y: string, z: string)
    ensures x + (y + z) == (x + y) + z
  {
  }

  lemma {:induction false} RenderAllAppend(a: seq<Line>, b: seq<Line>)
    ensures RenderAll(a + b) == RenderAll(a) + RenderAll(b)
    decreases |a|
  {
    if |a| > 0 {
      calc {
        RenderAll(a + b);
        { RenderAllFirst(a + b); assert (a + b)[0] == a[0] && (a + b)[1..] == a[1..] + b; }
        Render(a[0]) + RenderAll(a[1..] + b);
        { RenderAllAppend(a[1..], b); }
        Render(a[0]) + (RenderAll(a[1..]) + RenderAll(b));
        { ConcatAssociates(Render(a[0]), RenderAll(a[1..]), RenderAll(b)); }
        (Render(a[0]) + RenderAll(a[1..])) + RenderAll(b);
        { RenderAllFirst(a); }
        RenderAll(a) + RenderAll(b);
      }
    } else {
      assert a + b == b;
    }
  }

  // ---------------------------------------------------------------- the frame

  /** The words of the running frame, oldest first: word i is the one at `fp - 2(i+1)`,
      and the last is the top of the stack. */
  type Frame = seq<Word>

  /** An offset that names a word of a frame of n words. */
  predicate InFrame(offset: int, n: int)
  {
    offset % 2 == 0 && 2 <= offset <= 2 * n
  }

  function SlotIndex(offset: int): int
  {
    offset / 2 - 1
  }

  function OperatorOf(op: ArithOp): StackMachine.Operator
  {
    match op
    case AddOp => StackMachine.Plus
    case SubOp => StackMachine.Minus
    case MulOp => StackMachine.Times
  }

  /** One line's effect; `None` where the machine would reach outside the frame. */
  function Exec1(l: Line, f: Frame): (r: Option<Frame>)
    ensures r.Some? && (l.PushLine? || l.CopyLine?) ==> |r.value| == |f| + 1
    ensures r.Some? && (l.StoreLine? || l.OpLine?) ==> |r.value| == |f| - 1
  {
    match l
    case PushLine(v) => Some(f + [ToU16(v)])
    case CopyLine(o) => if InFrame(o, |f|) then Some(f + [f[SlotIndex(o)]]) else None
    case StoreLine(o) =>
      if |f| >= 1 && InFrame(o, |f| - 1) then Some(f[..|f| - 1][SlotIndex(o) := f[|f| - 1]]) else None
    case OpLine(op) =>
      if |f| >= 2 then Some(f[..|f| - 2] + [ToU16(StackMachine.Apply(OperatorOf(op), f[|f| - 1], f[|f| - 2]))])
      else None
  }

  function Exec(lines: seq<Line>, f: Frame): Option<Frame>
  {
    if |lines| == 0 then Some(f)
    else match Exec1(lines[0], f)
      case None => None
      case Some(g) => Exec(lines[1..], g)
  }

  lemma {:induction false} ExecAppend(a: seq<Line>, b: seq<Line>, f: Frame)
    ensures Exec(a + b, f) == (match Exec(a, f) case None => None case Some(g) => Exec(b, g))
    decreases |a|
  {
    if |a| == 0 {
      assert a + b == b;
    } else {
      assert (a + b)[0] == a[0] && (a + b)[1..] == a[1..] + b;
      match Exec1(a[0], f)
      case None =>
      case Some(g) => ExecAppend(a[1..], b, g);
    }
  }

  // ---------------------------------------------------------------- operands

  /** The operands the translator handles without recursing into statements: literals,
      stack variables and arithmetic on them. */
  predicate PureOperand(x: Expr)
  {
    match x
    case LiteralInt(_) => true
    case StackVariable(_) => true
    case Arithmetic(_, a, b) => PureOperand(a) && PureOperand(b)
    case _ => false
  }

  /** The lines of a pure operand, `None` when it names a variable without a slot. */
  function OperandLines(x: Expr, scope: Scope): Option<seq<Line>>
    requires PureOperand(x)
  {
    match x
    case LiteralInt(v) => Some([PushLine(v)])
    case StackVariable(n) => if n in scope.vars then Some([CopyLine(scope.vars[n].addressValue)]) else None
    case Arithmetic(op, a, b) =>
      match OperandLines(a, scope)
      case None => None
      case Some(la) =>
        match OperandLines(b, scope)
        case None => None
        case Some(lb) => Some(la + lb + [OpLine(op)])
  }

  /** Whether every variable in `x` is one of `names`. */
  predicate Bound(x: Expr, names: set<string>)
    requires PureOperand(x)
  {
    match x
    case LiteralInt(_) => true
    case StackVariable(n) => n in names
    case Arithmetic(_, a, b) => Bound(a, names) && Bound(b, names)
  }

  /** The translator writes exactly the text of the operand's lines, and fails exactly
      when a variable has no slot; the scope is left as it was. */
  lemma {:induction false} OperandText(x: Expr, scope: Scope)
    requires PureOperand(x) && WellFormed(scope)
    ensures OperandLines(x, scope).Some? <==> Bound(x, scope.vars.Keys)
    ensures Operand(x, scope, "").Ok? <==> Bound(x, scope.vars.Keys)
    ensures Bound(x, scope.vars.Keys) ==> Operand(x, scope, "").value == (RenderAll(OperandLines(x, scope).value), scope)
    decreases x
  {
    match x
    case LiteralInt(v) =>
      assert [PushLine(v)][1..] == [];
      assert RenderAll([PushLine(v)]) == PushText(v) + "" == PushText(v);
      assert Operand(x, scope, "") == Ok(("" + PushText(v), scope));
      assert "" + PushText(v) == PushText(v);
    case StackVariable(n) =>
      if n in scope.vars {
        assert SlotOk(scope.vars[n], scope.address);
        var o := scope.vars[n].addressValue;
        assert [CopyLine(o)][1..] == [];
        assert RenderAll([CopyLine(o)]) == "cps " + HexText(o) + "\n" + "";
        assert Operand(x, scope, "") == Ok(("" + "cps " + scope.vars[n].hexAddress + "\n", scope));
        assert "" + "cps " + HexText(o) + "\n" == "cps " + HexText(o) + "\n" + "";
      }
    case Arithmetic(op, a, b) =>
      OperandText(a, scope);
      OperandText(b, scope);
      assert Operand(x, scope, "") == BinaryOperation(x, scope, "");
      if Bound(x, scope.vars.Keys) {
        var la := OperandLines(a, scope).value;
        var lb := OperandLines(b, scope).value;
        OperandAppends(b, scope, RenderAll(la));
        RenderAllAppend(la + lb, [OpLine(op)]);
        RenderAllAppend(la, lb);
        assert RenderAll([OpLine(op)]) == Mnemonic(op) + "\n" + "";
        assert Operand(a, scope, "") == Ok((RenderAll(la), scope));
        assert Operand(b, scope, RenderAll(la)) == Ok((RenderAll(la) + RenderAll(lb), scope));
        assert BinaryOperation(x, scope, "") == Ok((RenderAll(la) + RenderAll(lb) + Mnemonic(op) + "\n", scope));
        assert RenderAll(OperandLines(x, scope).value) == RenderAll(la) + RenderAll(lb) + Mnemonic(op) + "\n";
      } else if Bound(a, scope.vars.Keys) {
        OperandAppends(b, scope, RenderAll(OperandLines(a, scope).value));
      }
  }

  // ---------------------------------------------------------------- values

  /** The word an operand leaves on the stack when its variables' slots hold `f`: each
      operation is applied with the right operand on top, as the machine pops it first. */
  function Eval(x: Expr, scope: Scope, f: Frame): Word
    requires PureOperand(x) && Bound(x, scope.vars.Keys) && SlotsInFrame(scope, |f|)
  {
    match x
    case LiteralInt(v) => ToU16(v)
    case StackVariable(n) => f[SlotIndex(scope.vars[n].addressValue)]
    case Arithmetic(op, a, b) => ToU16(StackMachine.Apply(OperatorOf(op), Eval(b, scope, f), Eval(a, scope, f)))
  }

  predicate SlotsInFrame(scope: Scope, n: int)
  {
    forall v | v in scope.vars :: InFrame(scope.vars[v].addressValue, n)
  }

  /** Words pushed above the slots do not change an operand's value. */
  lemma {:induction false} EvalAbove(x: Expr, scope: Scope, f: Frame, g: Frame)
    requires PureOperand(x) && Bound(x, scope.vars.Keys) && SlotsInFrame(scope, |f|)
    ensures SlotsInFrame(scope, |f + g|)
    ensures Eval(x, scope, f + g) == Eval(x, scope, f)
    decreases x
  {
    match x
    case LiteralInt(_) =>
    case StackVariable(n) =>
      assert InFrame(scope.vars[n].addressValue, |f|);
    case Arithmetic(_, a, b) =>
      EvalAbove(a, scope, f, g);
      EvalAbove(b, scope, f, g);
  }

  /** An operand's lines push exactly one word, its value, and touch nothing below. */
  lemma {:induction false} OperandPushesValue(x: Expr, scope: Scope, f: Frame)
    requires PureOperand(x) && Bound(x, scope.vars.Keys) && SlotsInFrame(scope, |f|)
    ensures OperandLines(x, scope).Some?
    ensures Exec(OperandLines(x, scope).value, f) == Some(f + [Eval(x, scope, f)])
    decreases x
  {
    match x
    case LiteralInt(v) =>
    case StackVariable(n) =>
      assert InFrame(scope.vars[n].addressValue, |f|);
    case Arithmetic(op, a, b) =>
      OperandPushesValue(a, scope, f);
      var la := OperandLines(a, scope).value;
      var va := Eval(a, scope, f);
      EvalAbove(b, scope, f, [va]);
      OperandPushesValue(b, scope, f + [va]);
      var lb := OperandLines(b, scope).value;
      var vb := Eval(b, scope, f);
      ExecAppend(la + lb, [OpLine(op)], f);
      ExecAppend(la, lb, f);
      var g := f + [va] + [vb];
      assert g[..|g| - 2] == f && g[|g| - 1] == vb && g[|g| - 2] == va;
  }

  /** `a - b` leaves `b - a`: SUB takes the top word, operand b, as its left operand. */
  lemma SubtractionReversed(x: Expr, scope: Scope, f: Frame)
    requires x.Arithmetic? && x.op == SubOp
    requires PureOperand(x) && Bound(x, scope.vars.Keys) && SlotsInFrame(scope, |f|)
    ensures OperandLines(x, scope).Some?
    ensures Exec(OperandLines(x, scope).value, f)
      == Some(f + [ToU16(Eval(x.b, scope, f) as int - Eval(x.a, scope, f) as int)])
  {
    OperandPushesValue(x, scope, f);
    EvalSubtraction(x, scope, f);
  }

  lemma EvalSubtraction(x: Expr, scope: Scope, f: Frame)
    requires x.Arithmetic? && x.op == SubOp && PureOperand(x) && Bound(x, scope.vars.Keys) && SlotsInFrame(scope, |f|)
    ensures Eval(x, scope, f) == ToU16(Eval(x.b, scope, f) as int - Eval(x.a, scope, f) as int)
  {
  }

  /** So `5 - 3` leaves 0xfffe rather than 2. */
  lemma FiveMinusThree(scope: Scope, f: Frame)
    ensures OperandLines(Arithmetic(SubOp, LiteralInt(5), LiteralInt(3)), scope)
      == Some([PushLine(5), PushLine(3), OpLine(SubOp)])
    ensures Exec([PushLine(5), PushLine(3), OpLine(SubOp)], f) == Some(f + [0xfffe])
  {
    assert [PushLine(5)] + [PushLine(3)] + [OpLine(SubOp)] == [PushLine(5), PushLine(3), OpLine(SubOp)];
    var g := f + [5] + [3];
    assert Exec([OpLine(SubOp)], g) == Some(f + [0xfffe]) by {
      assert g[..|g| - 2] == f && g[|g| - 1] == 3 && g[|g| - 2] == 5;
    }
    assert Exec([PushLine(3), OpLine(SubOp)], f + [5]) == Exec([OpLine(SubOp)], g) by {
      assert [PushLine(3), OpLine(SubOp)][1..] == [OpLine(SubOp)];
    }
    assert [PushLine(5), PushLine(3), OpLine(SubOp)][1..] == [PushLine(3), OpLine(SubOp)];
  }
}
