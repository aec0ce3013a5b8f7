/** The compiler's slot discipline, stated on the lines it emits: a function's frame
    holds one word per slot handed out, and after each assignment or reassignment every
    variable's slot holds the variable's current value. Values follow the machine's
    operand order (see `Listing.SubtractionReversed`). */
module CompiledCode {
  import opened Results
  import opened Bytes
  import opened Scopes
  import opened Translate
  import opened Listing
  import StackMachine

  /** What a statement writes: a literal or an arithmetic value emits code; any other
      value emits nothing. */
  predicate Emits(value: Expr)
  {
    value.LiteralInt? || value.Arithmetic?
  }

  /** An assignment or reassignment whose value, if it emits code, is a pure operand. */
  predicate Simple(st: Expr)
  {
    (st.Assignment? || st.Reassignment?) && (Emits(st.value) ==> PureOperand(st.value))
  }

  predicate AllSimple(body: seq<Expr>)
  {
    forall i :: 0 <= i < |body| ==> Simple(body[i])
  }

  /** The lines of a statement: the value's lines, followed for a reassignment by the store
      into the variable's slot; `None` when a name has no slot. */
  function StatementLines(st: Expr, scope: Scope): Option<seq<Line>>
    requires Simple(st)
  {
    if !Emits(st.value) then Some([])
    else match OperandLines(st.value, scope)
      case None => None
      case Some(lines) =>
        if st.Assignment? then Some(lines)
        else if st.identifier in scope.vars then Some(lines + [StoreLine(scope.vars[st.identifier].addressValue)])
        else None
  }

  /** The scope after a statement: an assignment that emits code takes a new slot. */
  function NextScope(st: Expr, scope: Scope): Scope
    requires Simple(st)
  {
    if st.Assignment? && st.value.LiteralInt? then AddVariable(scope, st.identifier, LiteralVar)
    else if st.Assignment? && st.value.Arithmetic? then AddVariable(scope, st.identifier, AssignmentVar)
    else scope
  }

  /** The translator writes exactly the statement's lines and leaves the scope that
      `NextScope` names, and fails exactly when `StatementLines` finds an unbound name. */
  lemma StatementText(st: Expr, scope: Scope)
    requires WellFormed(scope) && Simple(st)
    ensures TranslateExpr(st, scope, "").Ok? <==> StatementLines(st, scope).Some?
    ensures StatementLines(st, scope).Some? ==>
      TranslateExpr(st, scope, "").value == (RenderAll(StatementLines(st, scope).value), NextScope(st, scope))
  {
    if st.value.LiteralInt? {
      LiteralStatementText(st, scope);
    } else if st.value.Arithmetic? {
      ArithmeticStatementText(st, scope);
    } else {
      assert RenderAll([]) == "";
    }
  }

  lemma LiteralStatementText(st: Expr, scope: Scope)
    requires WellFormed(scope) && Simple(st) && st.value.LiteralInt?
    ensures TranslateExpr(st, scope, "").Ok? <==> StatementLines(st, scope).Some?
    ensures StatementLines(st, scope).Some? ==>
      TranslateExpr(st, scope, "").value == (RenderAll(StatementLines(st, scope).value), NextScope(st, scope))
  {
    if st.Assignment? {
      LiteralAssignmentText(st, scope);
    } else {
      LiteralReassignmentText(st, scope);
    }
  }

  lemma LiteralAssignmentText(st: Expr, scope: Scope)
    requires WellFormed(scope) && Simple(st) && st.value.LiteralInt? && st.Assignment?
    ensures TranslateExpr(st, scope, "").Ok? && StatementLines(st, scope).Some?
    ensures TranslateExpr(st, scope, "").value == (RenderAll(StatementLines(st, scope).value), NextScope(st, scope))
  {
    var n := st.value.number;
    assert TranslateExpr(st, scope, "") == TranslateAssignment(st, scope, "");
    assert OperandLines(st.value, scope) == Some([PushLine(n)]);
    assert [PushLine(n)][1..] == [];
    assert RenderAll([PushLine(n)]) == PushText(n);
    assert "" + PushText(n) == PushText(n);
  }

  lemma LiteralReassignmentText(st: Expr, scope: Scope)
    requires WellFormed(scope) && Simple(st) && st.value.LiteralInt? && st.Reassignment?
    ensures TranslateExpr(st, scope, "").Ok? <==> StatementLines(st, scope).Some?
    ensures StatementLines(st, scope).Some? ==>
      TranslateExpr(st, scope, "").value == (RenderAll(StatementLines(st, scope).value), NextScope(st, scope))
  {
    var n := st.value.number;
    assert st == Reassignment(st.identifier, st.value);
    ReassignmentShape(st.identifier, st.value, scope, "");
    assert OperandLines(st.value, scope) == Some([PushLine(n)]);
    if st.identifier in scope.vars {
      var o := scope.vars[st.identifier].addressValue;
      assert SlotOk(scope.vars[st.identifier], scope.address);
      RenderAllAppend([PushLine(n)], [StoreLine(o)]);
      assert [PushLine(n)][1..] == [];
      assert [StoreLine(o)][1..] == [];
      assert RenderAll([PushLine(n)]) == PushText(n);
      assert RenderAll([StoreLine(o)]) == "smv " + HexText(o) + "\n";
      assert "" + PushText(n) + "smv " + HexText(o) + "\n" == PushText(n) + ("smv " + HexText(o) + "\n");
    }
  }

  lemma ArithmeticStatementText(st: Expr, scope: Scope)
    requires WellFormed(scope) && Simple(st) && st.value.Arithmetic?
    ensures TranslateExpr(st, scope, "").Ok? <==> StatementLines(st, scope).Some?
    ensures StatementLines(st, scope).Some? ==>
      TranslateExpr(st, scope, "").value == (RenderAll(StatementLines(st, scope).value), NextScope(st, scope))
  {
    if st.Assignment? {
      ArithmeticAssignmentText(st, scope);
    } else {
      ArithmeticReassignmentText(st, scope);
    }
  }

  lemma ArithmeticAssignmentText(st: Expr, scope: Scope)
    requires WellFormed(scope) && Simple(st) && st.value.Arithmetic? && st.Assignment?
    ensures TranslateExpr(st, scope, "").Ok? <==> StatementLines(st, scope).Some?
    ensures StatementLines(st, scope).Some? ==>
      TranslateExpr(st, scope, "").value == (RenderAll(StatementLines(st, scope).value), NextScope(st, scope))
  {
    OperandText(st.value, scope);
    assert Operand(st.value, scope, "") == TranslateExpr(st.value, scope, "");
    assert TranslateExpr(st, scope, "") == TranslateAssignment(st, scope, "");
  }

  lemma ArithmeticReassignmentText(st: Expr, scope: Scope)
    requires WellFormed(scope) && Simple(st) && st.value.Arithmetic? && st.Reassignment?
    ensures TranslateExpr(st, scope, "").Ok? <==> StatementLines(st, scope).Some?
    ensures StatementLines(st, scope).Some? ==>
      TranslateExpr(st, scope, "").value == (RenderAll(StatementLines(st, scope).value), NextScope(st, scope))
  {
    var value := st.value;
    assert st == Reassignment(st.identifier, value);
    ReassignmentShape(st.identifier, value, scope, "");
    OperandText(value, scope);
    assert Operand(value, scope, "") == TranslateExpr(value, scope, "");
    if Bound(value, scope.vars.Keys) && st.identifier in scope.vars {
      var lines := OperandLines(value, scope).value;
      var o := scope.vars[st.identifier].addressValue;
      assert SlotOk(scope.vars[st.identifier], scope.address);
      assert StatementLines(st, scope) == Some(lines + [StoreLine(o)]);
      RenderAllAppend(lines, [StoreLine(o)]);
      assert [StoreLine(o)][1..] == [];
      assert RenderAll([StoreLine(o)]) == "smv " + HexText(o) + "\n";
      assert RenderAll(lines) + "smv " + HexText(o) + "\n" == RenderAll(lines) + ("smv " + HexText(o) + "\n");
    }
  }

  // ---------------------------------------------------------------- values

  /** The variables' current values. */
  type Env = map<string, Word>

  /** The value of a pure operand in `env`, each operation applied with its right operand
      on top as the machine does; an unknown name reads as 0. */
  function Value(x: Expr, env: Env): Word
    requires PureOperand(x)
  {
    match x
    case LiteralInt(v) => ToU16(v)
    case StackVariable(n) => if n in env then env[n] else 0
    case Arithmetic(op, a, b) => ToU16(StackMachine.Apply(OperatorOf(op), Value(b, env), Value(a, env)))
  }

  /** The values after a statement: the assigned name takes the value, if one is written. */
  function Update(st: Expr, env: Env): Env
    requires Simple(st)
  {
    if Emits(st.value) then env[st.identifier := Value(st.value, env)] else env
  }

  function RunBody(body: seq<Expr>, env: Env): Env
    requires AllSimple(body)
  {
    if |body| == 0 then env else RunBody(body[1..], Update(body[0], env))
  }

  /** The frame holds one word per slot handed out, and every variable's slot holds its
      value. */
  predicate Agrees(scope: Scope, f: Frame, env: Env)
  {
    && 2 * |f| == scope.address
    && forall n | n in scope.vars ::
      && n in env
      && 0 <= SlotIndex(scope.vars[n].addressValue) < |f|
      && f[SlotIndex(scope.vars[n].addressValue)] == env[n]
  }

  lemma AgreesInFrame(scope: Scope, f: Frame, env: Env)
    requires WellFormed(scope) && Agrees(scope, f, env)
    ensures SlotsInFrame(scope, |f|)
  {
    forall n | n in scope.vars
      ensures InFrame(scope.vars[n].addressValue, |f|)
    {
      assert SlotOk(scope.vars[n], scope.address);
    }
  }

  /** Read from the frame, an operand has its value. */
  lemma {:induction false} EvalIsValue(x: Expr, scope: Scope, f: Frame, env: Env)
    requires WellFormed(scope) && Agrees(scope, f, env)
    requires PureOperand(x) && Bound(x, scope.vars.Keys)
    ensures SlotsInFrame(scope, |f|)
    ensures Eval(x, scope, f) == Value(x, env)
    decreases x
  {
    AgreesInFrame(scope, f, env);
    match x
    case LiteralInt(_) =>
    case StackVariable(n) =>
    case Arithmetic(_, a, b) =>
      EvalIsValue(a, scope, f, env);
      EvalIsValue(b, scope, f, env);
  }

  // ---------------------------------------------------------------- one statement

  /** An assignment pushes its value, and the slot it is given is the word just pushed. */
  lemma AssignmentKeepsSlots(st: Expr, scope: Scope, f: Frame, env: Env)
    requires WellFormed(scope) && Agrees(scope, f, env) && Simple(st) && st.Assignment? && Emits(st.value)
    requires OperandLines(st.value, scope).Some?
    ensures WellFormed(NextScope(st, scope))
    ensures Exec(OperandLines(st.value, scope).value, f) == Some(f + [Value(st.value, env)])
    ensures Agrees(NextScope(st, scope), f + [Value(st.value, env)], Update(st, env))
  {
    var kind := if st.value.LiteralInt? then LiteralVar else AssignmentVar;
    OperandText(st.value, scope);
    AgreesInFrame(scope, f, env);
    OperandPushesValue(st.value, scope, f);
    EvalIsValue(st.value, scope, f, env);
    AddVariableFresh(scope, st.identifier, kind);
    var v := Value(st.value, env);
    var next := NextScope(st, scope);
    var g := f + [v];
    forall n | n in next.vars
      ensures n in Update(st, env)
      ensures 0 <= SlotIndex(next.vars[n].addressValue) < |g|
      ensures g[SlotIndex(next.vars[n].addressValue)] == Update(st, env)[n]
    {
      if n != st.identifier {
        assert SlotOk(scope.vars[n], scope.address);
      }
    }
  }

  /** A reassignment pushes its value and pops it into the variable's slot; no other slot
      changes, since no two variables share one. */
  lemma ReassignmentKeepsSlots(st: Expr, scope: Scope, f: Frame, env: Env)
    requires WellFormed(scope) && Agrees(scope, f, env) && Simple(st) && st.Reassignment? && Emits(st.value)
    requires StatementLines(st, scope).Some?
    ensures Exec(StatementLines(st, scope).value, f).Some?
    ensures Agrees(scope, Exec(StatementLines(st, scope).value, f).value, Update(st, env))
  {
    var lines := OperandLines(st.value, scope).value;
    var o := scope.vars[st.identifier].addressValue;
    AgreesInFrame(scope, f, env);
    OperandText(st.value, scope);
    OperandPushesValue(st.value, scope, f);
    EvalIsValue(st.value, scope, f, env);
    var v := Value(st.value, env);
    ExecAppend(lines, [StoreLine(o)], f);
    assert InFrame(o, |f|);
    var g := f[SlotIndex(o) := v];
    assert (f + [v])[..|f|] == f;
    assert Exec([StoreLine(o)], f + [v]) == Some(g);
    forall n | n in scope.vars
      ensures n in Update(st, env)
      ensures 0 <= SlotIndex(scope.vars[n].addressValue) < |g|
      ensures g[SlotIndex(scope.vars[n].addressValue)] == Update(st, env)[n]
    {
      assert SlotOk(scope.vars[n], scope.address);
      if n != st.identifier {
        assert scope.vars[n].addressValue != o;
      }
    }
  }

  /** Every simple statement keeps the frame in step with the values. */
  lemma StatementKeepsSlots(st: Expr, scope: Scope, f: Frame, env: Env)
    requires WellFormed(scope) && Agrees(scope, f, env) && Simple(st)
    requires StatementLines(st, scope).Some?
    ensures WellFormed(NextScope(st, scope))
    ensures Exec(StatementLines(st, scope).value, f).Some?
    ensures Agrees(NextScope(st, scope), Exec(StatementLines(st, scope).value, f).value, Update(st, env))
  {
    if !Emits(st.value) {
    } else if st.Assignment? {
      AssignmentKeepsSlots(st, scope, f, env);
    } else {
      ReassignmentKeepsSlots(st, scope, f, env);
    }
  }

  // ---------------------------------------------------------------- a body

  function BodyLines(body: seq<Expr>, scope: Scope): Option<seq<Line>>
    requires AllSimple(body)
  {
    if |body| == 0 then Some([])
    else match StatementLines(body[0], scope)
      case None => None
      case Some(first) =>
        match BodyLines(body[1..], NextScope(body[0], scope))
        case None => None
        case Some(rest) => Some(first + rest)
  }

  function BodyScope(body: seq<Expr>, scope: Scope): Scope
    requires AllSimple(body)
  {
    if |body| == 0 then scope else BodyScope(body[1..], NextScope(body[0], scope))
  }

  /** The translator writes exactly the body's lines, statement after statement. */
  lemma {:induction false} BodyText(body: seq<Expr>, scope: Scope)
    requires WellFormed(scope) && AllSimple(body)
    ensures TranslateBody(body, scope, "").Ok? <==> BodyLines(body, scope).Some?
    ensures BodyLines(body, scope).Some? ==>
      TranslateBody(body, scope, "").value == (RenderAll(BodyLines(body, scope).value), BodyScope(body, scope))
    decreases |body|
  {
    if |body| > 0 {
      var st := body[0];
      StatementText(st, scope);
      if StatementLines(st, scope).Some? {
        var next := NextScope(st, scope);
        var first := StatementLines(st, scope).value;
        assert WellFormed(next) by {
          if st.Assignment? && Emits(st.value) {
            AddVariableFresh(scope, st.identifier, if st.value.LiteralInt? then LiteralVar else AssignmentVar);
          }
        }
        assert AllSimple(body[1..]) by {
          forall i | 0 <= i < |body[1..]| ensures Simple(body[1..][i]) {
            assert body[1..][i] == body[i + 1];
          }
        }
        BodyText(body[1..], next);
        BodyAppends(body[1..], next, RenderAll(first));
        if BodyLines(body[1..], next).Some? {
          RenderAllAppend(first, BodyLines(body[1..], next).value);
        }
      }
    }
  }

  /** Running a body's lines keeps the frame in step with the values the statements give
      the variables, one statement after another. */
  lemma {:induction false} BodyKeepsSlots(body: seq<Expr>, scope: Scope, f: Frame, env: Env)
    requires WellFormed(scope) && Agrees(scope, f, env) && AllSimple(body)
    requires BodyLines(body, scope).Some?
    ensures Exec(BodyLines(body, scope).value, f).Some?
    ensures Agrees(BodyScope(body, scope), Exec(BodyLines(body, scope).value, f).value, RunBody(body, env))
    decreases |body|
  {
    if |body| > 0 {
      var st := body[0];
      StatementKeepsSlots(st, scope, f, env);
      var first := StatementLines(st, scope).value;
      var g := Exec(first, f).value;
      assert AllSimple(body[1..]) by {
        forall i | 0 <= i < |body[1..]| ensures Simple(body[1..][i]) {
          assert body[1..][i] == body[i + 1];
        }
      }
      BodyKeepsSlots(body[1..], NextScope(st, scope), g, Update(st, env));
      ExecAppend(first, BodyLines(body[1..], NextScope(st, scope)).value, f);
    }
  }

  // ---------------------------------------------------------------- a function

  predicate Distinct(args: seq<string>)
  {
    forall i, j :: 0 <= i < j < |args| ==> args[i] != args[j]
  }

  /** The values of the arguments on entry: argument k is word k of the frame, the word
      CALL placed at `fp - 2(k+1)`. */
  function ArgumentValues(args: seq<string>, f: Frame): Env
    requires Distinct(args) && |f| == |args|
  {
    map i | 0 <= i < |args| :: args[i] := f[i]
  }

  /** Under distinct names, argument k is bound to slot k and valued as word k. */
  lemma ArgumentSlot(args: seq<string>, f: Frame, k: nat)
    requires Distinct(args) && |f| == |args| && k < |args|
    ensures args[k] in FromArguments(args).vars
    ensures SlotIndex(FromArguments(args).vars[args[k]].addressValue) == k
    ensures args[k] in ArgumentValues(args, f) && ArgumentValues(args, f)[args[k]] == f[k]
  {
    var later := args[k + 1..];
    forall j | 0 <= j < |later|
      ensures later[j] != args[k]
    {
      assert later[j] == args[k + 1 + j];
    }
    ArgumentOffsets(args);
    var env := ArgumentValues(args, f);
    assert args[k] in env;
    var i :| 0 <= i < |args| && args[i] == args[k] && env[args[k]] == f[i];
    assert i == k;
  }

  /** On entry, the frame of arguments agrees with the function's fresh scope. */
  lemma ArgumentsAgree(args: seq<string>, f: Frame)
    requires Distinct(args) && |f| == |args|
    ensures WellFormed(FromArguments(args))
    ensures Agrees(FromArguments(args), f, ArgumentValues(args, f))
  {
    var s := FromArguments(args);
    var env := ArgumentValues(args, f);
    ArgumentsWellFormed(args);
    ArgumentNames(args);
    forall n | n in s.vars
      ensures n in env && 0 <= SlotIndex(s.vars[n].addressValue) < |f| && f[SlotIndex(s.vars[n].addressValue)] == env[n]
    {
      var k :| 0 <= k < |args| && args[k] == n;
      ArgumentSlot(args, f, k);
    }
  }

  /** A function of simple statements, entered with its arguments in the frame, compiles to
      its label, its lines and `ret`; running those lines leaves every variable's value in
      its slot. */
  lemma FunctionKeepsSlots(name: string, args: seq<string>, body: seq<Expr>, f: Frame, scope: Scope, asm: string)
    requires Distinct(args) && |f| == |args| && AllSimple(body)
    requires TranslateExpr(Function(name, args, body), scope, asm).Ok?
    ensures BodyLines(body, FromArguments(args)).Some?
    ensures var lines := BodyLines(body, FromArguments(args)).value;
      && TranslateExpr(Function(name, args, body), scope, asm).value
           == (asm + name + ":\n" + RenderAll(lines) + "ret\n\n", scope)
      && Exec(lines, f).Some?
      && Agrees(BodyScope(body, FromArguments(args)), Exec(lines, f).value, RunBody(body, ArgumentValues(args, f)))
  {
    ArgumentsAgree(args, f);
    FunctionShape(name, args, body, scope, asm);
    BodyText(body, FromArguments(args));
    BodyKeepsSlots(body, FromArguments(args), f, ArgumentValues(args, f));
  }
}
