/** The compiler's translation of expressions to assembly text
    (`compiler/generator/index.js`). The text is built by appending to the text so far,
    and a scope records the stack slot of every variable declared so far; a function
    translates its statements in a scope of its own, seeded with its arguments. */
module Translate {
  import opened Results
  import opened Scopes

  datatype ArithOp = AddOp | SubOp | MulOp

  /** The parsed program, one constructor per expression type the front end produces. */
  datatype Expr =
    | Function(name: string, args: seq<string>, body: seq<Expr>)
    | Assignment(identifier: string, value: Expr)
    | Reassignment(identifier: string, value: Expr)
    | Arithmetic(op: ArithOp, a: Expr, b: Expr)
    | LiteralInt(number: nat)
    | StackVariable(name: string)
    | Bracketed(inner: Expr)
    | Identifier(name: string)

  datatype CompileError =
    | Unrecognised                 // `Unrecognised expression type!`
    | UnknownVariable(name: string)  // a name with no slot in the scope

  function Mnemonic(op: ArithOp): string
  {
    match op
    case AddOp => "add"
    case SubOp => "sub"
    case MulOp => "mul"
  }

  function PushText(value: nat): string
  {
    "push " + HexText(value) + "\n"
  }

  /** `scope.getHexAddress(name)`, failing on a name without a slot. */
  function Lookup(scope: Scope, name: string): (r: Result<string, CompileError>)
    ensures r.Ok? <==> name in scope.vars
    ensures r.Err? ==> r.error == UnknownVariable(name)
  {
    match GetHexAddress(scope, name)
    case None => Err(UnknownVariable(name))
    case Some(address) => Ok(address)
  }

  /** `translations.expr(expr, scope, asm)`: the text after `expr`'s code is appended to
      `asm`, and the scope after any declaration it makes. */
  function TranslateExpr(e: Expr, scope: Scope, asm: string): Result<(string, Scope), CompileError>
    decreases e, 1
  {
    match e
    case Function(_, _, _) =>
      var text :- TranslateFunction(e, asm);
      Ok((text, scope))
    case Assignment(_, _) => TranslateAssignment(e, scope, asm)
    case Reassignment(_, _) => TranslateReassignment(e, scope, asm)
    case Arithmetic(_, _, _) => BinaryOperation(e, scope, asm)
    case _ => Err(Unrecognised)
  }

  /** `function`: the label, the statements in a scope seeded with the arguments, `ret`. */
  function TranslateFunction(e: Expr, asm: string): Result<string, CompileError>
    requires e.Function?
    decreases e, 0
  {
    var r :- TranslateBody(e.body, FromArguments(e.args), asm + e.name + ":\n");
    Ok(r.0 + "ret\n\n")
  }

  /** `assignment`: the value's code, then the name gets the next slot. */
  function TranslateAssignment(e: Expr, scope: Scope, asm: string): Result<(string, Scope), CompileError>
    requires e.Assignment?
    decreases e, 0
  {
    if e.value.LiteralInt? then
      Ok((asm + PushText(e.value.number), AddVariable(scope, e.identifier, LiteralVar)))
    else if e.value.Arithmetic? then
      var r :- TranslateExpr(e.value, scope, asm);
      Ok((r.0, AddVariable(r.1, e.identifier, AssignmentVar)))
    else
      Ok((asm, scope))
  }

  /** `reassignment`: the value's code, then `smv` into the name's slot. */
  function TranslateReassignment(e: Expr, scope: Scope, asm: string): Result<(string, Scope), CompileError>
    requires e.Reassignment?
    decreases e, 0
  {
    if e.value.LiteralInt? then
      var address :- Lookup(scope, e.identifier);
      Ok((asm + PushText(e.value.number) + "smv " + address + "\n", scope))
    else if e.value.Arithmetic? then
      var r :- TranslateExpr(e.value, scope, asm);
      var address :- Lookup(r.1, e.identifier);
      Ok((r.0 + "smv " + address + "\n", r.1))
    else
      Ok((asm, scope))
  }

  /** `binaryOperation`: operand `a`, then operand `b`, then the operation. */
  function BinaryOperation(e: Expr, scope: Scope, asm: string): Result<(string, Scope), CompileError>
    requires e.Arithmetic?
    decreases e, 0
  {
    var ra :- Operand(e.a, scope, asm);
    var rb :- Operand(e.b, ra.1, ra.0);
    Ok((rb.0 + Mnemonic(e.op) + "\n", rb.1))
  }

  /** One operand of `binaryOperation`: a literal is pushed, a stack variable is copied
      from its slot, anything else is translated as an expression. */
  function Operand(x: Expr, scope: Scope, asm: string): Result<(string, Scope), CompileError>
    decreases x, 2
  {
    if x.LiteralInt? then
      Ok((asm + PushText(x.number), scope))
    else if x.StackVariable? then
      var address :- Lookup(scope, x.name);
      Ok((asm + "cps " + address + "\n", scope))
    else
      TranslateExpr(x, scope, asm)
  }

  /** The statements of a function, in order, sharing one scope. */
  function TranslateBody(body: seq<Expr>, scope: Scope, asm: string): Result<(string, Scope), CompileError>
    decreases body, 0
  {
    if |body| == 0 then Ok((asm, scope))
    else
      var r :- TranslateExpr(body[0], scope, asm);
      TranslateBody(body[1..], r.1, r.0)
  }

  // ---------------------------------------------------------------- the text only grows

  /** The result of translating after `asm` instead of after the empty text. */
  function After(asm: string, r: Result<(string, Scope), CompileError>): Result<(string, Scope), CompileError>
  {
    if r.Ok? then Ok((asm + r.value.0, r.value.1)) else r
  }

  /** Translation appends to the text it is given and never reads it: translating after
      `asm` is translating after nothing with `asm` put in front. */
  lemma {:induction false} ExprAppends(e: Expr, scope: Scope, asm: string)
    ensures TranslateExpr(e, scope, asm) == After(asm, TranslateExpr(e, scope, ""))
    decreases e, 1
  {
    match e
    case Function(_, _, _) => FunctionAppends(e, scope, asm);
    case Assignment(_, _) => AssignmentAppends(e, scope, asm);
    case Reassignment(_, _) => ReassignmentAppends(e, scope, asm);
    case Arithmetic(_, _, _) => ArithmeticAppends(e, scope, asm);
    case LiteralInt(_) =>
    case StackVariable(_) =>
    case Bracketed(_) =>
    case Identifier(_) =>
  }

  lemma {:induction false} FunctionAppends(e: Expr, scope: Scope, asm: string)
    requires e.Function?
    ensures TranslateExpr(e, scope, asm) == After(asm, TranslateExpr(e, scope, ""))
    decreases e, 0
  {
    var args := FromArguments(e.args);
    BodyAppends(e.body, args, asm + e.name + ":\n");
    BodyAppends(e.body, args, "" + e.name + ":\n");
    assert asm + e.name + ":\n" == asm + ("" + e.name + ":\n");
    var r := TranslateBody(e.body, args, "");
    if r.Ok? {
      var head := e.name + ":\n";
      assert "" + e.name + ":\n" == head && asm + e.name + ":\n" == asm + head;
      assert asm + head + r.value.0 + "ret\n\n" == asm + (head + r.value.0 + "ret\n\n");
    }
  }

  lemma {:induction false} AssignmentAppends(e: Expr, scope: Scope, asm: string)
    requires e.Assignment?
    ensures TranslateExpr(e, scope, asm) == After(asm, TranslateExpr(e, scope, ""))
    decreases e, 0
  {
    if e.value.LiteralInt? {
      assert asm + PushText(e.value.number) == asm + ("" + PushText(e.value.number));
    } else if e.value.Arithmetic? {
      ExprAppends(e.value, scope, asm);
    } else {
      assert asm + "" == asm;
    }
  }

  lemma {:induction false} ReassignmentAppends(e: Expr, scope: Scope, asm: string)
    requires e.Reassignment?
    ensures TranslateExpr(e, scope, asm) == After(asm, TranslateExpr(e, scope, ""))
    decreases e, 0
  {
    var value := e.value;
    if value.LiteralInt? {
      var a := Lookup(scope, e.identifier);
      if a.Ok? {
        assert asm + PushText(value.number) + "smv " + a.value + "\n"
          == asm + ("" + PushText(value.number) + "smv " + a.value + "\n");
      }
    } else if value.Arithmetic? {
      ExprAppends(value, scope, asm);
      var r := TranslateExpr(value, scope, "");
      if r.Ok? && Lookup(r.value.1, e.identifier).Ok? {
        var a := Lookup(r.value.1, e.identifier).value;
        assert asm + r.value.0 + "smv " + a + "\n" == asm + (r.value.0 + "smv " + a + "\n");
      }
    } else {
      assert asm + "" == asm;
    }
  }

  lemma {:induction false} ArithmeticAppends(e: Expr, scope: Scope, asm: string)
    requires e.Arithmetic?
    ensures BinaryOperation(e, scope, asm) == After(asm, BinaryOperation(e, scope, ""))
    decreases e, 0
  {
    OperandAppends(e.a, scope, asm);
    var ra := Operand(e.a, scope, "");
    if ra.Ok? {
      OperandAppends(e.b, ra.value.1, asm + ra.value.0);
      OperandAppends(e.b, ra.value.1, ra.value.0);
      var rb := Operand(e.b, ra.value.1, "");
      if rb.Ok? {
        assert asm + ra.value.0 + rb.value.0 + Mnemonic(e.op) + "\n"
          == asm + (ra.value.0 + rb.value.0 + Mnemonic(e.op) + "\n");
      }
    }
  }

  lemma {:induction false} OperandAppends(x: Expr, scope: Scope, asm: string)
    ensures Operand(x, scope, asm) == After(asm, Operand(x, scope, ""))
    decreases x, 2
  {
    if x.LiteralInt? {
      assert asm + PushText(x.number) == asm + ("" + PushText(x.number));
    } else if x.StackVariable? {
      var a := Lookup(scope, x.name);
      if a.Ok? {
        assert asm + "cps " + a.value + "\n" == asm + ("" + "cps " + a.value + "\n");
      }
    } else {
      ExprAppends(x, scope, asm);
    }
  }

  lemma {:induction false} BodyAppends(body: seq<Expr>, scope: Scope, asm: string)
    ensures TranslateBody(body, scope, asm) == After(asm, TranslateBody(body, scope, ""))
    decreases body, 0
  {
    if |body| == 0 {
      assert asm + "" == asm;
    } else {
      ExprAppends(body[0], scope, asm);
      var r := TranslateExpr(body[0], scope, "");
      if r.Ok? {
        BodyAppends(body[1..], r.value.1, asm + r.value.0);
        BodyAppends(body[1..], r.value.1, r.value.0);
        var rest := TranslateBody(body[1..], r.value.1, "");
        if rest.Ok? {
          assert asm + r.value.0 + rest.value.0 == asm + (r.value.0 + rest.value.0);
        }
      }
    }
  }

  // ---------------------------------------------------------------- the shape of each construct

  /** A function's text is its label, its statements' text in its own scope, and `ret`
      followed by a blank line; the caller's scope is neither read nor changed. */
  lemma FunctionShape(name: string, args: seq<string>, body: seq<Expr>, scope: Scope, asm: string)
    ensures var r := TranslateExpr(Function(name, args, body), scope, asm);
      var inner := TranslateBody(body, FromArguments(args), "");
      && (r.Ok? <==> inner.Ok?)
      && (r.Ok? ==> r.value == (asm + name + ":\n" + inner.value.0 + "ret\n\n", scope))
      && (r.Err? ==> r.error == inner.error)
  {
    BodyAppends(body, FromArguments(args), asm + name + ":\n");
  }

  /** Whatever scope surrounds it, a function translates to the same text. */
  lemma FunctionOwnScope(f: Expr, s1: Scope, s2: Scope, asm: string)
    requires f.Function?
    ensures TranslateExpr(f, s1, asm).Ok? <==> TranslateExpr(f, s2, asm).Ok?
    ensures TranslateExpr(f, s1, asm).Ok? ==> TranslateExpr(f, s1, asm).value.0 == TranslateExpr(f, s2, asm).value.0
  {
    FunctionShape(f.name, f.args, f.body, s1, asm);
    FunctionShape(f.name, f.args, f.body, s2, asm);
  }

  /** The statements of a body are translated one after the other, each in the scope the
      previous ones left. */
  lemma BodyConcatenates(first: Expr, rest: seq<Expr>, scope: Scope)
    ensures var r := TranslateExpr(first, scope, "");
      && (r.Err? ==> TranslateBody([first] + rest, scope, "") == Err(r.error))
      && (r.Ok? ==>
            TranslateBody([first] + rest, scope, "") == After(r.value.0, TranslateBody(rest, r.value.1, "")))
  {
    var r := TranslateExpr(first, scope, "");
    assert ([first] + rest)[0] == first && ([first] + rest)[1..] == rest;
    if r.Ok? {
      BodyAppends(rest, r.value.1, r.value.0);
    }
  }

  /** An assignment from a literal pushes it and then gives the name the next slot; from an
      arithmetic expression it emits that expression's code and then gives the name the next
      slot after any the expression took; from anything else it does nothing. */
  lemma AssignmentShape(identifier: string, value: Expr, scope: Scope, asm: string)
    requires WellFormed(scope)
    ensures var r := TranslateExpr(Assignment(identifier, value), scope, asm);
      && (value.LiteralInt? ==>
            && r == Ok((asm + PushText(value.number), AddVariable(scope, identifier, LiteralVar)))
            && r.value.1.vars[identifier].addressValue == scope.address + 2)
      && (value.Arithmetic? ==>
            var v := TranslateExpr(value, scope, asm);
            && (r.Ok? <==> v.Ok?)
            && (r.Ok? ==>
                  r.value.0 == v.value.0 && identifier in r.value.1.vars && r.value.1.vars[identifier].addressValue == v.value.1.address + 2))
      && (!value.LiteralInt? && !value.Arithmetic? ==> r == Ok((asm, scope)))
  {
    AddVariableFresh(scope, identifier, LiteralVar);
  }

  /** A reassignment emits the value's code and then `smv` with the name's slot; a name
      without a slot is an error. */
  lemma ReassignmentShape(identifier: string, value: Expr, scope: Scope, asm: string)
    ensures var r := TranslateExpr(Reassignment(identifier, value), scope, asm);
      && (value.LiteralInt? ==>
            && (r.Ok? <==> identifier in scope.vars)
            && (r.Err? ==> r.error == UnknownVariable(identifier))
            && (r.Ok? ==> r == Ok((asm + PushText(value.number) + "smv " + scope.vars[identifier].hexAddress + "\n", scope))))
      && (value.Arithmetic? ==>
            var v := TranslateExpr(value, scope, asm);
            && (v.Err? ==> r == Err(v.error))
            && (v.Ok? ==>
                  && (r.Ok? <==> identifier in v.value.1.vars)
                  && (r.Err? ==> r.error == UnknownVariable(identifier))
                  && (r.Ok? ==> r == Ok((v.value.0 + "smv " + v.value.1.vars[identifier].hexAddress + "\n", v.value.1)))))
      && (!value.LiteralInt? && !value.Arithmetic? ==> r == Ok((asm, scope)))
  {
  }

  /** A binary operation emits operand `a`'s code, then operand `b`'s code, then the
      operation; the first failure is the one reported. */
  lemma OperandOrder(op: ArithOp, a: Expr, b: Expr, scope: Scope)
    ensures var r := TranslateExpr(Arithmetic(op, a, b), scope, "");
      var ra := Operand(a, scope, "");
      && (ra.Err? ==> r == Err(ra.error))
      && (ra.Ok? ==>
            var rb := Operand(b, ra.value.1, "");
            && (rb.Err? ==> r == Err(rb.error))
            && (rb.Ok? ==> r == Ok((ra.value.0 + rb.value.0 + Mnemonic(op) + "\n", rb.value.1))))
  {
    var ra := Operand(a, scope, "");
    if ra.Ok? {
      OperandAppends(b, ra.value.1, ra.value.0);
    }
  }

  /** Only functions, assignments, reassignments and arithmetic are statements or
      expressions: anything else met there fails, and so does a bracketed operand. */
  lemma UnrecognisedRejected(e: Expr, scope: Scope, asm: string)
    ensures TranslateExpr(e, scope, asm).Err? && TranslateExpr(e, scope, asm).error == Unrecognised
      <== e.LiteralInt? || e.StackVariable? || e.Bracketed? || e.Identifier?
    ensures e.Bracketed? ==> Operand(e, scope, asm) == Err(Unrecognised)
    ensures e.Bracketed? ==> forall op, other :: TranslateExpr(Arithmetic(op, e, other), scope, asm) == Err(Unrecognised)
  {
  }
}
