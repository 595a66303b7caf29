/** Compilation preserves meaning, construct by construct. */
module CompileCorrect {
  // By induction on the fuel and the syntax tree, one lemma per construct.

  import opened Options
  import opened Bytecode
  import opened CodeGen
  import opened Scopes
  import opened Machine
  import opened SimulationSteps
  import opened Constructs

  // ---------------------------------------------------------------- the induction

  /** The code of e, placed in any program, does what evaluating e does, and pushes exactly one value. */
  lemma {:induction false} SimExpr(p: Program, e: Expr, base: nat, t: Tables, env: Env, fuel: nat)
    requires Linked(p.tables, e, base, t)
    ensures Simulates(p, base, GenExpr(e, base, t).code, env, Eval(e, env, fuel), true, fuel)
    decreases fuel, e, 1
  {
    if !IsNode(e) { SimLeaf(p, e, base, t, env, fuel); }
    else if e.Infix? { SimInfix(p, e, base, t, env, fuel); }
    else if e.And? || e.Or? { SimLogical(p, e, base, t, env, fuel); }
    else if e.Not? || e.Minus? { SimUnary(p, e, base, t, env, fuel); }
    else if e.Ternary? { SimTernary(p, e, base, t, env, fuel); }
    else if e.If? { SimIf(p, e, base, t, env, fuel); }
    else if e.Assign? { SimAssign(p, e, base, t, env, fuel); }
    else if e.OpAssign? { SimOpAssign(p, e, base, t, env, fuel); }
    else if e.LogicalAssign? { SimLogicalAssign(p, e, base, t, env, fuel); }
    else { SimWhile(p, e, base, t, env, fuel); }
  }

  lemma {:induction false} SimLeaf(p: Program, e: Expr, base: nat, t: Tables, env: Env, fuel: nat)
    requires !IsNode(e) && Linked(p.tables, e, base, t)
    ensures Simulates(p, base, GenExpr(e, base, t).code, env, Eval(e, env, fuel), true, fuel)
  {
    match e
    case Int(v) =>
      SameConstant(v, WithConstant(t, v), p.tables);
      PushSim(p, base, Constant(IndexOf(WithConstant(t, v).pool, v)), env, IntV(v), fuel);
    case True => PushSim(p, base, PushTrue, env, BoolV(true), fuel);
    case False => PushSim(p, base, PushFalse, env, BoolV(false), fuel);
    case Nil => PushSim(p, base, PushNil, env, NilV, fuel);
    case Var(name) =>
      SameSlot(name, t, p.tables);
      LoadSim(p, base, name, env, fuel);
  }

  lemma {:induction false} SimInfix(p: Program, e: Expr, base: nat, t: Tables, env: Env, fuel: nat)
    requires e.Infix? && Linked(p.tables, e, base, t)
    ensures Simulates(p, base, GenExpr(e, base, t).code, env, Eval(e, env, fuel), true, fuel)
    decreases fuel, e, 0
  {
    hide Extends, Names, Simulates, Size;
    NodeUnfolds(e, base, t);
    EvalUnfolds(e, env, fuel);
    hide GenExpr, Eval;
    var x := GenExpr(e.left, base, t);
    var q := base + Size(x.code);
    var y := GenExpr(e.right, q, x.tables);
    PairLinked(p.tables, e, base, t);
    var o := Eval(e.left, env, fuel);
    var o2 := o;
    SimExpr(p, e.left, base, t, env, fuel);
    if o.Finished? {
      o2 := Eval(e.right, o.env, fuel);
      SimExpr(p, e.right, q, x.tables, o.env, fuel);
    }
    InfixSim(p, base, x.code, y.code, e.op, env, o, o2, fuel);
  }

  lemma {:induction false} SimLogical(p: Program, e: Expr, base: nat, t: Tables, env: Env, fuel: nat)
    requires (e.And? || e.Or?) && Linked(p.tables, e, base, t)
    ensures Simulates(p, base, GenExpr(e, base, t).code, env, Eval(e, env, fuel), true, fuel)
    decreases fuel, e, 0
  {
    hide Extends, Names, Simulates, Size;
    NodeUnfolds(e, base, t);
    EvalUnfolds(e, env, fuel);
    hide GenExpr, Eval;
    var x := GenExpr(e.left, base, t);
    var q := base + Size(x.code) + 5;
    var y := GenExpr(e.right, q, x.tables);
    PairLinked(p.tables, e, base, t);
    var o := Eval(e.left, env, fuel);
    var o2 := o;
    SimExpr(p, e.left, base, t, env, fuel);
    if o.Finished? {
      o2 := Eval(e.right, o.env, fuel);
      SimExpr(p, e.right, q, x.tables, o.env, fuel);
    }
    LogicalSim(p, base, x.code, e.Or?, y.code, env, o, o2, fuel);
  }

  lemma {:induction false} SimUnary(p: Program, e: Expr, base: nat, t: Tables, env: Env, fuel: nat)
    requires (e.Not? || e.Minus?) && Linked(p.tables, e, base, t)
    ensures Simulates(p, base, GenExpr(e, base, t).code, env, Eval(e, env, fuel), true, fuel)
    decreases fuel, e, 0
  {
    NodeUnfolds(e, base, t);
    EvalUnfolds(e, env, fuel);
    hide GenExpr, Eval;
    SimExpr(p, e.operand, base, t, env, fuel);
    UnarySim(p, base, GenExpr(e.operand, base, t).code, e.Not?, env, Eval(e.operand, env, fuel), fuel);
  }

  lemma {:induction false} SimTernary(p: Program, e: Expr, base: nat, t: Tables, env: Env, fuel: nat)
    requires e.Ternary? && Linked(p.tables, e, base, t)
    ensures Simulates(p, base, GenExpr(e, base, t).code, env, Eval(e, env, fuel), true, fuel)
    decreases fuel, e, 0
  {
    hide Extends, Names, Simulates, Size;
    NodeUnfolds(e, base, t);
    EvalUnfolds(e, env, fuel);
    hide GenExpr, Eval;
    var x := GenExpr(e.cond, base, t);
    var q1 := base + Size(x.code) + 3;
    var y := GenExpr(e.thn, q1, x.tables);
    var q2 := base + Size(x.code) + Size(y.code) + 6;
    var z := GenExpr(e.els, q2, y.tables);
    TernaryLinked(p.tables, e, base, t);
    var o := Eval(e.cond, env, fuel);
    var o2, o3 := o, o;
    SimExpr(p, e.cond, base, t, env, fuel);
    if o.Finished? {
      o2, o3 := Eval(e.thn, o.env, fuel), Eval(e.els, o.env, fuel);
      SimExpr(p, e.thn, q1, x.tables, o.env, fuel);
      SimExpr(p, e.els, q2, y.tables, o.env, fuel);
    }
    BranchSim(p, base, x.code, false, y.code, q2 + Size(z.code), z.code, env, o, o2, o3, fuel);
  }

  lemma {:induction false} SimIf(p: Program, e: Expr, base: nat, t: Tables, env: Env, fuel: nat)
    requires e.If? && Linked(p.tables, e, base, t)
    ensures Simulates(p, base, GenExpr(e, base, t).code, env, Eval(e, env, fuel), true, fuel)
    decreases fuel, e, 0
  {
    hide Extends, Names, Simulates, Size;
    NodeUnfolds(e, base, t);
    EvalUnfolds(e, env, fuel);
    hide GenExpr, Eval;
    var x := GenExpr(e.cond, base, t);
    var q1 := base + Size(x.code) + 3;
    var y := GenValue(e.body, q1, x.tables);
    var q2 := base + Size(x.code) + Size(y.code) + 6;
    var end := q2 + Size(GenChain(e.rest, q2, y.tables, 0).code);
    var z := GenChain(e.rest, q2, y.tables, end);
    ChainTarget(e.rest, q2, y.tables, 0, end);
    IfLinked(p.tables, e, base, t, end);
    var o := Eval(e.cond, env, fuel);
    var o2, o3 := o, o;
    SimExpr(p, e.cond, base, t, env, fuel);
    if o.Finished? {
      o2, o3 := EvalBlock(e.body, o.env, fuel), EvalChain(e.rest, o.env, fuel);
      SimValue(p, e.body, q1, x.tables, o.env, fuel);
      SimChain(p, e.rest, q2, y.tables, end, o.env, fuel);
    }
    BranchSim(p, base, x.code, e.unless, y.code, end, z.code, env, o, o2, o3, fuel);
  }

  lemma {:induction false} SimAssign(p: Program, e: Expr, base: nat, t: Tables, env: Env, fuel: nat)
    requires e.Assign? && Linked(p.tables, e, base, t)
    ensures Simulates(p, base, GenExpr(e, base, t).code, env, Eval(e, env, fuel), true, fuel)
    decreases fuel, e, 0
  {
    NodeUnfolds(e, base, t);
    EvalUnfolds(e, env, fuel);
    hide GenExpr, Eval;
    DefinedSlot(p.tables, e.value, base, t, e.name);
    SimExpr(p, e.value, base, WithLocal(t, e.name), env, fuel);
    AssignSim(p, base, GenExpr(e.value, base, WithLocal(t, e.name)).code, e.name, env, Eval(e.value, env, fuel), fuel);
  }

  lemma {:induction false} SimOpAssign(p: Program, e: Expr, base: nat, t: Tables, env: Env, fuel: nat)
    requires e.OpAssign? && Linked(p.tables, e, base, t)
    ensures Simulates(p, base, GenExpr(e, base, t).code, env, Eval(e, env, fuel), true, fuel)
    decreases fuel, e, 0
  {
    hide Extends, Names, Simulates, Size;
    NodeUnfolds(e, base, t);
    EvalUnfolds(e, env, fuel);
    hide GenExpr, Eval;
    DefinedSlot(p.tables, e.value, base + 2, t, e.name);
    SimExpr(p, e.value, base + 2, WithLocal(t, e.name), env, fuel);
    OpAssignSim(p, base, GenExpr(e.value, base + 2, WithLocal(t, e.name)).code, e.op, e.name, env, Eval(e.value, env, fuel), fuel);
  }

  lemma {:induction false} SimLogicalAssign(p: Program, e: Expr, base: nat, t: Tables, env: Env, fuel: nat)
    requires e.LogicalAssign? && Linked(p.tables, e, base, t)
    ensures Simulates(p, base, GenExpr(e, base, t).code, env, Eval(e, env, fuel), true, fuel)
    decreases fuel, e, 0
  {
    hide Extends, Names, Simulates, Size;
    NodeUnfolds(e, base, t);
    EvalUnfolds(e, env, fuel);
    hide GenExpr, Eval;
    DefinedSlot(p.tables, e.value, base + 7, t, e.name);
    SimExpr(p, e.value, base + 7, WithLocal(t, e.name), env, fuel);
    LogicalAssignSim(p, base, GenExpr(e.value, base + 7, WithLocal(t, e.name)).code, e.isOr, e.name, env, Eval(e.value, env, fuel), fuel);
  }

  lemma {:induction false} SimWhile(p: Program, e: Expr, base: nat, t: Tables, env: Env, fuel: nat)
    requires e.While? && Linked(p.tables, e, base, t)
    ensures Simulates(p, base, GenExpr(e, base, t).code, env, Eval(e, env, fuel), true, fuel)
    decreases fuel, e, 0
  {
    NodeUnfolds(e, base, t);
    EvalUnfolds(e, env, fuel);
    hide GenExpr, Eval;
    var x := GenExpr(e.cond, base, t);
    var q := base + Size(x.code) + 6;
    var y := GenBlock(e.body, q, x.tables);
    WhileLinked(p.tables, e, base, t);
    var o := Eval(e.cond, env, fuel);
    var o2, again := o, o;
    SimExpr(p, e.cond, base, t, env, fuel);
    if o.Finished? {
      o2 := EvalBlock(e.body, o.env, fuel);
      SimBlock(p, e.body, q, x.tables, o.env, fuel);
      if o2.Finished? && fuel > 0 {
        again := Eval(e, o2.env, fuel - 1);
        SimExpr(p, e, base, t, o2.env, fuel - 1);
      }
    }
    LoopSim(p, base, x.code, y.code, env, o, o2, again, fuel);
  }

  /** The outcome of a block as its first statement and the rest, except for the value of a last statement. */
  lemma {:induction false} BlockOutcome(b: Block, env: Env, fuel: nat)
    requires b.Stmt?
    ensures var o, r := Eval(b.first, env, fuel), EvalBlock(b, env, fuel);
            && (!o.Finished? ==> r == o)
            && (o.Finished? && b.rest.Stmt? ==> r == EvalBlock(b.rest, o.env, fuel))
            && (o.Finished? && b.rest.Empty? ==> r == o && EvalBlock(b.rest, o.env, fuel) == Finished(NilV, o.env))
  {
    if b.rest.Stmt? { assert EvalBlock(b, env, fuel) == EvalStatement(b, env, fuel); }
  }

  /** Without a pushed value, only the environment of a finished outcome matters. */
  lemma {:induction false} AnyValue(p: Program, base: nat, c: Code, env: Env, o: Outcome, v: Value, fuel: nat)
    requires o.Finished? && Simulates(p, base, c, env, o, false, fuel)
    ensures Simulates(p, base, c, env, Finished(v, o.env), false, fuel)
  {
    forall s: State | Ready(p, base, c, s, env)
      ensures exists n: nat :: Completes(p, s, n, Finished(v, o.env), base, c, false, fuel)
    {
      var n := Follow(p, base, c, env, o, false, fuel, s);
      assert Completes(p, s, n, Finished(v, o.env), base, c, false, fuel);
    }
  }

  /** Statements leave the stack as it was. */
  lemma {:induction false} SimBlock(p: Program, b: Block, base: nat, t: Tables, env: Env, fuel: nat)
    requires LinkedBlock(p.tables, b, base, t)
    ensures Simulates(p, base, GenBlock(b, base, t).code, env, EvalBlock(b, env, fuel), false, fuel)
    decreases fuel, b
  {
    if b.Empty? {
      EmptySim(p, base, env, NilV, fuel);
    } else {
      assert GenBlock(b, base, t) == GenStatement(b, base, t);
      BlockOutcome(b, env, fuel);
      var x := GenExpr(b.first, base, t);
      var q := base + Size(x.code) + 1;
      BlockLinked(p.tables, b, base, t);
      var o := Eval(b.first, env, fuel);
      var o2 := o;
      SimExpr(p, b.first, base, t, env, fuel);
      if o.Finished? {
        o2 := EvalBlock(b.rest, o.env, fuel);
        SimBlock(p, b.rest, q, x.tables, o.env, fuel);
        if b.rest.Empty? {
          AnyValue(p, q, GenBlock(b.rest, q, x.tables).code, o.env, o2, o.v, fuel);
          o2 := o;
        }
      }
      StatementSim(p, base, x.code, GenBlock(b.rest, q, x.tables).code, env, o, o2, false, fuel);
    }
  }

  /** A block compiled as a value pushes exactly the value of its last statement. */
  lemma {:induction false} SimValue(p: Program, b: Block, base: nat, t: Tables, env: Env, fuel: nat)
    requires LinkedValue(p.tables, b, base, t)
    ensures Simulates(p, base, GenValue(b, base, t).code, env, EvalBlock(b, env, fuel), true, fuel)
    decreases fuel, b
  {
    hide Extends, Names, Simulates, Size;
    if b.Empty? {
      PushSim(p, base, PushNil, env, NilV, fuel);
    } else if b.rest.Empty? {
      SimExpr(p, b.first, base, t, env, fuel);
    } else {
      assert GenValue(b, base, t) == GenValueStatement(b, base, t);
      BlockOutcome(b, env, fuel);
      var x := GenExpr(b.first, base, t);
      var q := base + Size(x.code) + 1;
      ValueLinked(p.tables, b, base, t);
      var o := Eval(b.first, env, fuel);
      var o2 := o;
      SimExpr(p, b.first, base, t, env, fuel);
      if o.Finished? {
        o2 := EvalBlock(b.rest, o.env, fuel);
        SimValue(p, b.rest, q, x.tables, o.env, fuel);
      }
      StatementSim(p, base, x.code, GenValue(b.rest, q, x.tables).code, env, o, o2, true, fuel);
    }
  }

  /** The elsif and else branches, with every taken branch jumping to the common end. */
  lemma {:induction false} SimChain(p: Program, c: Chain, base: nat, t: Tables, end: nat, env: Env, fuel: nat)
    requires LinkedChain(p.tables, c, base, t, end) && end == base + Size(GenChain(c, base, t, end).code)
    ensures Simulates(p, base, GenChain(c, base, t, end).code, env, EvalChain(c, env, fuel), true, fuel)
    decreases fuel, c, 1
  {
    match c
    case NoElse => PushSim(p, base, PushNil, env, NilV, fuel);
    case Else(b) => SimValue(p, b, base, t, env, fuel);
    case ElsIf(_, _, _) => SimElsIf(p, c, base, t, end, env, fuel);
  }

  /** The code of one elsif arm, and its outcome. */
  lemma {:induction false} ElsIfUnfolds(c: Chain, base: nat, t: Tables, end: nat, env: Env, fuel: nat)
    requires c.ElsIf?
    ensures var x := GenExpr(c.cond, base, t);
            var y := GenValue(c.body, base + Size(x.code) + 3, x.tables);
            var q := base + Size(x.code) + Size(y.code) + 6;
            var z, g := GenChain(c.rest, q, y.tables, end), GenChain(c, base, t, end);
            g.code == Cat(x.code, Branch(false, q, y.code, end, z.code)) && base + Size(g.code) == q + Size(z.code)
    ensures var o := Eval(c.cond, env, fuel);
            EvalChain(c, env, fuel) == if !o.Finished? then o
                                       else if Truthy(o.v) then EvalBlock(c.body, o.env, fuel) else EvalChain(c.rest, o.env, fuel)
  {
    assert GenChain(c, base, t, end) == GenElsIf(c, base, t, end);
    assert EvalChain(c, env, fuel) == EvalElsIf(c, env, fuel);
    var x := GenExpr(c.cond, base, t);
    var y := GenValue(c.body, base + Size(x.code) + 3, x.tables);
    var q := base + Size(x.code) + Size(y.code) + 6;
    BranchSize(false, q, y.code, end, GenChain(c.rest, q, y.tables, end).code);
  }

  lemma {:induction false} SimElsIf(p: Program, c: Chain, base: nat, t: Tables, end: nat, env: Env, fuel: nat)
    requires c.ElsIf? && LinkedChain(p.tables, c, base, t, end) && end == base + Size(GenChain(c, base, t, end).code)
    ensures Simulates(p, base, GenChain(c, base, t, end).code, env, EvalChain(c, env, fuel), true, fuel)
    decreases fuel, c, 0
  {
    ElsIfUnfolds(c, base, t, end, env, fuel);
    ElsIfLinked(p.tables, c, base, t, end);
    hide Extends, Names, Simulates, Size, GenExpr, GenValue, GenChain, Eval, EvalBlock, EvalChain;
    var x := GenExpr(c.cond, base, t);
    var q1 := base + Size(x.code) + 3;
    var y := GenValue(c.body, q1, x.tables);
    var q2 := base + Size(x.code) + Size(y.code) + 6;
    var z := GenChain(c.rest, q2, y.tables, end);
    var o := Eval(c.cond, env, fuel);
    var o2, o3 := o, o;
    SimExpr(p, c.cond, base, t, env, fuel);
    if o.Finished? {
      o2, o3 := EvalBlock(c.body, o.env, fuel), EvalChain(c.rest, o.env, fuel);
      SimValue(p, c.body, q1, x.tables, o.env, fuel);
      SimChain(p, c.rest, q2, y.tables, end, o.env, fuel);
    }
    BranchSim(p, base, x.code, false, y.code, end, z.code, env, o, o2, o3, fuel);
  }
}
