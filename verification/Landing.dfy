/** Every jump of compiled code lands on the start of an instruction or on the end of the code, and every slot and
    constant index is within the tables. */
module Landing {
  import opened Bytecode
  import opened CodeGen
  import opened Scopes

  /** The positions at which instructions start. */
  function Starts(c: Code, base: nat): set<nat> {
    match c
    case Nop => {}
    case One(_) => {base}
    case Cat(a, b) => Starts(a, base) + Starts(b, base + Size(a))
  }

  predicate IsJump(i: Instr) {
    i.Jump? || i.JumpNotTruthy? || i.JumpTruthy? || i.SetWhileEnd?
  }

  predicate InstrFine(i: Instr, targets: set<nat>, t: Tables) {
    && (IsJump(i) ==> i.target in targets)
    && (i.GetLocal? || i.SetLocal? ==> i.slot < |t.names|)
    && (i.Constant? ==> i.index < |t.pool|)
  }

  predicate Fine(c: Code, targets: set<nat>, t: Tables) {
    match c
    case Nop => true
    case One(i) => InstrFine(i, targets, t)
    case Cat(a, b) => Fine(a, targets, t) && Fine(b, targets, t)
  }

  /** Jumps stay inside the code, except for the given targets outside. */
  predicate Closed(c: Code, base: nat, outside: set<nat>, t: Tables) {
    Fine(c, Starts(c, base) + {base + Size(c)} + outside, t)
  }

  lemma {:induction false} FineMore(c: Code, a: set<nat>, b: set<nat>, t: Tables)
    requires Fine(c, a, t) && a <= b
    ensures Fine(c, b, t)
    decreases c
  {
    if c.Cat? { FineMore(c.a, a, b, t); FineMore(c.b, a, b, t); }
  }

  lemma {:induction false} StartsWithin(c: Code, base: nat, s: nat)
    requires s in Starts(c, base)
    ensures base <= s < base + Size(c)
    decreases c
  {
    if c.Cat? {
      if s in Starts(c.a, base) { StartsWithin(c.a, base, s); } else { StartsWithin(c.b, base + Size(c.a), s); }
    }
  }

  /** The first instruction starts at the base. */
  lemma {:induction false} HeadStart(c: Code, base: nat)
    ensures base in Starts(c, base) + {base + Size(c)}
    decreases c
  {
    if c.Cat? { HeadStart(c.a, base); HeadStart(c.b, base + Size(c.a)); }
  }

  lemma {:induction false} ClosedMore(c: Code, base: nat, few: set<nat>, many: set<nat>, t: Tables)
    requires Closed(c, base, few, t) && few <= many
    ensures Closed(c, base, many, t)
  {
    FineMore(c, Starts(c, base) + {base + Size(c)} + few, Starts(c, base) + {base + Size(c)} + many, t);
  }

  lemma {:induction false} ClosedCat(x: Code, y: Code, base: nat, outside: set<nat>, t: Tables)
    requires Closed(x, base, outside, t) && Closed(y, base + Size(x), outside, t)
    ensures Closed(Cat(x, y), base, outside, t)
  {
    var all := Starts(Cat(x, y), base) + {base + Size(Cat(x, y))} + outside;
    HeadStart(y, base + Size(x));
    FineMore(x, Starts(x, base) + {base + Size(x)} + outside, all, t);
    FineMore(y, Starts(y, base + Size(x)) + {base + Size(x) + Size(y)} + outside, all, t);
  }

  lemma {:induction false} ClosedEmit(i: Instr, y: Code, base: nat, outside: set<nat>, t: Tables)
    requires InstrFine(i, outside, t) && Closed(y, base + Width(i), outside, t)
    ensures Closed(Emit(i, y), base, outside, t)
  {
    ClosedCat(One(i), y, base, outside, t);
  }

  lemma {:induction false} ClosedLast(i: Instr, base: nat, outside: set<nat>, t: Tables)
    requires InstrFine(i, outside, t)
    ensures Closed(Last(i), base, outside, t)
  {
    ClosedEmit(i, Nop, base, outside, t);
  }

  /** Targets that turn out to lie inside are no longer outside. */
  lemma {:induction false} Discharge(c: Code, base: nat, inside: set<nat>, outside: set<nat>, t: Tables)
    requires Closed(c, base, inside + outside, t) && inside <= Starts(c, base) + {base + Size(c)}
    ensures Closed(c, base, outside, t)
  {
    assert Starts(c, base) + {base + Size(c)} + (inside + outside) == Starts(c, base) + {base + Size(c)} + outside;
  }

  // ---------------------------------------------------------------- emission patterns

  lemma {:induction false} ClosedBranch(x: Code, onTrue: bool, y: Code, end: nat, z: Code, base: nat, outside: set<nat>, t: Tables)
    requires Closed(x, base, {}, t) && Closed(y, base + Size(x) + 3, {}, t) && Closed(z, base + Size(x) + Size(y) + 6, outside, t)
    requires end in outside
    ensures Closed(Cat(x, Branch(onTrue, base + Size(x) + Size(y) + 6, y, end, z)), base, outside, t)
  {
    hide Closed, Starts, Size;
    var q := base + Size(x);
    var q2 := q + Size(y) + 6;
    var all := {q2} + outside;
    ClosedMore(x, base, {}, all, t);
    ClosedMore(y, q + 3, {}, all, t);
    ClosedMore(z, q2, outside, all, t);
    ClosedEmit(Jump(end), z, q + 3 + Size(y), all, t);
    ClosedCat(y, Emit(Jump(end), z), q + 3, all, t);
    ClosedEmit(BranchOp(onTrue, q2), Cat(y, Emit(Jump(end), z)), q, all, t);
    var c := Cat(x, Branch(onTrue, q2, y, end, z));
    ClosedCat(x, Branch(onTrue, q2, y, end, z), base, all, t);
    BranchStarts(x, onTrue, y, end, z, base);
    Discharge(c, base, {q2}, outside, t);
  }

  lemma {:induction false} BranchStarts(x: Code, onTrue: bool, y: Code, end: nat, z: Code, base: nat)
    ensures var q2 := base + Size(x) + Size(y) + 6;
            var c := Cat(x, Branch(onTrue, q2, y, end, z));
            q2 in Starts(c, base) + {base + Size(c)} && Size(c) == Size(x) + Size(y) + 6 + Size(z)
  {
    var q := base + Size(x);
    var q2 := q + Size(y) + 6;
    BranchSize(onTrue, q2, y, end, z);
    HeadStart(z, q2);
    SizeEmit(Jump(end), z);
    var w := Emit(Jump(end), z);
    assert Starts(w, q + 3 + Size(y)) == {q + 3 + Size(y)} + Starts(z, q2);
    assert Starts(Cat(y, w), q + 3) == Starts(y, q + 3) + Starts(w, q + 3 + Size(y));
    assert Starts(Branch(onTrue, q2, y, end, z), q) == {q} + Starts(Cat(y, w), q + 3);
  }

  lemma {:induction false} ClosedShortCircuit(onTrue: bool, y: Code, base: nat, end: nat, t: Tables)
    requires end == base + 5 + Size(y) && Closed(y, base + 5, {end}, t)
    ensures Closed(ShortCircuit(onTrue, end, y), base, {}, t)
  {
    hide Closed, Starts, Size;
    ShortCircuitSize(onTrue, end, y);
    ClosedEmit(Pop, y, base + 4, {end}, t);
    ClosedEmit(BranchOp(onTrue, end), Emit(Pop, y), base + 1, {end}, t);
    ClosedEmit(Dup, Emit(BranchOp(onTrue, end), Emit(Pop, y)), base, {end}, t);
    assert {end} + {} == {end};
    Discharge(ShortCircuit(onTrue, end, y), base, {end}, {}, t);
  }

  lemma {:induction false} ClosedLoop(x: Code, y: Code, base: nat, t: Tables)
    requires Closed(x, base, {}, t) && Closed(y, base + Size(x) + 6, {}, t)
    ensures Closed(Cat(x, Loop(base + Size(x) + 6 + Size(y) + 3, y, base)), base, {}, t)
  {
    hide Closed, Starts, Size;
    var q := base + Size(x);
    var exit := q + 6 + Size(y) + 3;
    var all := {base, exit};
    var tail := Emit(Jump(base), Last(PushNil));
    ClosedMore(x, base, {}, all, t);
    ClosedMore(y, q + 6, {}, all, t);
    ClosedLast(PushNil, exit, all, t);
    ClosedEmit(Jump(base), Last(PushNil), q + 6 + Size(y), all, t);
    ClosedCat(y, tail, q + 6, all, t);
    ClosedEmit(SetWhileEnd(exit), Cat(y, tail), q + 3, all, t);
    ClosedEmit(JumpNotTruthy(exit), Emit(SetWhileEnd(exit), Cat(y, tail)), q, all, t);
    ClosedCat(x, Loop(exit, y, base), base, all, t);
    LoopStarts(x, y, base);
    assert all + {} == all;
    Discharge(Cat(x, Loop(exit, y, base)), base, all, {}, t);
  }

  lemma {:induction false} LoopStarts(x: Code, y: Code, base: nat)
    ensures var exit := base + Size(x) + 6 + Size(y) + 3;
            var c := Cat(x, Loop(exit, y, base));
            {base, exit} <= Starts(c, base) + {base + Size(c)}
  {
    hide Starts, Size;
    var q := base + Size(x);
    var exit := q + 6 + Size(y) + 3;
    var c := Cat(x, Loop(exit, y, base));
    var tail := Emit(Jump(base), Last(PushNil));
    HeadStart(c, base);
    StartsEmit(PushNil, Nop, exit);
    StartsEmit(Jump(base), Last(PushNil), q + 6 + Size(y));
    StartsEmit(SetWhileEnd(exit), Cat(y, tail), q + 3);
    StartsEmit(JumpNotTruthy(exit), Emit(SetWhileEnd(exit), Cat(y, tail)), q);
    StartsCat(y, tail, q + 6);
    StartsCat(x, Loop(exit, y, base), base);
  }

  lemma {:induction false} StartsEmit(i: Instr, rest: Code, base: nat)
    ensures Starts(Emit(i, rest), base) == {base} + Starts(rest, base + Width(i))
  {
    assert Starts(One(i), base) == {base} && Size(One(i)) == Width(i);
  }

  lemma {:induction false} StartsCat(x: Code, y: Code, base: nat)
    ensures Starts(Cat(x, y), base) == Starts(x, base) + Starts(y, base + Size(x))
  {
  }

  lemma {:induction false} ClosedStatement(x: Code, y: Code, base: nat, outside: set<nat>, t: Tables)
    requires Closed(x, base, outside, t) && Closed(y, base + Size(x) + 1, outside, t)
    ensures Closed(Cat(x, Emit(Pop, y)), base, outside, t)
  {
    ClosedEmit(Pop, y, base + Size(x), outside, t);
    ClosedCat(x, Emit(Pop, y), base, outside, t);
  }

  // ---------------------------------------------------------------- the induction

  /** The code of an expression is closed. */
  lemma {:induction false} ExprLands(u: Tables, e: Expr, base: nat, t: Tables)
    requires Linked(u, e, base, t)
    ensures Closed(GenExpr(e, base, t).code, base, {}, u)
    decreases e, 1
  {
    hide Closed, Extends, Names, Size;
    if !IsNode(e) { LeafLands(u, e, base, t); }
    else if e.Infix? { InfixLands(u, e, base, t); }
    else if e.And? || e.Or? { LogicalLands(u, e, base, t); }
    else if e.Not? || e.Minus? { UnaryLands(u, e, base, t); }
    else if e.Ternary? { TernaryLands(u, e, base, t); }
    else if e.If? { IfLands(u, e, base, t); }
    else if e.Assign? { AssignLands(u, e, base, t); }
    else if e.OpAssign? { OpAssignLands(u, e, base, t); }
    else if e.LogicalAssign? { LogicalAssignLands(u, e, base, t); }
    else { WhileLands(u, e, base, t); }
  }

  lemma {:induction false} LeafLands(u: Tables, e: Expr, base: nat, t: Tables)
    requires !IsNode(e) && Linked(u, e, base, t)
    ensures Closed(GenExpr(e, base, t).code, base, {}, u)
  {
    match e
    case Int(v) =>
      SameConstant(v, WithConstant(t, v), u);
      ClosedLast(Constant(IndexOf(WithConstant(t, v).pool, v)), base, {}, u);
    case True => ClosedLast(PushTrue, base, {}, u);
    case False => ClosedLast(PushFalse, base, {}, u);
    case Nil => ClosedLast(PushNil, base, {}, u);
    case Var(name) =>
      SameSlot(name, t, u);
      ClosedLast(GetLocal(IndexOf(t.names, name)), base, {}, u);
  }

  lemma {:induction false} InfixLands(u: Tables, e: Expr, base: nat, t: Tables)
    requires e.Infix? && Linked(u, e, base, t)
    ensures Closed(GenExpr(e, base, t).code, base, {}, u)
    decreases e, 0
  {
    hide Closed, Extends, Names, Size;
    NodeUnfolds(e, base, t);
    hide GenExpr;
    PairLinked(u, e, base, t);
    var x := GenExpr(e.left, base, t);
    var y := GenExpr(e.right, base + Size(x.code), x.tables);
    ExprLands(u, e.left, base, t);
    ExprLands(u, e.right, base + Size(x.code), x.tables);
    ClosedLast(Binary(e.op), base + Size(x.code) + Size(y.code), {}, u);
    ClosedCat(y.code, Last(Binary(e.op)), base + Size(x.code), {}, u);
    ClosedCat(x.code, Cat(y.code, Last(Binary(e.op))), base, {}, u);
  }

  lemma {:induction false} LogicalLands(u: Tables, e: Expr, base: nat, t: Tables)
    requires (e.And? || e.Or?) && Linked(u, e, base, t)
    ensures Closed(GenExpr(e, base, t).code, base, {}, u)
    decreases e, 0
  {
    hide Closed, Extends, Names, Size;
    NodeUnfolds(e, base, t);
    hide GenExpr;
    PairLinked(u, e, base, t);
    var x := GenExpr(e.left, base, t);
    var q := base + Size(x.code) + 5;
    var y := GenExpr(e.right, q, x.tables);
    ExprLands(u, e.left, base, t);
    ExprLands(u, e.right, q, x.tables);
    ClosedMore(y.code, q, {}, {q + Size(y.code)}, u);
    ClosedShortCircuit(e.Or?, y.code, base + Size(x.code), q + Size(y.code), u);
    ClosedCat(x.code, ShortCircuit(e.Or?, q + Size(y.code), y.code), base, {}, u);
  }

  lemma {:induction false} UnaryLands(u: Tables, e: Expr, base: nat, t: Tables)
    requires (e.Not? || e.Minus?) && Linked(u, e, base, t)
    ensures Closed(GenExpr(e, base, t).code, base, {}, u)
    decreases e, 0
  {
    hide Closed, Extends, Names, Size;
    NodeUnfolds(e, base, t);
    hide GenExpr;
    var x, i := GenExpr(e.operand, base, t), if e.Not? then Bang else Negate;
    ExprLands(u, e.operand, base, t);
    ClosedLast(i, base + Size(x.code), {}, u);
    ClosedCat(x.code, Last(i), base, {}, u);
  }

  lemma {:induction false} TernaryLands(u: Tables, e: Expr, base: nat, t: Tables)
    requires e.Ternary? && Linked(u, e, base, t)
    ensures Closed(GenExpr(e, base, t).code, base, {}, u)
    decreases e, 0
  {
    hide Closed, Extends, Names, Size;
    NodeUnfolds(e, base, t);
    hide GenExpr;
    TernaryLinked(u, e, base, t);
    var x := GenExpr(e.cond, base, t);
    var y := GenExpr(e.thn, base + Size(x.code) + 3, x.tables);
    var q := base + Size(x.code) + Size(y.code) + 6;
    var z := GenExpr(e.els, q, y.tables);
    ExprLands(u, e.cond, base, t);
    ExprLands(u, e.thn, base + Size(x.code) + 3, x.tables);
    ExprLands(u, e.els, q, y.tables);
    ClosedMore(z.code, q, {}, {q + Size(z.code)}, u);
    BranchLands(u, x.code, false, y.code, z.code, base);
  }

  /** A branch whose arms meet at its own end. */
  lemma {:induction false} BranchLands(u: Tables, x: Code, onTrue: bool, y: Code, z: Code, base: nat)
    requires Closed(x, base, {}, u) && Closed(y, base + Size(x) + 3, {}, u)
    requires var q := base + Size(x) + Size(y) + 6; Closed(z, q, {q + Size(z)}, u)
    ensures var q := base + Size(x) + Size(y) + 6;
            Closed(Cat(x, Branch(onTrue, q, y, q + Size(z), z)), base, {}, u)
  {
    hide Closed, Starts;
    var q := base + Size(x) + Size(y) + 6;
    var end := q + Size(z);
    ClosedBranch(x, onTrue, y, end, z, base, {end}, u);
    BranchStarts(x, onTrue, y, end, z, base);
    assert {end} + {} == {end};
    Discharge(Cat(x, Branch(onTrue, q, y, end, z)), base, {end}, {}, u);
  }

  lemma {:induction false} IfLands(u: Tables, e: Expr, base: nat, t: Tables)
    requires e.If? && Linked(u, e, base, t)
    ensures Closed(GenExpr(e, base, t).code, base, {}, u)
    decreases e, 0
  {
    hide Closed, Extends, Names, Size;
    NodeUnfolds(e, base, t);
    hide GenExpr;
    var x := GenExpr(e.cond, base, t);
    var y := GenValue(e.body, base + Size(x.code) + 3, x.tables);
    var q := base + Size(x.code) + Size(y.code) + 6;
    var end := q + Size(GenChain(e.rest, q, y.tables, 0).code);
    ChainTarget(e.rest, q, y.tables, 0, end);
    IfLinked(u, e, base, t, end);
    ExprLands(u, e.cond, base, t);
    ValueLands(u, e.body, base + Size(x.code) + 3, x.tables);
    ChainLands(u, e.rest, q, y.tables, end);
    BranchLands(u, x.code, e.unless, y.code, GenChain(e.rest, q, y.tables, end).code, base);
  }

  lemma {:induction false} AssignLands(u: Tables, e: Expr, base: nat, t: Tables)
    requires e.Assign? && Linked(u, e, base, t)
    ensures Closed(GenExpr(e, base, t).code, base, {}, u)
    decreases e, 0
  {
    hide Closed, Extends, Names, Size;
    NodeUnfolds(e, base, t);
    hide GenExpr;
    DefinedSlot(u, e.value, base, t, e.name);
    var x, i := GenExpr(e.value, base, WithLocal(t, e.name)), SetLocal(IndexOf(u.names, e.name));
    ExprLands(u, e.value, base, WithLocal(t, e.name));
    ClosedLast(i, base + Size(x.code), {}, u);
    ClosedCat(x.code, Last(i), base, {}, u);
  }

  lemma {:induction false} OpAssignLands(u: Tables, e: Expr, base: nat, t: Tables)
    requires e.OpAssign? && Linked(u, e, base, t)
    ensures Closed(GenExpr(e, base, t).code, base, {}, u)
    decreases e, 0
  {
    hide Closed, Extends, Names, Size;
    NodeUnfolds(e, base, t);
    hide GenExpr;
    DefinedSlot(u, e.value, base + 2, t, e.name);
    var x, k := GenExpr(e.value, base + 2, WithLocal(t, e.name)), IndexOf(u.names, e.name);
    ExprLands(u, e.value, base + 2, WithLocal(t, e.name));
    ClosedOpAssign(x.code, base, k, e.op, u);
  }

  lemma {:induction false} ClosedOpAssign(x: Code, base: nat, k: nat, op: BinOp, u: Tables)
    requires Closed(x, base + 2, {}, u) && k < |u.names|
    ensures Closed(Emit(GetLocal(k), Cat(x, Emit(Binary(op), Last(SetLocal(k))))), base, {}, u)
  {
    hide Closed, Size;
    var q, store := base + 2 + Size(x), Emit(Binary(op), Last(SetLocal(k)));
    ClosedLast(SetLocal(k), q + 1, {}, u);
    ClosedEmit(Binary(op), Last(SetLocal(k)), q, {}, u);
    ClosedCat(x, store, base + 2, {}, u);
    ClosedEmit(GetLocal(k), Cat(x, store), base, {}, u);
  }

  lemma {:induction false} LogicalAssignLands(u: Tables, e: Expr, base: nat, t: Tables)
    requires e.LogicalAssign? && Linked(u, e, base, t)
    ensures Closed(GenExpr(e, base, t).code, base, {}, u)
    decreases e, 0
  {
    hide Closed, Extends, Names;
    NodeUnfolds(e, base, t);
    hide GenExpr;
    DefinedSlot(u, e.value, base + 7, t, e.name);
    var x, k := GenExpr(e.value, base + 7, WithLocal(t, e.name)), IndexOf(u.names, e.name);
    ExprLands(u, e.value, base + 7, WithLocal(t, e.name));
    StoreLands(u, x.code, k, e.isOr, base);
  }

  lemma {:induction false} StoreLands(u: Tables, x: Code, k: nat, isOr: bool, base: nat)
    requires Closed(x, base + 7, {}, u) && k < |u.names|
    ensures var end := base + 7 + Size(x) + 5;
            Closed(Emit(GetLocal(k), ShortCircuit(isOr, end, Cat(x, Emit(SetLocal(k), Last(Jump(end)))))), base, {}, u)
  {
    hide Closed, Starts;
    var end := base + 7 + Size(x) + 5;
    var y := Cat(x, Emit(SetLocal(k), Last(Jump(end))));
    SizeEmit(Jump(end), Nop);
    SizeEmit(SetLocal(k), Last(Jump(end)));
    assert Size(y) == Size(x) + 5;
    ClosedMore(x, base + 7, {}, {end}, u);
    ClosedLast(Jump(end), base + 9 + Size(x), {end}, u);
    ClosedEmit(SetLocal(k), Last(Jump(end)), base + 7 + Size(x), {end}, u);
    ClosedCat(x, Emit(SetLocal(k), Last(Jump(end))), base + 7, {end}, u);
    ClosedShortCircuit(isOr, y, base + 2, end, u);
    ClosedEmit(GetLocal(k), ShortCircuit(isOr, end, y), base, {}, u);
  }

  lemma {:induction false} WhileLands(u: Tables, e: Expr, base: nat, t: Tables)
    requires e.While? && Linked(u, e, base, t)
    ensures Closed(GenExpr(e, base, t).code, base, {}, u)
    decreases e, 0
  {
    hide Closed, Extends, Names, Size;
    NodeUnfolds(e, base, t);
    hide GenExpr;
    WhileLinked(u, e, base, t);
    var x := GenExpr(e.cond, base, t);
    var q := base + Size(x.code) + 6;
    ExprLands(u, e.cond, base, t);
    BlockLands(u, e.body, q, x.tables);
    ClosedLoop(x.code, GenBlock(e.body, q, x.tables).code, base, u);
  }

  lemma {:induction false} BlockLands(u: Tables, b: Block, base: nat, t: Tables)
    requires LinkedBlock(u, b, base, t)
    ensures Closed(GenBlock(b, base, t).code, base, {}, u)
    decreases b
  {
    if b.Stmt? {
      hide Closed, Extends, Names, Size;
      assert GenBlock(b, base, t) == GenStatement(b, base, t);
      BlockLinked(u, b, base, t);
      var x := GenExpr(b.first, base, t);
      var q := base + Size(x.code) + 1;
      ExprLands(u, b.first, base, t);
      BlockLands(u, b.rest, q, x.tables);
      ClosedStatement(x.code, GenBlock(b.rest, q, x.tables).code, base, {}, u);
    }
  }

  lemma {:induction false} ValueLands(u: Tables, b: Block, base: nat, t: Tables)
    requires LinkedValue(u, b, base, t)
    ensures Closed(GenValue(b, base, t).code, base, {}, u)
    decreases b
  {
    hide Closed, Extends, Names, Size;
    if b.Empty? {
      ClosedLast(PushNil, base, {}, u);
    } else if b.rest.Empty? {
      ExprLands(u, b.first, base, t);
    } else {
      assert GenValue(b, base, t) == GenValueStatement(b, base, t);
      ValueLinked(u, b, base, t);
      var x := GenExpr(b.first, base, t);
      var q := base + Size(x.code) + 1;
      ExprLands(u, b.first, base, t);
      ValueLands(u, b.rest, q, x.tables);
      ClosedStatement(x.code, GenValue(b.rest, q, x.tables).code, base, {}, u);
    }
  }

  lemma {:induction false} ChainLands(u: Tables, c: Chain, base: nat, t: Tables, target: nat)
    requires LinkedChain(u, c, base, t, target)
    ensures Closed(GenChain(c, base, t, target).code, base, {target}, u)
    decreases c
  {
    hide Closed, Extends, Names, Size;
    match c
    case NoElse => ClosedLast(PushNil, base, {target}, u);
    case Else(b) =>
      ValueLands(u, b, base, t);
      ClosedMore(GenValue(b, base, t).code, base, {}, {target}, u);
    case ElsIf(cond, body, rest) =>
      assert GenChain(c, base, t, target) == GenElsIf(c, base, t, target);
      ElsIfLinked(u, c, base, t, target);
      var x := GenExpr(cond, base, t);
      var y := GenValue(body, base + Size(x.code) + 3, x.tables);
      var q := base + Size(x.code) + Size(y.code) + 6;
      ExprLands(u, cond, base, t);
      ValueLands(u, body, base + Size(x.code) + 3, x.tables);
      ChainLands(u, rest, q, y.tables, target);
      ClosedBranch(x.code, false, y.code, target, GenChain(rest, q, y.tables, target).code, base, {target}, u);
  }

  // ---------------------------------------------------------------- operand widths

  /** Closed code shorter than 64K, with at most 256 locals and 65536 constants, survives encoding. */
  lemma {:induction false} FineEncodable(c: Code, targets: set<nat>, t: Tables)
    requires Fine(c, targets, t) && (forall s :: s in targets ==> s < 65536)
    requires |t.names| <= 256 && |t.pool| <= 65536
    ensures AllEncodable(c)
    decreases c
  {
    if c.Cat? { FineEncodable(c.a, targets, t); FineEncodable(c.b, targets, t); }
  }

  lemma {:induction false} ClosedEncodable(c: Code, base: nat, t: Tables)
    requires Closed(c, base, {}, t) && base + Size(c) < 65536 && |t.names| <= 256 && |t.pool| <= 65536
    ensures AllEncodable(c)
  {
    var targets := Starts(c, base) + {base + Size(c)} + {};
    forall s | s in targets ensures s < 65536 {
      if s in Starts(c, base) { StartsWithin(c, base, s); }
    }
    FineEncodable(c, targets, t);
  }
}
