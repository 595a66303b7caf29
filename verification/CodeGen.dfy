/** The compiled subset of the language and the code the compiler leaves for it once every jump has been patched; the
    compiler class is proved to emit exactly this code. */
module CodeGen {
  import opened Options
  import opened Bytecode

  datatype Expr =
    | Int(number: int) | True | False | Nil | Var(name: string)
    | Infix(op: BinOp, left: Expr, right: Expr)
    | And(left: Expr, right: Expr) | Or(left: Expr, right: Expr)
    | Not(operand: Expr) | Minus(operand: Expr)
    | Ternary(cond: Expr, thn: Expr, els: Expr)
    | If(cond: Expr, unless: bool, body: Block, rest: Chain)
    | Assign(name: string, value: Expr)
    | OpAssign(name: string, op: BinOp, value: Expr)
    | LogicalAssign(name: string, isOr: bool, value: Expr)
    | While(cond: Expr, body: Block)

  /** A list of expression statements. */
  datatype Block = Empty | Stmt(first: Expr, rest: Block)

  /** What follows the first branch of an `if`: elsif branches, then an optional else. */
  datatype Chain = NoElse | Else(body: Block) | ElsIf(cond: Expr, body: Block, rest: Chain)

  /** The compiler's tables: locals by slot, and the integer constant pool. */
  datatype Tables = Tables(names: seq<string>, pool: seq<int>)

  /** Each local is defined once, and so is each constant. */
  ghost predicate Distinct<T>(entries: seq<T>) {
    forall i, j :: 0 <= i < j < |entries| ==> entries[i] != entries[j]
  }

  datatype Gen = Gen(code: Code, tables: Tables)

  function IndexOf<T(==)>(s: seq<T>, x: T): (i: nat)
    ensures i <= |s| && (i < |s| <==> x in s) && (i < |s| ==> s[i] == x)
  {
    if s == [] then 0 else if s[0] == x then 0 else 1 + IndexOf(s[1..], x)
  }

  /** SymbolTable.Resolve, then Define when the name is new. */
  function WithLocal(t: Tables, name: string): Tables {
    if name in t.names then t else t.(names := t.names + [name])
  }

  /** addConstant: an integer already in the pool keeps its index. */
  function WithConstant(t: Tables, value: int): Tables {
    if value in t.pool then t else t.(pool := t.pool + [value])
  }

  function BranchOp(onTrue: bool, target: nat): Instr {
    if onTrue then JumpTruthy(target) else JumpNotTruthy(target)
  }

  function Last(i: Instr): Code {
    Emit(i, Nop)
  }

  function GenExpr(e: Expr, base: nat, t: Tables): Gen
    decreases e, 3
  {
    match e
    case Int(v) => var u := WithConstant(t, v); Gen(Last(Constant(IndexOf(u.pool, v))), u)
    case True => Gen(Last(PushTrue), t)
    case False => Gen(Last(PushFalse), t)
    case Nil => Gen(Last(PushNil), t)
    case Var(name) => Gen(Last(GetLocal(IndexOf(t.names, name))), t)
    case _ => GenNode(e, base, t)
  }

  predicate IsOperator(e: Expr) {
    e.Infix? || e.And? || e.Or? || e.Not? || e.Minus?
  }

  predicate IsStore(e: Expr) {
    e.Assign? || e.OpAssign? || e.LogicalAssign?
  }

  predicate IsNode(e: Expr) {
    !e.Int? && !e.True? && !e.False? && !e.Nil? && !e.Var?
  }

  function GenNode(e: Expr, base: nat, t: Tables): Gen
    requires IsNode(e)
    decreases e, 2
  {
    if IsOperator(e) then GenOperator(e, base, t)
    else if IsStore(e) then GenStore(e, base, t)
    else GenControl(e, base, t)
  }

  function GenOperator(e: Expr, base: nat, t: Tables): Gen
    requires IsOperator(e)
    decreases e, 1
  {
    match e
    case Infix(_, _, _) => GenInfix(e, base, t)
    case And(_, _) => GenLogical(e, base, t)
    case Or(_, _) => GenLogical(e, base, t)
    case Not(_) => GenUnary(e, base, t)
    case Minus(_) => GenUnary(e, base, t)
  }

  function GenStore(e: Expr, base: nat, t: Tables): Gen
    requires IsStore(e)
    decreases e, 1
  {
    match e
    case Assign(_, _) => GenAssign(e, base, t)
    case OpAssign(_, _, _) => GenOpAssign(e, base, t)
    case LogicalAssign(_, _, _) => GenLogicalAssign(e, base, t)
  }

  function GenControl(e: Expr, base: nat, t: Tables): Gen
    requires IsNode(e) && !IsOperator(e) && !IsStore(e)
    decreases e, 1
  {
    match e
    case Ternary(_, _, _) => GenTernary(e, base, t)
    case If(_, _, _, _) => GenIf(e, base, t)
    case While(_, _) => GenWhile(e, base, t)
  }

  /** The code of a node is the code of its kind. */
  lemma {:induction false} NodeUnfolds(e: Expr, base: nat, t: Tables)
    requires IsNode(e)
    ensures GenExpr(e, base, t) ==
            match e
            case Infix(_, _, _) => GenInfix(e, base, t)
            case And(_, _) => GenLogical(e, base, t)
            case Or(_, _) => GenLogical(e, base, t)
            case Not(_) => GenUnary(e, base, t)
            case Minus(_) => GenUnary(e, base, t)
            case Assign(_, _) => GenAssign(e, base, t)
            case OpAssign(_, _, _) => GenOpAssign(e, base, t)
            case LogicalAssign(_, _, _) => GenLogicalAssign(e, base, t)
            case Ternary(_, _, _) => GenTernary(e, base, t)
            case If(_, _, _, _) => GenIf(e, base, t)
            case While(_, _) => GenWhile(e, base, t)
  {
    hide GenInfix, GenLogical, GenUnary, GenAssign, GenOpAssign, GenLogicalAssign, GenTernary, GenIf, GenWhile;
    assert GenExpr(e, base, t) == GenNode(e, base, t);
    if IsOperator(e) {
      assert GenNode(e, base, t) == GenOperator(e, base, t);
    } else if IsStore(e) {
      assert GenNode(e, base, t) == GenStore(e, base, t);
    } else {
      assert GenNode(e, base, t) == GenControl(e, base, t);
    }
  }

  function GenInfix(e: Expr, base: nat, t: Tables): Gen
    requires e.Infix?
    decreases e, 0
  {
    var x := GenExpr(e.left, base, t);
    var y := GenExpr(e.right, base + Size(x.code), x.tables);
    Gen(Cat(x.code, Cat(y.code, Last(Binary(e.op)))), y.tables)
  }

  function GenUnary(e: Expr, base: nat, t: Tables): Gen
    requires e.Not? || e.Minus?
    decreases e, 0
  {
    var x := GenExpr(e.operand, base, t);
    Gen(Cat(x.code, Last(if e.Not? then Bang else Negate)), x.tables)
  }

  function GenLogical(e: Expr, base: nat, t: Tables): Gen
    requires e.And? || e.Or?
    decreases e, 0
  {
    var x := GenExpr(e.left, base, t);
    var q := base + Size(x.code) + 5;
    var y := GenExpr(e.right, q, x.tables);
    Gen(Cat(x.code, ShortCircuit(e.Or?, q + Size(y.code), y.code)), y.tables)
  }

  function GenTernary(e: Expr, base: nat, t: Tables): Gen
    requires e.Ternary?
    decreases e, 0
  {
    var x := GenExpr(e.cond, base, t);
    var y := GenExpr(e.thn, base + Size(x.code) + 3, x.tables);
    var q := base + Size(x.code) + Size(y.code) + 6;
    var z := GenExpr(e.els, q, y.tables);
    Gen(Cat(x.code, Branch(false, q, y.code, q + Size(z.code), z.code)), z.tables)
  }

  function GenIf(e: Expr, base: nat, t: Tables): Gen
    requires e.If?
    decreases e, 0
  {
    var x := GenExpr(e.cond, base, t);
    var y := GenValue(e.body, base + Size(x.code) + 3, x.tables);
    var q := base + Size(x.code) + Size(y.code) + 6;
    var end := q + Size(GenChain(e.rest, q, y.tables, 0).code);
    var z := GenChain(e.rest, q, y.tables, end);
    Gen(Cat(x.code, Branch(e.unless, q, y.code, end, z.code)), z.tables)
  }

  function GenAssign(e: Expr, base: nat, t: Tables): Gen
    requires e.Assign?
    decreases e, 0
  {
    var x := GenExpr(e.value, base, WithLocal(t, e.name));
    Gen(Cat(x.code, Last(SetLocal(IndexOf(x.tables.names, e.name)))), x.tables)
  }

  function GenOpAssign(e: Expr, base: nat, t: Tables): Gen
    requires e.OpAssign?
    decreases e, 0
  {
    var u := WithLocal(t, e.name);
    var x := GenExpr(e.value, base + 2, u);
    Gen(Emit(GetLocal(IndexOf(u.names, e.name)),
          Cat(x.code, Emit(Binary(e.op), Last(SetLocal(IndexOf(x.tables.names, e.name)))))), x.tables)
  }

  function GenLogicalAssign(e: Expr, base: nat, t: Tables): Gen
    requires e.LogicalAssign?
    decreases e, 0
  {
    var u := WithLocal(t, e.name);
    var x := GenExpr(e.value, base + 7, u);
    var end := base + 7 + Size(x.code) + 5;
    Gen(Emit(GetLocal(IndexOf(u.names, e.name)),
          ShortCircuit(e.isOr, end, Cat(x.code, Emit(SetLocal(IndexOf(x.tables.names, e.name)), Last(Jump(end)))))), x.tables)
  }

  function GenWhile(e: Expr, base: nat, t: Tables): Gen
    requires e.While?
    decreases e, 0
  {
    var x := GenExpr(e.cond, base, t);
    var y := GenBlock(e.body, base + Size(x.code) + 6, x.tables);
    Gen(Cat(x.code, Loop(base + Size(x.code) + 6 + Size(y.code) + 3, y.code, base)), y.tables)
  }

  /** After the condition: leave at `exit`, or run the body and go back to `start`. */
  function Loop(exit: nat, body: Code, start: nat): Code {
    Emit(JumpNotTruthy(exit), Emit(SetWhileEnd(exit), Cat(body, Emit(Jump(start), Last(PushNil)))))
  }

  /** Keep the value on the stack and jump past `code`, or drop it and run `code`. */
  function ShortCircuit(onTrue: bool, end: nat, code: Code): Code {
    Emit(Dup, Emit(BranchOp(onTrue, end), Emit(Pop, code)))
  }

  /** Jump to `other` on the condition, else run `body` and jump past the alternative. */
  function Branch(onTrue: bool, q: nat, body: Code, end: nat, other: Code): Code {
    Emit(BranchOp(onTrue, q), Cat(body, Emit(Jump(end), other)))
  }

  /** Statements in sequence, each value popped. */
  function GenBlock(b: Block, base: nat, t: Tables): Gen
    decreases b, 1
  {
    if b.Empty? then Gen(Nop, t) else GenStatement(b, base, t)
  }

  function GenStatement(b: Block, base: nat, t: Tables): Gen
    requires b.Stmt?
    decreases b, 0
  {
    var x := GenExpr(b.first, base, t);
    var y := GenBlock(b.rest, base + Size(x.code) + 1, x.tables);
    Gen(Cat(x.code, Emit(Pop, y.code)), y.tables)
  }

  /** compileBlockAsValue: all values but the last are popped; an empty block is nil. */
  function GenValue(b: Block, base: nat, t: Tables): Gen
    decreases b, 1
  {
    if b.Empty? then Gen(Last(PushNil), t)
    else if b.rest.Empty? then GenExpr(b.first, base, t)
    else GenValueStatement(b, base, t)
  }

  function GenValueStatement(b: Block, base: nat, t: Tables): Gen
    requires b.Stmt?
    decreases b, 0
  {
    var x := GenExpr(b.first, base, t);
    var y := GenValue(b.rest, base + Size(x.code) + 1, x.tables);
    Gen(Cat(x.code, Emit(Pop, y.code)), y.tables)
  }

  /** The branches after the first one; each taken branch jumps to `target`. */
  function GenChain(c: Chain, base: nat, t: Tables, target: nat): Gen
    decreases c, 1
  {
    match c
    case NoElse => Gen(Last(PushNil), t)
    case Else(b) => GenValue(b, base, t)
    case ElsIf(_, _, _) => GenElsIf(c, base, t, target)
  }

  function GenElsIf(c: Chain, base: nat, t: Tables, target: nat): Gen
    requires c.ElsIf?
    decreases c, 0
  {
    var x := GenExpr(c.cond, base, t);
    var y := GenValue(c.body, base + Size(x.code) + 3, x.tables);
    var q := base + Size(x.code) + Size(y.code) + 6;
    var z := GenChain(c.rest, q, y.tables, target);
    Gen(Cat(x.code, Branch(false, q, y.code, target, z.code)), z.tables)
  }

  lemma {:induction false} BranchSize(onTrue: bool, q: nat, body: Code, end: nat, other: Code)
    ensures Size(Branch(onTrue, q, body, end, other)) == 6 + Size(body) + Size(other)
  {
    SizeEmit(Jump(end), other);
    assert Size(Cat(body, Emit(Jump(end), other))) == Size(body) + 3 + Size(other);
    SizeEmit(BranchOp(onTrue, q), Cat(body, Emit(Jump(end), other)));
  }

  lemma {:induction false} ShortCircuitSize(onTrue: bool, end: nat, code: Code)
    ensures Size(ShortCircuit(onTrue, end, code)) == 5 + Size(code)
  {
    SizeEmit(Pop, code);
    SizeEmit(BranchOp(onTrue, end), Emit(Pop, code));
    SizeEmit(Dup, Emit(BranchOp(onTrue, end), Emit(Pop, code)));
  }

  /** Code sizes and tables do not depend on the jump target. */
  lemma {:induction false} ChainTarget(c: Chain, base: nat, t: Tables, u: nat, v: nat)
    ensures Size(GenChain(c, base, t, u).code) == Size(GenChain(c, base, t, v).code)
    ensures GenChain(c, base, t, u).tables == GenChain(c, base, t, v).tables
    decreases c
  {
    if c.ElsIf? {
      var x := GenExpr(c.cond, base, t);
      var y := GenValue(c.body, base + Size(x.code) + 3, x.tables);
      var q := base + Size(x.code) + Size(y.code) + 6;
      ChainTarget(c.rest, q, y.tables, u, v);
      BranchSize(false, q, y.code, u, GenChain(c.rest, q, y.tables, u).code);
      BranchSize(false, q, y.code, v, GenChain(c.rest, q, y.tables, v).code);
      assert GenChain(c, base, t, u) == GenElsIf(c, base, t, u) && GenChain(c, base, t, v) == GenElsIf(c, base, t, v);
    }
  }
}
