/** Direct evaluation of the compiled subset, and the stack machine that runs its bytecode. */
module Machine {
  import opened Options
  import opened Int64
  import opened Bits
  import opened Bytecode
  import opened CodeGen

  datatype Value = IntV(n: int) | NilV | BoolV(b: bool)

  predicate Truthy(v: Value) {
    v != NilV && v != BoolV(false)
  }

  function Arithmetic(op: BinOp, x: int, y: int): Option<Value> {
    match op
    case OpAdd => Some(IntV(x + y)) case OpSub => Some(IntV(x - y)) case OpMul => Some(IntV(x * y))
    case OpDiv => if y == 0 then None else Some(IntV(FloorDiv(x, y)))
    case OpMod => if y == 0 then None else Some(IntV(FloorMod(x, y)))
    case OpGreater => Some(BoolV(x > y)) case OpGreaterEqual => Some(BoolV(x >= y))
    case OpLess => Some(BoolV(x < y)) case OpLessEqual => Some(BoolV(x <= y))
    case OpBitAnd => Some(IntV(Bitwise(BitOp.And, x, y)))
    case OpBitOr => Some(IntV(Bitwise(BitOp.Or, x, y)))
    case OpBitXor => Some(IntV(Bitwise(BitOp.Xor, x, y)))
    case OpEqual => Some(BoolV(x == y)) case OpNotEqual => Some(BoolV(x != y))
  }

  /** A binary operator on Ruby values; None when it raises. */
  function Operate(op: BinOp, x: Value, y: Value): Option<Value> {
    if op == OpEqual then Some(BoolV(x == y))
    else if op == OpNotEqual then Some(BoolV(x != y))
    else if x.IntV? && y.IntV? then Arithmetic(op, x.n, y.n)
    else if !x.IntV? && op == OpBitAnd then Some(BoolV(Truthy(x) && Truthy(y)))
    else if !x.IntV? && op == OpBitOr then Some(BoolV(Truthy(x) || Truthy(y)))
    else if !x.IntV? && op == OpBitXor then Some(BoolV(Truthy(x) != Truthy(y)))
    else None
  }

  // ---------------------------------------------------------------- direct evaluation

  type Env = map<string, Value>

  /** A local that was never assigned is nil. */
  function Lookup(env: Env, name: string): Value {
    if name in env then env[name] else NilV
  }

  /** Timeout: the fuel, which bounds the iterations of every while loop, ran out. */
  datatype Outcome = Finished(v: Value, env: Env) | Raises | Timeout

  function Eval(e: Expr, env: Env, fuel: nat): Outcome
    decreases fuel, e, 3
  {
    match e
    case Int(n) => Finished(IntV(n), env)
    case True => Finished(BoolV(true), env)
    case False => Finished(BoolV(false), env)
    case Nil => Finished(NilV, env)
    case Var(name) => Finished(Lookup(env, name), env)
    case _ => EvalNode(e, env, fuel)
  }

  function EvalNode(e: Expr, env: Env, fuel: nat): Outcome
    requires IsNode(e)
    decreases fuel, e, 2
  {
    if IsOperator(e) then EvalOperator(e, env, fuel)
    else if IsStore(e) then EvalStore(e, env, fuel)
    else EvalControl(e, env, fuel)
  }

  function EvalOperator(e: Expr, env: Env, fuel: nat): Outcome
    requires IsOperator(e)
    decreases fuel, e, 1
  {
    match e
    case Infix(_, _, _) => EvalInfix(e, env, fuel)
    case And(_, _) => EvalLogical(e, env, fuel)
    case Or(_, _) => EvalLogical(e, env, fuel)
    case Not(_) => EvalUnary(e, env, fuel)
    case Minus(_) => EvalUnary(e, env, fuel)
  }

  function EvalStore(e: Expr, env: Env, fuel: nat): Outcome
    requires IsStore(e)
    decreases fuel, e, 1
  {
    match e
    case Assign(_, _) => EvalAssign(e, env, fuel)
    case OpAssign(_, _, _) => EvalOpAssign(e, env, fuel)
    case LogicalAssign(_, _, _) => EvalLogicalAssign(e, env, fuel)
  }

  function EvalControl(e: Expr, env: Env, fuel: nat): Outcome
    requires IsNode(e) && !IsOperator(e) && !IsStore(e)
    decreases fuel, e, 1
  {
    match e
    case Ternary(_, _, _) => EvalTernary(e, env, fuel)
    case If(_, _, _, _) => EvalIf(e, env, fuel)
    case While(_, _) => EvalWhile(e, env, fuel)
  }

  /** A node is evaluated by its kind. */
  lemma {:induction false} EvalUnfolds(e: Expr, env: Env, fuel: nat)
    requires IsNode(e)
    ensures Eval(e, env, fuel) ==
            match e
            case Infix(_, _, _) => EvalInfix(e, env, fuel)
            case And(_, _) => EvalLogical(e, env, fuel)
            case Or(_, _) => EvalLogical(e, env, fuel)
            case Not(_) => EvalUnary(e, env, fuel)
            case Minus(_) => EvalUnary(e, env, fuel)
            case Assign(_, _) => EvalAssign(e, env, fuel)
            case OpAssign(_, _, _) => EvalOpAssign(e, env, fuel)
            case LogicalAssign(_, _, _) => EvalLogicalAssign(e, env, fuel)
            case Ternary(_, _, _) => EvalTernary(e, env, fuel)
            case If(_, _, _, _) => EvalIf(e, env, fuel)
            case While(_, _) => EvalWhile(e, env, fuel)
  {
    hide EvalInfix, EvalLogical, EvalUnary, EvalAssign, EvalOpAssign, EvalLogicalAssign, EvalTernary, EvalIf, EvalWhile;
    assert Eval(e, env, fuel) == EvalNode(e, env, fuel);
    if IsOperator(e) {
      assert EvalNode(e, env, fuel) == EvalOperator(e, env, fuel);
    } else if IsStore(e) {
      assert EvalNode(e, env, fuel) == EvalStore(e, env, fuel);
    } else {
      assert EvalNode(e, env, fuel) == EvalControl(e, env, fuel);
    }
  }

  function EvalInfix(e: Expr, env: Env, fuel: nat): Outcome
    requires e.Infix?
    decreases fuel, e, 0
  {
    var x := Eval(e.left, env, fuel);
    if !x.Finished? then x else
    var y := Eval(e.right, x.env, fuel);
    if !y.Finished? then y else OfOption(Operate(e.op, x.v, y.v), y.env)
  }

  function EvalLogical(e: Expr, env: Env, fuel: nat): Outcome
    requires e.And? || e.Or?
    decreases fuel, e, 0
  {
    var x := Eval(e.left, env, fuel);
    if !x.Finished? || Truthy(x.v) == e.Or? then x else Eval(e.right, x.env, fuel)
  }

  function EvalUnary(e: Expr, env: Env, fuel: nat): Outcome
    requires e.Not? || e.Minus?
    decreases fuel, e, 0
  {
    var x := Eval(e.operand, env, fuel);
    if !x.Finished? then x
    else if e.Not? then Finished(BoolV(!Truthy(x.v)), x.env)
    else OfOption(if x.v.IntV? then Some(IntV(-x.v.n)) else None, x.env)
  }

  function EvalTernary(e: Expr, env: Env, fuel: nat): Outcome
    requires e.Ternary?
    decreases fuel, e, 0
  {
    var x := Eval(e.cond, env, fuel);
    if !x.Finished? then x else if Truthy(x.v) then Eval(e.thn, x.env, fuel) else Eval(e.els, x.env, fuel)
  }

  function EvalIf(e: Expr, env: Env, fuel: nat): Outcome
    requires e.If?
    decreases fuel, e, 0
  {
    var x := Eval(e.cond, env, fuel);
    if !x.Finished? then x
    else if Truthy(x.v) != e.unless then EvalBlock(e.body, x.env, fuel) else EvalChain(e.rest, x.env, fuel)
  }

  function EvalAssign(e: Expr, env: Env, fuel: nat): Outcome
    requires e.Assign?
    decreases fuel, e, 0
  {
    var x := Eval(e.value, env, fuel);
    if !x.Finished? then x else Finished(x.v, x.env[e.name := x.v])
  }

  /** The current value is read before the operand is evaluated. */
  function EvalOpAssign(e: Expr, env: Env, fuel: nat): Outcome
    requires e.OpAssign?
    decreases fuel, e, 0
  {
    var x := Eval(e.value, env, fuel);
    if !x.Finished? then x else
    var v := Operate(e.op, Lookup(env, e.name), x.v);
    if v.None? then Raises else Finished(v.value, x.env[e.name := v.value])
  }

  function EvalLogicalAssign(e: Expr, env: Env, fuel: nat): Outcome
    requires e.LogicalAssign?
    decreases fuel, e, 0
  {
    var now := Lookup(env, e.name);
    if Truthy(now) == e.isOr then Finished(now, env) else
    var x := Eval(e.value, env, fuel);
    if !x.Finished? then x else Finished(x.v, x.env[e.name := x.v])
  }

  function EvalWhile(e: Expr, env: Env, fuel: nat): Outcome
    requires e.While?
    decreases fuel, e, 0
  {
    var x := Eval(e.cond, env, fuel);
    if !x.Finished? then x
    else if !Truthy(x.v) then Finished(NilV, x.env)
    else
      var y := EvalBlock(e.body, x.env, fuel);
      if !y.Finished? then y
      else if fuel == 0 then Timeout
      else Eval(e, y.env, fuel - 1)
  }

  function OfOption(v: Option<Value>, env: Env): Outcome {
    if v.None? then Raises else Finished(v.value, env)
  }

  /** The value of a block is the value of its last statement. */
  function EvalBlock(b: Block, env: Env, fuel: nat): Outcome
    decreases fuel, b, 1
  {
    if b.Empty? then Finished(NilV, env)
    else if b.rest.Empty? then Eval(b.first, env, fuel)
    else EvalStatement(b, env, fuel)
  }

  function EvalStatement(b: Block, env: Env, fuel: nat): Outcome
    requires b.Stmt?
    decreases fuel, b, 0
  {
    var x := Eval(b.first, env, fuel);
    if !x.Finished? then x else EvalBlock(b.rest, x.env, fuel)
  }

  function EvalChain(c: Chain, env: Env, fuel: nat): Outcome
    decreases fuel, c, 1
  {
    match c
    case NoElse => Finished(NilV, env)
    case Else(b) => EvalBlock(b, env, fuel)
    case ElsIf(_, _, _) => EvalElsIf(c, env, fuel)
  }

  function EvalElsIf(c: Chain, env: Env, fuel: nat): Outcome
    requires c.ElsIf?
    decreases fuel, c, 0
  {
    var x := Eval(c.cond, env, fuel);
    if !x.Finished? then x
    else if Truthy(x.v) then EvalBlock(c.body, x.env, fuel) else EvalChain(c.rest, x.env, fuel)
  }

  // ---------------------------------------------------------------- the machine

  /** The top of the stack is its last element. Stuck is a malformed program; Done is past the last instruction. */
  datatype State =
    | Running(pc: nat, stack: seq<Value>, locals: seq<Value>)
    | Done(stack: seq<Value>, locals: seq<Value>)
    | Raised
    | Stuck

  function Top(s: State): Value
    requires s.Running? && s.stack != []
  {
    s.stack[|s.stack| - 1]
  }

  /** Pop k values, push one, and go on to pc. */
  function Replace(s: State, pc: nat, k: nat, v: Value): State
    requires s.Running? && k <= |s.stack|
  {
    Running(pc, s.stack[..|s.stack| - k] + [v], s.locals)
  }

  function Drop(s: State, pc: nat): State
    requires s.Running? && s.stack != []
  {
    Running(pc, s.stack[..|s.stack| - 1], s.locals)
  }

  function Execute(i: Instr, pool: seq<int>, s: State): State
    requires s.Running?
  {
    var next, depth := s.pc + Width(i), |s.stack|;
    match i
    case Constant(k) => if k < |pool| then Replace(s, next, 0, IntV(pool[k])) else Stuck
    case Pop => if depth == 0 then Stuck else Drop(s, next)
    case PushTrue => Replace(s, next, 0, BoolV(true))
    case PushFalse => Replace(s, next, 0, BoolV(false))
    case PushNil => Replace(s, next, 0, NilV)
    case Binary(op) =>
      if depth < 2 then Stuck else
      var v := Operate(op, s.stack[depth - 2], Top(s));
      if v.None? then Raised else Replace(s, next, 2, v.value)
    case Negate =>
      if depth == 0 then Stuck
      else if Top(s).IntV? then Replace(s, next, 1, IntV(-Top(s).n)) else Raised
    case Bang => if depth == 0 then Stuck else Replace(s, next, 1, BoolV(!Truthy(Top(s))))
    case Dup => if depth == 0 then Stuck else Replace(s, next, 0, Top(s))
    case Jump(t) => s.(pc := t)
    case JumpNotTruthy(t) => if depth == 0 then Stuck else Drop(s, if Truthy(Top(s)) then next else t)
    case JumpTruthy(t) => if depth == 0 then Stuck else Drop(s, if Truthy(Top(s)) then t else next)
    case SetWhileEnd(_) => s.(pc := next)
    case GetLocal(k) => if k < |s.locals| then Replace(s, next, 0, s.locals[k]) else Stuck
    case SetLocal(k) =>
      if depth == 0 || k >= |s.locals| then Stuck else s.(pc := next, locals := s.locals[k := Top(s)])
  }

  /** One step of the program read through `fetch`, whose first position past the code is `end`. */
  function Step(fetch: Fetch, end: nat, pool: seq<int>, s: State): State {
    if !s.Running? then s else
    var i := fetch(s.pc);
    if i.Some? then Execute(i.value, pool, s)
    else if s.pc == end then Done(s.stack, s.locals)
    else Stuck
  }

  function Run(fetch: Fetch, end: nat, pool: seq<int>, s: State, n: nat): State
    decreases n, 1
  {
    if n == 0 then s else RunOn(fetch, end, pool, s, n)
  }

  function RunOn(fetch: Fetch, end: nat, pool: seq<int>, s: State, n: nat): State
    requires n > 0
    decreases n, 0
  {
    Run(fetch, end, pool, Step(fetch, end, pool, s), n - 1)
  }

  lemma {:induction false} RunAdd(fetch: Fetch, end: nat, pool: seq<int>, s: State, m: nat, n: nat)
    ensures Run(fetch, end, pool, s, m + n) == Run(fetch, end, pool, Run(fetch, end, pool, s, m), n)
    decreases m
  {
    if m != 0 {
      RunAdd(fetch, end, pool, Step(fetch, end, pool, s), m - 1, n);
      assert Run(fetch, end, pool, s, m + n) == RunOn(fetch, end, pool, s, m + n);
      assert Run(fetch, end, pool, s, m) == RunOn(fetch, end, pool, s, m);
    }
  }

  /** A state that is not running stays as it is. */
  lemma {:induction false} RunStops(fetch: Fetch, end: nat, pool: seq<int>, s: State, n: nat)
    requires !s.Running?
    ensures Run(fetch, end, pool, s, n) == s
    decreases n
  {
    if n != 0 {
      RunStops(fetch, end, pool, s, n - 1);
      assert Run(fetch, end, pool, s, n) == RunOn(fetch, end, pool, s, n);
    }
  }
}
