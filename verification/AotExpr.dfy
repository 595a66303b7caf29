/** The integer expression IR of the ahead-of-time tier and its three evaluators. */
module AotExpr {
  import opened Options
  import opened Int64
  import opened Bits

  /** `Other` stands for every opcode the evaluators do not know. */
  datatype Op = Add | Sub | Mul | Mod | BitAnd | BitOr | BitXor | ShiftRight | ShiftLeft | Other

  datatype Expr =
    | Const(value: int64)
    | Local(slot: nat)
    | Call(name: string, arg: Expr)
    | Neg(operand: Expr)
    | Bin(op: Op, left: Expr, right: Expr)

  predicate CallFree(e: Expr) {
    match e
    case Const(_) => true
    case Local(_) => true
    case Call(_, _) => false
    case Neg(x) => CallFree(x)
    case Bin(_, l, r) => CallFree(l) && CallFree(r)
  }

  /** Recognized one-parameter methods. Their bodies are parsed against an empty method table, so they call nothing;
      the parameter is slot 0. */
  type Methods = ms: map<string, Expr> | forall name :: name in ms ==> CallFree(ms[name])
    witness map[]

  /** containsLocalExpression: does e read this local, looking inside call arguments too? */
  predicate Contains(e: Expr, slot: nat) {
    match e
    case Const(_) => false
    case Local(s) => s == slot
    case Call(_, arg) => Contains(arg, slot)
    case Neg(x) => Contains(x, slot)
    case Bin(_, l, r) => Contains(l, slot) || Contains(r, slot)
  }

  function BitOpOf(op: Op): BitOp {
    if op == BitAnd then And else if op == BitOr then Or else Xor
  }

  /** What Ruby computes on unbounded integers; None when it raises. */
  function RubyOp(op: Op, x: int, y: int): Option<int> {
    match op
    case Add => Some(x + y)
    case Sub => Some(x - y)
    case Mul => Some(x * y)
    case Mod => if y == 0 then None else Some(FloorMod(x, y))
    case BitAnd | BitOr | BitXor => Some(Bitwise(BitOpOf(op), x, y))
    case ShiftRight => Some(if y >= 0 then FloorDiv(x, Pow2(y)) else x * Pow2(-y))
    case ShiftLeft => Some(if y >= 0 then x * Pow2(y) else FloorDiv(x, Pow2(-y)))
    case Other => None
  }

  function RubyEval(e: Expr, env: seq<int>, ms: Methods): Option<int>
    decreases !CallFree(e), e
  {
    match e
    case Const(v) => Some(v)
    case Local(s) => if s < |env| then Some(env[s]) else None
    case Call(name, arg) =>
      if name !in ms then None else
      var a := RubyEval(arg, env, ms);
      if a.None? then None else RubyEval(ms[name], [a.value], ms)
    case Neg(x) =>
      var v := RubyEval(x, env, ms);
      if v.None? then None else Some(-v.value)
    case Bin(op, l, r) =>
      var x := RubyEval(l, env, ms);
      if x.None? then None else
      var y := RubyEval(r, env, ms);
      if y.None? then None else RubyOp(op, x.value, y.value)
  }

  /** The overflow guards of the checked evaluator, written in the machine arithmetic the source uses. */
  function CheckedOp(op: Op, x: int64, y: int64): Option<int64> {
    match op
    case Add =>
      if (y > 0 && x > Wrap(MAX - y)) || (y < 0 && x < Wrap(MIN - y)) then None else Some(Wrap(x + y))
    case Sub =>
      if (y < 0 && x > Wrap(MAX + y)) || (y > 0 && x < Wrap(MIN + y)) then None else Some(Wrap(x - y))
    case Mul =>
      if x == 0 || y == 0 then Some(0)
      else if (x == -1 && y == MIN) || (y == -1 && x == MIN) then None
      else if MulGuard(x, y) then None
      else Some(Wrap(x * y))
    case Mod =>
      if y == 0 then None else
      var r := TruncMod(x, y);
      Some(Wrap(if r != 0 && (r < 0) != (y < 0) then r + y else r))
    case BitAnd | BitOr | BitXor => Some(Word64(BitOpOf(op), x, y))
    case ShiftRight => if y < 0 || y >= 64 then None else Some(Wrap(FloorDiv(x, Pow2(y))))
    case ShiftLeft =>
      if y < 0 || y >= 64 then None
      else if x == 0 then Some(0)
      else
        var shifted := Wrap(x * Pow2(y));
        if FloorDiv(shifted, Pow2(y)) != x then None else Some(shifted)
    case Other => None
  }

  predicate MulGuard(x: int64, y: int64)
    requires x != 0 && y != 0
  {
    if x > 0 then
      (y > 0 && x > TruncDiv(MAX, y)) || (y < 0 && y < TruncDiv(MIN, x))
    else if y > 0 then x < TruncDiv(MIN, y)
    else x < TruncDiv(MAX, y)
  }

  /** evaluateExpressionWithMethods: None when the plan must be refused. */
  function Checked(e: Expr, locals: seq<int64>, ms: Methods): Option<int64>
    decreases !CallFree(e), e
  {
    match e
    case Const(v) => Some(v)
    case Local(s) => if s < |locals| then Some(locals[s]) else None
    case Call(name, arg) =>
      if name !in ms then None else
      var a := Checked(arg, locals, ms);
      if a.None? then None else Checked(ms[name], [a.value], ms)
    case Neg(x) =>
      var v := Checked(x, locals, ms);
      if v.None? || v.value == MIN then None else Some(Wrap(0 - v.value))
    case Bin(op, l, r) =>
      var x := Checked(l, locals, ms);
      if x.None? then None else
      var y := Checked(r, locals, ms);
      if y.None? then None else CheckedOp(op, x.value, y.value)
  }

  /** Go's machine operators, with wrap-around; None when Go panics on a zero modulus.
      A shift count is converted to uint, so a negative one shifts everything out. */
  function UncheckedOp(op: Op, x: int64, y: int64): Option<int64> {
    match op
    case Add => Some(Wrap(x + y))
    case Sub => Some(Wrap(x - y))
    case Mul => Some(Wrap(x * y))
    case Mod =>
      if y == 0 then None else
      var r := TruncMod(x, y);
      Some(Wrap(if r != 0 && (r < 0) != (y < 0) then r + y else r))
    case BitAnd | BitOr | BitXor => Some(Word64(BitOpOf(op), x, y))
    case ShiftRight => Some(if 0 <= y < 64 then Wrap(FloorDiv(x, Pow2(y))) else if x < 0 then -1 else 0)
    case ShiftLeft => Some(if 0 <= y < 64 then Wrap(x * Pow2(y)) else 0)
    case Other => Some(0)
  }

  /** evaluateExpressionUnchecked: None when it panics. */
  function Unchecked(e: Expr, locals: seq<int64>, ms: Methods): Option<int64>
    decreases !CallFree(e), e
  {
    match e
    case Const(v) => Some(v)
    case Local(s) => if s < |locals| then Some(locals[s]) else None
    case Call(name, arg) =>
      if name !in ms then None else
      var a := Unchecked(arg, locals, ms);
      if a.None? then None else Unchecked(ms[name], [a.value], ms)
    case Neg(x) =>
      var v := Unchecked(x, locals, ms);
      if v.None? then None else Some(Wrap(0 - v.value))
    case Bin(op, l, r) =>
      var x := Unchecked(l, locals, ms);
      if x.None? then None else
      var y := Unchecked(r, locals, ms);
      if y.None? then None else UncheckedOp(op, x.value, y.value)
  }

  /** Operators whose Ruby meaning needs no precondition beyond the operands. */
  predicate LegalOperands(op: Op, y: int) {
    match op
    case Mod => y != 0
    case ShiftRight | ShiftLeft => 0 <= y < 64
    case Other => false
    case _ => true
  }

  /** Every node of e has a Ruby value, that value is a machine integer, and shift counts are in [0, 64). */
  ghost predicate Safe(e: Expr, env: seq<int>, ms: Methods)
    decreases !CallFree(e), e
  {
    RubyEval(e, env, ms).Some? && Fits(RubyEval(e, env, ms).value) &&
    match e
    case Const(_) => true
    case Local(_) => true
    case Call(name, arg) => Safe(arg, env, ms) && Safe(ms[name], [RubyEval(arg, env, ms).value], ms)
    case Neg(x) => Safe(x, env, ms)
    case Bin(op, l, r) =>
      Safe(l, env, ms) && Safe(r, env, ms) && LegalOperands(op, RubyEval(r, env, ms).value)
  }
}
