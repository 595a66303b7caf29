/** Recognizing acc = acc + delta and acc = acc - delta. */
module AotSelfDelta {
  // The accumulator may sit anywhere in a nest of sums.

  import opened Options
  import opened Int64
  import opened Bits
  import opened AotExpr
  import opened AotChecked

  predicate IsLocal(e: Expr, slot: nat) {
    e == Local(slot)
  }

  /** sign is +1 or -1. */
  datatype Delta = Delta(expr: Expr, sign: int)

  /** selfDeltaExpression. Only the innermost subtraction sets the sign; the outer sums are rebuilt around it unchanged. */
  function SelfDelta(e: Expr, acc: nat): (d: Option<Delta>)
    ensures d.Some? ==> d.value.sign == 1 || d.value.sign == -1
  {
    if e.Bin? && e.op == Add then
      if IsLocal(e.left, acc) then Some(Delta(e.right, 1))
      else if IsLocal(e.right, acc) then Some(Delta(e.left, 1))
      else if Contains(e.left, acc) && !Contains(e.right, acc) then
        var d := SelfDelta(e.left, acc);
        if d.None? then None else Some(Delta(Bin(Add, d.value.expr, e.right), d.value.sign))
      else if Contains(e.right, acc) && !Contains(e.left, acc) then
        var d := SelfDelta(e.right, acc);
        if d.None? then None else Some(Delta(Bin(Add, e.left, d.value.expr), d.value.sign))
      else None
    else if e.Bin? && e.op == Sub then
      if IsLocal(e.left, acc) then Some(Delta(e.right, -1))
      else if Contains(e.left, acc) && !Contains(e.right, acc) then
        var d := SelfDelta(e.left, acc);
        if d.None? then None else Some(Delta(Bin(Sub, d.value.expr, e.right), d.value.sign))
      else None
    else None
  }

  /** The net value of the sums wrapped around the innermost acc + x or acc - x. */
  function Outer(e: Expr, acc: nat, env: seq<int>, ms: Methods): int {
    if e.Bin? && e.op == Add && !IsLocal(e.left, acc) && !IsLocal(e.right, acc) then
      if Contains(e.left, acc) then Outer(e.left, acc, env, ms) + ValueOr0(e.right, env, ms)
      else Outer(e.right, acc, env, ms) + ValueOr0(e.left, env, ms)
    else if e.Bin? && e.op == Sub && !IsLocal(e.left, acc) then
      Outer(e.left, acc, env, ms) - ValueOr0(e.right, env, ms)
    else 0
  }

  function ValueOr0(e: Expr, env: seq<int>, ms: Methods): int {
    var v := RubyEval(e, env, ms);
    if v.Some? then v.value else 0
  }

  /** The rewriting keeps its meaning syntactically: the sign is +1, or nothing is wrapped around acc - x. */
  predicate Faithful(e: Expr, acc: nat) {
    var d := SelfDelta(e, acc);
    d.Some? && (d.value.sign == 1 || (e.Bin? && e.op == Sub && IsLocal(e.left, acc)))
  }

  /** What the update computes, exactly: acc + sign * delta, off by twice the wrapped terms when the sign is -1.
      The expression has a Ruby value iff its delta has one. */
  lemma {:induction false} SelfDeltaValue(e: Expr, acc: nat, env: seq<int>, ms: Methods)
    requires SelfDelta(e, acc).Some? && acc < |env|
    ensures var d := SelfDelta(e, acc).value;
            var x, v := RubyEval(d.expr, env, ms), RubyEval(e, env, ms);
            && (v.Some? <==> x.Some?)
            && (v.Some? ==> v.value == env[acc] + d.sign * x.value +
                                       (if d.sign == -1 then 2 * Outer(e, acc, env, ms) else 0))
  {
    if IsLocal(e.left, acc) || (e.op == Add && IsLocal(e.right, acc)) {
    } else if Contains(e.left, acc) {
      SelfDeltaValue(e.left, acc, env, ms);
    } else {
      SelfDeltaValue(e.right, acc, env, ms);
    }
  }

  /** The rewriting acc + sign * delta has the value of the update if and only if the sign is +1
      or the wrapped terms cancel. */
  lemma {:induction false} SelfDeltaExactIff(e: Expr, acc: nat, env: seq<int>, ms: Methods)
    requires SelfDelta(e, acc).Some? && acc < |env| && RubyEval(e, env, ms).Some?
    ensures var d := SelfDelta(e, acc).value;
            && RubyEval(d.expr, env, ms).Some?
            && (RubyEval(e, env, ms).value == env[acc] + d.sign * RubyEval(d.expr, env, ms).value
                <==> d.sign == 1 || Outer(e, acc, env, ms) == 0)
  {
    SelfDeltaValue(e, acc, env, ms);
  }

  lemma {:induction false} FaithfulValue(e: Expr, acc: nat, env: seq<int>, ms: Methods)
    requires Faithful(e, acc) && acc < |env|
    ensures var d := SelfDelta(e, acc).value;
            var x := RubyEval(d.expr, env, ms);
            RubyEval(e, env, ms) == if x.Some? then Some(env[acc] + d.sign * x.value) else None
  {
    SelfDeltaValue(e, acc, env, ms);
  }

  /** (acc - 1) + 3 adds 2, but is rewritten to acc - (1 + 3). */
  lemma {:induction false} LostInnerSign()
    ensures var e := Bin(Add, Bin(Sub, Local(0), Const(1)), Const(3));
            && SelfDelta(e, 0) == Some(Delta(Bin(Add, Const(1), Const(3)), -1))
            && RubyEval(e, [10], map[]) == Some(12)
            && RubyEval(Bin(Sub, Local(0), Bin(Add, Const(1), Const(3))), [10], map[]) == Some(6)
  {
    var inner := Bin(Sub, Local(0), Const(1));
    var e := Bin(Add, inner, Const(3));
    assert SelfDelta(inner, 0) == Some(Delta(Const(1), -1));
    assert RubyEval(inner, [10], map[]) == Some(9);
    assert RubyEval(Bin(Add, Const(1), Const(3)), [10], map[]) == Some(4);
  }

  /** The machine value of the update is the wrapped Ruby value even when a partial sum such as acc + a overflows:
      the nodes on the path to acc are sums, and wrap-around is a ring homomorphism. */
  lemma {:induction false} UncheckedSelfDelta(e: Expr, acc: nat, locals: seq<int64>, ms: Methods)
    requires SelfDelta(e, acc).Some? && acc < |locals|
    requires Safe(SelfDelta(e, acc).value.expr, locals, ms)
    ensures RubyEval(e, locals, ms).Some?
    ensures Unchecked(e, locals, ms) == Some(Wrap(RubyEval(e, locals, ms).value))
  {
    var d := SelfDelta(e, acc).value.expr;
    if IsLocal(e.left, acc) {
      UncheckedExact(e.right, locals, ms);
      UncheckedSum(e, locals, ms);
    } else if e.op == Add && IsLocal(e.right, acc) {
      UncheckedExact(e.left, locals, ms);
      UncheckedSum(e, locals, ms);
    } else if Contains(e.left, acc) {
      assert Safe(d.left, locals, ms) && Safe(d.right, locals, ms);
      UncheckedSelfDelta(e.left, acc, locals, ms);
      UncheckedExact(e.right, locals, ms);
      UncheckedSum(e, locals, ms);
    } else {
      assert Safe(d.left, locals, ms) && Safe(d.right, locals, ms);
      UncheckedSelfDelta(e.right, acc, locals, ms);
      UncheckedExact(e.left, locals, ms);
      UncheckedSum(e, locals, ms);
    }
  }

  lemma {:induction false} UncheckedSumOp(op: Op, x: int, y: int)
    requires op == Add || op == Sub
    ensures UncheckedOp(op, Wrap(x), Wrap(y)) == Some(Wrap(RubyOp(op, x, y).value))
  {
    WrapAdd(x, y);
    WrapSub(x, y);
  }

  /** One wrapping sum of a wrapped operand and another operand. */
  lemma {:induction false} UncheckedSum(e: Expr, locals: seq<int64>, ms: Methods)
    requires e.Bin? && (e.op == Add || e.op == Sub)
    requires RubyEval(e.left, locals, ms).Some? && RubyEval(e.right, locals, ms).Some?
    requires Unchecked(e.left, locals, ms) == Some(Wrap(RubyEval(e.left, locals, ms).value))
    requires Unchecked(e.right, locals, ms) == Some(Wrap(RubyEval(e.right, locals, ms).value))
    ensures RubyEval(e, locals, ms).Some?
    ensures Unchecked(e, locals, ms) == Some(Wrap(RubyEval(e, locals, ms).value))
  {
    var x, y := RubyEval(e.left, locals, ms).value, RubyEval(e.right, locals, ms).value;
    UncheckedSumOp(e.op, x, y);
  }

  // ---------------------------------------------------------------- what the update does not read

  /** The environments agree on every local the expression reads. */
  predicate SameReads(e: Expr, env: seq<int>, other: seq<int>) {
    |env| == |other| && forall s :: 0 <= s < |env| && Contains(e, s) ==> env[s] == other[s]
  }

  lemma {:induction false} SameReadsSameValue(e: Expr, env: seq<int>, other: seq<int>, ms: Methods)
    requires SameReads(e, env, other)
    ensures RubyEval(e, env, ms) == RubyEval(e, other, ms)
  {
    match e
    case Const(_) =>
    case Local(_) =>
    case Call(_, arg) => SameReadsSameValue(arg, env, other, ms);
    case Neg(x) => SameReadsSameValue(x, env, other, ms);
    case Bin(_, l, r) =>
      SameReadsSameValue(l, env, other, ms);
      SameReadsSameValue(r, env, other, ms);
  }

  /** An update whose delta does not read the accumulator shifts with it. */
  lemma {:induction false} UpdateShifts(e: Expr, acc: nat, env: seq<int>, v: int, ms: Methods)
    requires SelfDelta(e, acc).Some? && acc < |env| && !Contains(SelfDelta(e, acc).value.expr, acc)
    requires RubyEval(e, env, ms).Some?
    ensures RubyEval(e, env[acc := v], ms) == Some(RubyEval(e, env, ms).value + v - env[acc])
  {
    var other := env[acc := v];
    if IsLocal(e.left, acc) {
      SameReadsSameValue(e.right, env, other, ms);
    } else if e.op == Add && IsLocal(e.right, acc) {
      SameReadsSameValue(e.left, env, other, ms);
    } else if Contains(e.left, acc) {
      UpdateShifts(e.left, acc, env, v, ms);
      SameReadsSameValue(e.right, env, other, ms);
    } else {
      UpdateShifts(e.right, acc, env, v, ms);
      SameReadsSameValue(e.left, env, other, ms);
    }
  }
}
