/** Closed forms of loops that add an affine delta. */
module AotAffine {
  // A loop adding a delta that is affine in the counter collapses to one multiplication.

  import opened Options
  import opened Int64
  import opened AotExpr
  import opened AotChecked
  import opened AotSelfDelta
  import opened AotLoops
  import opened AotCounted

  /** a * counter + b */
  datatype Affine = Affine(a: int, b: int)

  /** linearCounterExpressionWithMethods. */
  function Linear(e: Expr, counter: nat, ms: Methods): Option<Affine>
    decreases !CallFree(e), e
  {
    match e
    case Const(v) => Some(Affine(0, v))
    case Local(s) => if s == counter then Some(Affine(1, 0)) else None
    case Call(name, arg) =>
      if name !in ms then None else
      var x, m := Linear(arg, counter, ms), Linear(ms[name], 0, ms);
      if x.None? || m.None? then None
      else Some(Affine(m.value.a * x.value.a, m.value.a * x.value.b + m.value.b))
    case Neg(x) =>
      var v := Linear(x, counter, ms);
      if v.None? then None else Some(Affine(-v.value.a, -v.value.b))
    case Bin(op, l, r) =>
      var x, y := Linear(l, counter, ms), Linear(r, counter, ms);
      if x.None? || y.None? then None else LinearOp(op, x.value, y.value)
  }

  function LinearOp(op: Op, x: Affine, y: Affine): Option<Affine> {
    match op
    case Add => Some(Affine(x.a + y.a, x.b + y.b))
    case Sub => Some(Affine(x.a - y.a, x.b - y.b))
    case Mul =>
      if x.a == 0 && y.a == 0 then Some(Affine(0, x.b * y.b))
      else if x.a == 0 then Some(Affine(x.b * y.a, x.b * y.b))
      else if y.a == 0 then Some(Affine(y.b * x.a, y.b * x.b))
      else None
    case _ => None
  }

  function Apply(f: Affine, c: int): int {
    f.a * c + f.b
  }

  lemma {:induction false} ScaleAffine(k: int, f: Affine, c: int)
    ensures k * Apply(f, c) == (k * f.a) * c + k * f.b
  {
    assert k * (f.a * c) == (k * f.a) * c;
  }

  lemma {:induction false} ComposeAffine(m: Affine, x: Affine, c: int)
    ensures Apply(m, Apply(x, c)) == Apply(Affine(m.a * x.a, m.a * x.b + m.b), c)
  {
    ScaleAffine(m.a, x, c);
  }

  lemma {:induction false} NegateAffine(x: Affine, c: int)
    ensures -Apply(x, c) == Apply(Affine(-x.a, -x.b), c)
  {
    assert (-x.a) * c == -(x.a * c);
  }

  /** The affine form is the Ruby value at every counter value, through nested calls. */
  lemma {:induction false} LinearValue(e: Expr, counter: nat, env: seq<int>, ms: Methods)
    requires Linear(e, counter, ms).Some? && counter < |env|
    ensures RubyEval(e, env, ms) == Some(Apply(Linear(e, counter, ms).value, env[counter]))
    decreases !CallFree(e), e
  {
    var c := env[counter];
    match e
    case Const(_) =>
    case Local(_) =>
    case Call(name, arg) =>
      LinearValue(arg, counter, env, ms);
      var x := Linear(arg, counter, ms).value;
      LinearValue(ms[name], 0, [Apply(x, c)], ms);
      ComposeAffine(Linear(ms[name], 0, ms).value, x, c);
    case Neg(x) =>
      LinearValue(x, counter, env, ms);
      NegateAffine(Linear(x, counter, ms).value, c);
    case Bin(op, l, r) =>
      LinearValue(l, counter, env, ms);
      LinearValue(r, counter, env, ms);
      LinearOpValue(op, Linear(l, counter, ms).value, Linear(r, counter, ms).value, c);
  }

  lemma {:induction false} LinearOpValue(op: Op, x: Affine, y: Affine, c: int)
    requires LinearOp(op, x, y).Some?
    ensures RubyOp(op, Apply(x, c), Apply(y, c)) == Some(Apply(LinearOp(op, x, y).value, c))
  {
    match op
    case Add => assert (x.a + y.a) * c == x.a * c + y.a * c;
    case Sub => assert (x.a - y.a) * c == x.a * c - y.a * c;
    case Mul => LinearProduct(x, y, c);
  }

  lemma {:induction false} LinearProduct(x: Affine, y: Affine, c: int)
    requires LinearOp(Mul, x, y).Some?
    ensures Apply(x, c) * Apply(y, c) == Apply(LinearOp(Mul, x, y).value, c)
  {
    if x.a == 0 {
      ScaleAffine(x.b, y, c);
    } else {
      ScaleAffine(y.b, x, c);
      assert Apply(x, c) * y.b == y.b * Apply(x, c);
    }
  }

  /** The counter sum count * (2 * first + (count - 1) * step) / 2, halved by Go's truncating division. */
  function CounterSum(first: int, step: int, count: int): int {
    TruncDiv(((count - 1) * step + 2 * first) * count, 2)
  }

  /** affineAccumulatorValue. */
  function AccumulatorValue(initial: int64, delta: Expr, sign: int, counter: nat, first: int64, step: int64, count: int64,
                            ms: Methods): Option<int64> {
    var f := Linear(delta, counter, ms);
    if f.None? || count < 0 then None else
    var total := f.value.a * CounterSum(first, step, count) + f.value.b * count;
    var result := initial + (if sign < 0 then -total else total);
    if Fits(result) then Some(result) else None
  }

  /** Adding the affine delta once per iteration. */
  function AffineTotal(f: Affine, first: int, step: int, k: nat): int {
    if k == 0 then 0 else AffineTotal(f, first, step, k - 1) + Apply(f, At(first, step, k - 1))
  }

  function CounterTotal(first: int, step: int, k: nat): int {
    if k == 0 then 0 else CounterTotal(first, step, k - 1) + At(first, step, k - 1)
  }

  lemma {:induction false} AffineSplits(f: Affine, first: int, step: int, k: nat)
    ensures AffineTotal(f, first, step, k) == f.a * CounterTotal(first, step, k) + f.b * k
  {
    if k == 0 {
    } else {
      AffineSplits(f, first, step, k - 1);
      var s, t := CounterTotal(first, step, k - 1), At(first, step, k - 1);
      assert f.a * (s + t) == f.a * s + f.a * t;
      assert f.b * (k - 1) == f.b * k - f.b;
    }
  }

  lemma {:induction false} DoubleCounterTotal(first: int, step: int, k: nat)
    ensures 2 * CounterTotal(first, step, k) == ((k - 1) * step + 2 * first) * k
  {
    if k == 0 {
    } else {
      DoubleCounterTotal(first, step, k - 1);
      var s := (k - 1) * step;
      assert (k - 1 - 1) * step == s - step;
      assert (s - step + 2 * first) * (k - 1) == (s + 2 * first) * k - step * k - (s - step + 2 * first) by {
        Distribute(s + 2 * first, step, k);
        assert (s - step + 2 * first) * k == (s + 2 * first - step) * k;
        assert (s - step + 2 * first) * (k - 1) == (s - step + 2 * first) * k - (s - step + 2 * first);
      }
      assert step * k == s + step;
    }
  }

  lemma {:induction false} Distribute(a: int, b: int, k: int)
    ensures (a - b) * k == a * k - b * k
  {
  }

  /** The closed form of the counter sum is exact for every start and step. */
  lemma {:induction false} CounterSumExact(first: int, step: int, count: nat)
    ensures CounterSum(first, step, count) == CounterTotal(first, step, count)
  {
    DoubleCounterTotal(first, step, count);
  }

  /** The total of the wrapped terms that the rewriting of the update loses (see SelfDeltaValue). */
  ghost function OuterTotal(l: Loop, locals: seq<int>, k: nat): int
    requires l.sum < |locals| && l.counter < |locals| && RubyRun(l, locals, k).Some?
  {
    if k == 0 then 0 else
    OuterTotal(l, locals, k - 1) +
    Outer(l.expr, l.sum, RubyRun(l, locals, k - 1).value[l.counter := At(l.start, l.step, k - 1)], l.methods)
  }

  /** Ruby's accumulator after k iterations of an affine self-delta update. */
  lemma {:induction false} AffineRun(l: Loop, locals: seq<int>, k: nat)
    requires l.sum < |locals| && l.counter < |locals| && l.sum != l.counter
    requires SelfDelta(l.expr, l.sum).Some? && Linear(SelfDelta(l.expr, l.sum).value.expr, l.counter, l.methods).Some?
    ensures RubyRun(l, locals, k).Some?
    ensures var d := SelfDelta(l.expr, l.sum).value;
            RubyRun(l, locals, k).value[l.sum] ==
              locals[l.sum] + d.sign * AffineTotal(Linear(d.expr, l.counter, l.methods).value, l.start, l.step, k)
              + (if d.sign == -1 then 2 * OuterTotal(l, locals, k) else 0)
  {
    if k == 0 {
    } else {
      AffineRun(l, locals, k - 1);
      var d := SelfDelta(l.expr, l.sum).value;
      var frame := RubyRun(l, locals, k - 1).value[l.counter := At(l.start, l.step, k - 1)];
      LinearValue(d.expr, l.counter, frame, l.methods);
      SelfDeltaValue(l.expr, l.sum, frame, l.methods);
    }
  }

  // ---------------------------------------------------------------- the lost terms, in closed form

  function LinearOr0(e: Expr, counter: nat, ms: Methods): Affine {
    var f := Linear(e, counter, ms);
    if f.Some? then f.value else Affine(0, 0)
  }

  /** The wrapped terms that the rewriting loses (see Outer), as an affine form of the counter. */
  function OuterForm(e: Expr, acc: nat, counter: nat, ms: Methods): Affine {
    if e.Bin? && e.op == Add && !IsLocal(e.left, acc) && !IsLocal(e.right, acc) then
      if Contains(e.left, acc) then Plus(OuterForm(e.left, acc, counter, ms), LinearOr0(e.right, counter, ms), 1)
      else Plus(OuterForm(e.right, acc, counter, ms), LinearOr0(e.left, counter, ms), 1)
    else if e.Bin? && e.op == Sub && !IsLocal(e.left, acc) then
      Plus(OuterForm(e.left, acc, counter, ms), LinearOr0(e.right, counter, ms), -1)
    else Affine(0, 0)
  }

  function Plus(x: Affine, y: Affine, sign: int): Affine {
    Affine(x.a + sign * y.a, x.b + sign * y.b)
  }

  lemma {:induction false} PlusValue(x: Affine, y: Affine, sign: int, c: int)
    requires sign == 1 || sign == -1
    ensures Apply(Plus(x, y, sign), c) == Apply(x, c) + sign * Apply(y, c)
  {
    assert (x.a + y.a) * c == x.a * c + y.a * c && (x.a - y.a) * c == x.a * c - y.a * c;
  }

  /** An affine delta has affine wrapped terms. */
  lemma {:induction false} OuterIsAffine(e: Expr, acc: nat, counter: nat, env: seq<int>, ms: Methods)
    requires SelfDelta(e, acc).Some? && Linear(SelfDelta(e, acc).value.expr, counter, ms).Some? && counter < |env|
    ensures Outer(e, acc, env, ms) == Apply(OuterForm(e, acc, counter, ms), env[counter])
  {
    if IsLocal(e.left, acc) || (e.op == Add && IsLocal(e.right, acc)) {
    } else if Contains(e.left, acc) {
      OuterIsAffine(e.left, acc, counter, env, ms);
      LinearValue(e.right, counter, env, ms);
      PlusValue(OuterForm(e.left, acc, counter, ms), LinearOr0(e.right, counter, ms), if e.op == Add then 1 else -1, env[counter]);
    } else {
      OuterIsAffine(e.right, acc, counter, env, ms);
      LinearValue(e.left, counter, env, ms);
      PlusValue(OuterForm(e.right, acc, counter, ms), LinearOr0(e.left, counter, ms), 1, env[counter]);
    }
  }

  /** The total of the lost terms over a run of `count` iterations, without running it. */
  function LostTotal(l: Loop, count: int): int {
    LostSum(OuterForm(l.expr, l.sum, l.counter, l.methods), l.start, l.step, count)
  }

  function LostSum(f: Affine, first: int, step: int, count: int): int {
    f.a * CounterSum(first, step, count) + f.b * count
  }

  lemma {:induction false} OuterTotalIsLost(l: Loop, locals: seq<int>, k: nat)
    requires l.sum < |locals| && l.counter < |locals| && RubyRun(l, locals, k).Some?
    requires SelfDelta(l.expr, l.sum).Some? && Linear(SelfDelta(l.expr, l.sum).value.expr, l.counter, l.methods).Some?
    ensures OuterTotal(l, locals, k) == LostTotal(l, k)
  {
    var f := OuterForm(l.expr, l.sum, l.counter, l.methods);
    OuterTotalIsAffine(l, locals, k);
    AffineSplits(f, l.start, l.step, k);
    CounterSumExact(l.start, l.step, k);
  }

  lemma {:induction false} OuterTotalIsAffine(l: Loop, locals: seq<int>, k: nat)
    requires l.sum < |locals| && l.counter < |locals| && RubyRun(l, locals, k).Some?
    requires SelfDelta(l.expr, l.sum).Some? && Linear(SelfDelta(l.expr, l.sum).value.expr, l.counter, l.methods).Some?
    ensures OuterTotal(l, locals, k) == AffineTotal(OuterForm(l.expr, l.sum, l.counter, l.methods), l.start, l.step, k)
  {
    if k > 0 {
      OuterTotalIsAffine(l, locals, k - 1);
      OuterIsAffine(l.expr, l.sum, l.counter, RubyRun(l, locals, k - 1).value[l.counter := At(l.start, l.step, k - 1)], l.methods);
    }
  }

  /** The kernel's answer is the loop's answer if and only if the update's sign is +1 or the lost terms a * counter + b
      sum to zero, which takes one multiplication to check. */
  lemma {:induction false} AffineKernelExactIff(l: Loop, locals: seq<int64>, count: int64)
    requires l.sum < |locals| && l.counter < |locals| && l.sum != l.counter && count >= 0
    requires SelfDelta(l.expr, l.sum).Some?
    requires var d := SelfDelta(l.expr, l.sum).value;
             AccumulatorValue(locals[l.sum], d.expr, d.sign, l.counter, l.start, l.step, count, l.methods).Some?
    ensures RubyRun(l, locals, count).Some?
    ensures var d := SelfDelta(l.expr, l.sum).value;
            AccumulatorValue(locals[l.sum], d.expr, d.sign, l.counter, l.start, l.step, count, l.methods)
              == Some(RubyRun(l, locals, count).value[l.sum])
            <==> d.sign == 1 || LostTotal(l, count) == 0
  {
    var d := SelfDelta(l.expr, l.sum).value;
    var f := Linear(d.expr, l.counter, l.methods).value;
    AffineRun(l, locals, count);
    AffineSplits(f, l.start, l.step, count);
    CounterSumExact(l.start, l.step, count);
    OuterTotalIsLost(l, locals, count);
  }
}
