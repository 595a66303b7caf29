/** Interval evaluation of expressions over machine integers. */
module AotInterval {
  import opened Options
  import opened Int64
  import opened Bits
  import opened AotExpr

  datatype Interval = Interval(min: int64, max: int64)

  /** The intervals of the locals the analysis knows; a local is known iff it is a key. */
  type Intervals = map<nat, Interval>

  function FromBounds(min: int, max: int): Option<Interval> {
    if Fits(min) && Fits(max) then Some(Interval(min, max)) else None
  }

  function AddIntervals(a: Interval, b: Interval): Option<Interval> {
    FromBounds(a.min + b.min, a.max + b.max)
  }

  function SubtractIntervals(a: Interval, b: Interval): Option<Interval> {
    FromBounds(a.min - b.max, a.max - b.min)
  }

  function MultiplyIntervals(a: Interval, b: Interval): Option<Interval> {
    var p0, p1, p2, p3 := a.min * b.min, a.min * b.max, a.max * b.min, a.max * b.max;
    FromBounds(Min(Min(Min(p0, p1), p2), p3), Max(Max(Max(p0, p1), p2), p3))
  }

  function NegateInterval(a: Interval): Option<Interval> {
    FromBounds(0 - a.max, 0 - a.min)
  }

  function ScaleInterval(a: Interval, count: int64): Option<Interval> {
    MultiplyIntervals(a, Interval(count, count))
  }

  function ModInterval(b: Interval): Option<Interval> {
    if b.min <= 0 <= b.max then None else
    var bound := Max(Abs(b.min), Abs(b.max)) - 1;
    if bound < 0 || !Fits(bound) then None else Some(Interval(0 - bound, bound))
  }

  function IntervalOp(op: Op, a: Interval, b: Interval): Option<Interval> {
    match op
    case Add => AddIntervals(a, b)
    case Sub => SubtractIntervals(a, b)
    case Mul => MultiplyIntervals(a, b)
    case Mod => ModInterval(b)
    case _ => None
  }

  function EvalInterval(e: Expr, ivs: Intervals, ms: Methods): Option<Interval>
    decreases !CallFree(e), e
  {
    match e
    case Const(v) => Some(Interval(v, v))
    case Local(s) => if s in ivs then Some(ivs[s]) else None
    case Call(name, arg) =>
      if name !in ms then None else
      var a := EvalInterval(arg, ivs, ms);
      if a.None? then None else EvalInterval(ms[name], map[0 := a.value], ms)
    case Neg(x) =>
      var v := EvalInterval(x, ivs, ms);
      if v.None? then None else NegateInterval(v.value)
    case Bin(op, l, r) =>
      var x := EvalInterval(l, ivs, ms);
      if x.None? then None else
      var y := EvalInterval(r, ivs, ms);
      if y.None? then None else IntervalOp(op, x.value, y.value)
  }

  predicate In(x: int, i: Interval) {
    i.min <= x <= i.max
  }

  /** Every known local that e reads exists and lies in its interval. */
  predicate Within(e: Expr, env: seq<int>, ivs: Intervals) {
    forall s :: s in ivs && Contains(e, s) ==> s < |env| && In(env[s], ivs[s])
  }

  lemma {:induction false} ProductMonotone(x: int, lo: int, hi: int, y: int)
    requires lo <= x <= hi
    ensures Min(lo * y, hi * y) <= x * y <= Max(lo * y, hi * y)
  {
    if y >= 0 {
      assert (x - lo) * y >= 0 && (hi - x) * y >= 0;
      assert (x - lo) * y == x * y - lo * y && (hi - x) * y == hi * y - x * y;
    } else {
      assert (x - lo) * (-y) >= 0 && (hi - x) * (-y) >= 0;
      assert (x - lo) * (-y) == lo * y - x * y && (hi - x) * (-y) == x * y - hi * y;
    }
  }

  lemma {:induction false} ProductIn(x: int, a: Interval, y: int, b: Interval, i: Interval)
    requires In(x, a) && In(y, b) && MultiplyIntervals(a, b) == Some(i)
    ensures In(x * y, i)
  {
    var a0: int, a1: int, b0: int, b1: int := a.min, a.max, b.min, b.max;
    ProductMonotone(x, a0, a1, y);
    ProductMonotone(y, b0, b1, a0);
    ProductMonotone(y, b0, b1, a1);
    assert y * a0 == a0 * y && y * a1 == a1 * y;
    assert b0 * a0 == a0 * b0 && b1 * a0 == a0 * b1 && b0 * a1 == a1 * b0 && b1 * a1 == a1 * b1;
  }

  lemma {:induction false} OpSound(op: Op, x: int, a: Interval, y: int, b: Interval, i: Interval)
    requires In(x, a) && In(y, b) && IntervalOp(op, a, b) == Some(i)
    ensures LegalOperands(op, y) && In(RubyOp(op, x, y).value, i)
  {
    match op
    case Add =>
    case Sub =>
    case Mul => ProductIn(x, a, y, b, i);
    case Mod => FloorModRange(x, y);
  }

  /** Every pair of operands from the intervals is legal, and the result is a machine integer. */
  ghost predicate Everywhere(op: Op, a: Interval, b: Interval) {
    forall x, y :: In(x, a) && In(y, b) ==> LegalOperands(op, y) && Fits(RubyOp(op, x, y).value)
  }

  /** Some operands give v. */
  ghost predicate Attained(op: Op, a: Interval, b: Interval, v: int) {
    exists x, y :: In(x, a) && In(y, b) && RubyOp(op, x, y) == Some(v)
  }

  /** An operator's interval exists if and only if every choice of operands is legal and fits; for sums, differences and
      products both ends are attained. */
  lemma {:induction false} OpComplete(op: Op, a: Interval, b: Interval)
    requires (op == Add || op == Sub || op == Mul || op == Mod) && a.min <= a.max && b.min <= b.max
    ensures IntervalOp(op, a, b).Some? <==> Everywhere(op, a, b)
    ensures op != Mod && IntervalOp(op, a, b).Some? ==>
              Attained(op, a, b, IntervalOp(op, a, b).value.min) && Attained(op, a, b, IntervalOp(op, a, b).value.max)
  {
    Corners(op, a, b);
    if IntervalOp(op, a, b).Some? {
      forall x, y | In(x, a) && In(y, b) ensures LegalOperands(op, y) && Fits(RubyOp(op, x, y).value) {
        OpSound(op, x, a, y, b, IntervalOp(op, a, b).value);
      }
    } else if op == Mod {
      assert In(a.min, a) && In(0, b) && !LegalOperands(op, 0);
    }
  }

  /** The ends of an operator's interval are results at corners; without an interval some corner does not fit. */
  lemma {:induction false} Corners(op: Op, a: Interval, b: Interval)
    requires (op == Add || op == Sub || op == Mul || op == Mod) && a.min <= a.max && b.min <= b.max
    ensures In(a.min, a) && In(a.max, a) && In(b.min, b) && In(b.max, b)
    ensures op == Mod && IntervalOp(op, a, b).None? ==> In(0, b)
    ensures op != Mod ==>
      var p0, p1, p2, p3 := RubyOp(op, a.min, b.min), RubyOp(op, a.min, b.max), RubyOp(op, a.max, b.min), RubyOp(op, a.max, b.max);
      match IntervalOp(op, a, b)
      case Some(i) => Some(i.min as int) in {p0, p1, p2, p3} && Some(i.max as int) in {p0, p1, p2, p3}
      case None => !Fits(p0.value) || !Fits(p1.value) || !Fits(p2.value) || !Fits(p3.value)
  {
  }

  /** Interval evaluation covers every node: on any environment within the intervals the whole expression is safe,
      and its Ruby value lies in the computed interval. */
  lemma {:induction false} IntervalSound(e: Expr, env: seq<int>, ivs: Intervals, ms: Methods)
    requires Within(e, env, ivs) && EvalInterval(e, ivs, ms).Some?
    ensures Safe(e, env, ms) && In(RubyEval(e, env, ms).value, EvalInterval(e, ivs, ms).value)
    decreases !CallFree(e), e
  {
    match e
    case Const(_) =>
    case Local(s) => assert Contains(e, s);
    case Call(name, arg) =>
      IntervalSound(arg, env, ivs, ms);
      IntervalSound(ms[name], [RubyEval(arg, env, ms).value], map[0 := EvalInterval(arg, ivs, ms).value], ms);
    case Neg(x) => IntervalSound(x, env, ivs, ms);
    case Bin(op, l, r) =>
      IntervalSound(l, env, ivs, ms);
      IntervalSound(r, env, ivs, ms);
      OpSound(op, RubyEval(l, env, ms).value, EvalInterval(l, ivs, ms).value,
              RubyEval(r, env, ms).value, EvalInterval(r, ivs, ms).value, EvalInterval(e, ivs, ms).value);
  }
}
