/** When the kernels answer. */
module AotKernels {
  // Each kernel answers on exactly the plans described here, with the number written as a sum over the iterations.

  import opened Options
  import opened Int64
  import opened AotExpr
  import opened AotSelfDelta
  import opened AotLoops
  import opened AotValidate
  import opened AotCounted
  import opened AotAffine
  import opened AotPeriodic
  import opened AotTimes
  import opened AotRange
  import opened AotWhile
  import opened AotComplete

  // ---------------------------------------------------------------- what is recognized

  /** A frame that holds the counter. */
  function Only(counter: nat, c: int): (env: seq<int>)
    ensures |env| == counter + 1 && env[counter] == c
  {
    seq(counter + 1, _ => c)
  }

  /** The expression has the same value at the first two counter values. */
  predicate Unmoved(e: Expr, counter: nat, ms: Methods) {
    RubyEval(e, Only(counter, 0), ms) == RubyEval(e, Only(counter, 1), ms)
  }

  /** Constants and the counter under sums, differences, negations, affine methods, and products with an unmoved factor. */
  predicate AffineTree(e: Expr, counter: nat, ms: Methods)
    decreases !CallFree(e), e
  {
    match e
    case Const(_) => true
    case Local(s) => s == counter
    case Call(name, arg) => name in ms && AffineTree(arg, counter, ms) && AffineTree(ms[name], 0, ms)
    case Neg(x) => AffineTree(x, counter, ms)
    case Bin(op, l, r) =>
      && (op == Add || op == Sub || op == Mul) && AffineTree(l, counter, ms) && AffineTree(r, counter, ms)
      && (op == Mul ==> Unmoved(l, counter, ms) || Unmoved(r, counter, ms))
  }

  lemma {:induction false} UnmovedIff(e: Expr, counter: nat, ms: Methods)
    requires Linear(e, counter, ms).Some?
    ensures Unmoved(e, counter, ms) <==> Linear(e, counter, ms).value.a == 0
  {
    var f := Linear(e, counter, ms).value;
    LinearValue(e, counter, Only(counter, 0), ms);
    LinearValue(e, counter, Only(counter, 1), ms);
    hide Linear, RubyEval, Only;
    assert Apply(f, 0) == f.b && Apply(f, 1) == f.a + f.b;
  }

  /** Exactly these trees have an affine form. */
  lemma {:induction false} LinearIff(e: Expr, counter: nat, ms: Methods)
    ensures Linear(e, counter, ms).Some? <==> AffineTree(e, counter, ms)
    decreases !CallFree(e), e
  {
    match e
    case Const(_) =>
    case Local(_) =>
    case Call(name, arg) => if name in ms { LinearIff(arg, counter, ms); LinearIff(ms[name], 0, ms); }
    case Neg(x) => LinearIff(x, counter, ms);
    case Bin(op, l, r) =>
      LinearIff(l, counter, ms);
      LinearIff(r, counter, ms);
      hide Unmoved;
      if Linear(l, counter, ms).Some? { UnmovedIff(l, counter, ms); }
      if Linear(r, counter, ms).Some? { UnmovedIff(r, counter, ms); }
  }

  /** The accumulator with one operand added, or one subtracted, and around it sums and differences that do not read it again. */
  predicate Spine(e: Expr, acc: nat) {
    e.Bin? &&
    match e.op
    case Add =>
      || e.left == Local(acc) || e.right == Local(acc)
      || (Spine(e.left, acc) && !Contains(e.right, acc)) || (Spine(e.right, acc) && !Contains(e.left, acc))
    case Sub => e.left == Local(acc) || (Spine(e.left, acc) && !Contains(e.right, acc))
    case _ => false
  }

  lemma {:induction false} SpineReads(e: Expr, acc: nat)
    requires Spine(e, acc)
    ensures Contains(e, acc)
  {
    if e.left != Local(acc) && e.right != Local(acc) {
      if Spine(e.left, acc) { SpineReads(e.left, acc); } else { SpineReads(e.right, acc); }
    }
  }

  /** Exactly these updates are recognized. */
  lemma {:induction false} SelfDeltaIff(e: Expr, acc: nat)
    ensures SelfDelta(e, acc).Some? <==> Spine(e, acc)
  {
    if e.Bin? && (e.op == Add || e.op == Sub) && e.left != Local(acc) && (e.op == Sub || e.right != Local(acc)) {
      SelfDeltaIff(e.left, acc);
      SelfDeltaIff(e.right, acc);
      if Spine(e.left, acc) { SpineReads(e.left, acc); }
      if Spine(e.right, acc) { SpineReads(e.right, acc); }
    }
  }

  lemma {:induction false} CounterStepIff(e: Expr, counter: nat, step: int64)
    ensures CounterStep(e, counter) == Some(step)
            <==> step > 0 && (e == Bin(Add, Local(counter), Const(step)) || e == Bin(Add, Const(step), Local(counter)))
  {
  }

  // ---------------------------------------------------------------- the closed form

  /** What Ruby's values of the delta add up to over k iterations. */
  function DeltaTotal(e: Expr, counter: nat, ms: Methods, first: int, step: int, k: nat): int {
    if k == 0 then 0 else
    DeltaTotal(e, counter, ms, first, step, k - 1) + ValueOr0(e, Only(counter, At(first, step, k - 1)), ms)
  }

  lemma {:induction false} TotalIsAffine(e: Expr, counter: nat, ms: Methods, first: int, step: int, k: nat)
    requires Linear(e, counter, ms).Some?
    ensures DeltaTotal(e, counter, ms, first, step, k) == AffineTotal(Linear(e, counter, ms).value, first, step, k)
  {
    if k > 0 {
      TotalIsAffine(e, counter, ms, first, step, k - 1);
      LinearValue(e, counter, Only(counter, At(first, step, k - 1)), ms);
    }
  }

  /** The closed form answers v if and only if the delta is affine and v is the initial value with all deltas added, or all
      subtracted. */
  lemma {:induction false} AccumulatorAnswersIff(initial: int64, delta: Expr, sign: int, counter: nat, first: int64, step: int64, count: int64,
                                                 ms: Methods, v: int64)
    requires (sign == 1 || sign == -1) && count >= 0
    ensures AccumulatorValue(initial, delta, sign, counter, first, step, count, ms) == Some(v)
            <==> AffineTree(delta, counter, ms) && v == initial + sign * DeltaTotal(delta, counter, ms, first, step, count)
  {
    LinearIff(delta, counter, ms);
    if Linear(delta, counter, ms).Some? {
      TotalIsAffine(delta, counter, ms, first, step, count);
      AffineSplits(Linear(delta, counter, ms).value, first, step, count);
      CounterSumExact(first, step, count);
    }
    hide Linear, AffineTree, DeltaTotal, AffineTotal, CounterSum, CounterTotal;
  }

  // ---------------------------------------------------------------- the kernels

  /** The number the kernel of a counted loop prints after n iterations, and the plans it prints it for. */
  predicate Answers(initial: int64, e: Expr, acc: nat, counter: nat, first: int, step: int, n: nat, ms: Methods, v: int64) {
    && Spine(e, acc)
    && (n == 0 ==> v == initial)
    && (n > 0 ==>
          var d := SelfDelta(e, acc);
          d.Some? && AffineTree(d.value.expr, counter, ms)
          && v == initial + d.value.sign * DeltaTotal(d.value.expr, counter, ms, first, step, n))
  }

  lemma {:induction false} TimesAnswersIff(p: TimesPlan, v: int64)
    requires WellFormed(p)
    ensures AffineTimes(p) == Some(v)
            <==> p.sum == p.result && Answers(p.initial[p.result], p.expr, p.sum, p.counter, 0, 1, Iterations(p), p.methods, v)
  {
    SelfDeltaIff(p.expr, p.sum);
    var d := SelfDelta(p.expr, p.sum);
    hide SelfDelta, Spine, AffineTree, DeltaTotal, AccumulatorValue;
    if d.Some? && p.initial[p.count] > 0 {
      AccumulatorAnswersIff(p.initial[p.result], d.value.expr, d.value.sign, p.counter, 0, 1, p.initial[p.count], p.methods, v);
    }
  }

  lemma {:induction false} RangeAnswersIff(p: RangePlan, v: int64)
    requires WellFormedRange(p)
    ensures AffineRange(p) == Some(v)
            <==> p.sum == p.result && Fits(Trips(p))
                 && Answers(p.initial[p.sum], p.expr, p.sum, p.counter, p.initial[p.start], Step(p), Trips(p), p.methods, v)
  {
    SelfDeltaIff(p.expr, p.sum);
    TripsCounted(p);
    var d := SelfDelta(p.expr, p.sum);
    hide SelfDelta, Spine, AffineTree, DeltaTotal, AccumulatorValue, IterationCount, Trips;
    if d.Some? && Fits(Trips(p)) {
      AccumulatorAnswersIff(p.initial[p.sum], d.value.expr, d.value.sign, p.counter, p.initial[p.start], Step(p), Trips(p), p.methods, v);
    }
  }

  /** The period kernel answers with the sum of the counters modulo the period. */
  lemma {:induction false} PeriodicAnswersIff(p: TimesPlan, v: int64)
    requires WellFormed(p) && p.counter != p.sum
    ensures PeriodicTimes(p) == Some(v)
            <==> p.sum == p.result && PeriodicLoop(TimesLoop(p))
                 && v == p.initial[p.sum] + SelfDelta(p.expr, p.sum).value.sign * Prefix(LoopPeriod(TimesLoop(p)), Iterations(p))
  {
    if PeriodicLoop(TimesLoop(p)) {
      var m := LoopPeriod(TimesLoop(p));
      RecognizedIff(SelfDelta(p.expr, p.sum).value.expr, p.counter, m);
      assert 1 <= m <= 1_000_000 && Prefix(m, 0) == 0 && Iterations(p) == Max(0, p.initial[p.count]);
    }
    hide SelfDelta, PeriodOf, PeriodicLoop, LoopPeriod, Prefix, WellFormed;
  }

  /** The while kernel, for a loop whose test succeeds n times: in either order, with the counter one step ahead when it comes first. */
  lemma {:induction false} WhileAnswersIff(p: WhilePlan, n: nat, v: int64)
    requires WellFormedWhile(p) && StepOf(p).Some? && TripCount(n, p.initial[p.counter], p.limit, StepOf(p).value, false)
    ensures AffineWhile(p) == Some(v)
            <==> && KernelShape(p) && Fits(n) && (n > 0 ==> Fits(At(p.initial[p.counter], StepOf(p).value, n)))
                 && Answers(Start(p)[p.result], Update(p), p.result, p.counter,
                            At(p.initial[p.counter], StepOf(p).value, if ResultIndex(p) == 1 then 1 else 0), StepOf(p).value, n, p.methods, v)
  {
    var start, step := p.initial[p.counter], StepOf(p).value;
    StepIsPositive(p);
    CountIs(start, p.limit, step, n);
    if KernelShape(p) && 0 < n <= MAX && Fits(At(start, step, n)) {
      SelfDeltaIff(Update(p), p.result);
      var d := SelfDelta(Update(p), p.result).value;
      var k := if ResultIndex(p) == 1 then 1 else 0;
      Between(start, step, k, n);
      hide SelfDelta, Spine, AffineTree, DeltaTotal, AccumulatorValue, IterationCount, StepOf, At;
      AccumulatorAnswersIff(Start(p)[p.result], d.expr, d.sign, p.counter, At(start, step, k), step, n, p.methods, v);
    } else if KernelShape(p) {
      SelfDeltaIff(Update(p), p.result);
    }
  }

  lemma {:induction false} StepIsPositive(p: WhilePlan)
    requires StepOf(p).Some?
    ensures StepOf(p).value > 0
  {
  }

  lemma {:induction false} CountIs(start: int64, limit: int64, step: int64, n: nat)
    requires step > 0 && TripCount(n, start, limit, step, false)
    ensures IterationCount(start, limit, step, false) == if Fits(n) then Some(n) else None
  {
    IterationCountExact(start, limit, step, false);
    var count := IterationCount(start, limit, step, false);
    hide IterationCount, TripCount;
    if count.Some? {
      OneTripCount(n, count.value, start, limit, step, false);
    } else {
      OneTripCount(n, CeilDiv(Distance(start, limit, step, false), step), start, limit, step, false);
    }
  }

  lemma {:induction false} Between(start: int64, step: int64, k: nat, n: nat)
    requires step > 0 && k <= 1 <= n && Fits(At(start, step, n))
    ensures Fits(At(start, step, k)) && Wrap(At(start, step, k)) == At(start, step, k) && At(start, step, 0) == start
  {
    assert k * step <= n * step;
  }
}
