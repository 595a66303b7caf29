/** The closed form of while plans is exact. */
module AotWhileSound {
  // A body of one accumulator and one counter step, in either order, is a counted loop.

  import opened Options
  import opened Int64
  import opened AotExpr
  import opened AotChecked
  import opened AotInterval
  import opened AotSelfDelta
  import opened AotLoops
  import opened AotValidate
  import opened AotCounted
  import opened AotAffine
  import opened AotTimes
  import opened AotWhile

  /** One accumulator update and one counter step, in either order. */
  predicate TwoStep(p: WhilePlan, acc: nat) {
    && |p.body| == 2 && acc != p.counter && StepOf(p).Some?
    && ((p.body[0].local == acc && p.body[1].local == p.counter) || (p.body[0].local == p.counter && p.body[1].local == acc))
  }

  predicate CounterFirst(p: WhilePlan)
    requires |p.body| == 2
  {
    p.body[0].local == p.counter
  }

  /** The counted loop a two-step body amounts to: the accumulator sees the counter before or after its step. */
  function AsLoop(p: WhilePlan, acc: nat, first: int64): Loop
    requires TwoStep(p, acc)
  {
    Loop(Update(p), acc, p.counter, first, StepOf(p).value, p.methods)
  }

  predicate FirstCounter(p: WhilePlan, acc: nat, first: int64)
    requires WellFormedWhile(p) && TwoStep(p, acc)
  {
    first == At(p.initial[p.counter], StepOf(p).value, if CounterFirst(p) then 1 else 0)
  }

  lemma {:induction false} CounterStepValue(p: WhilePlan, acc: nat, env: seq<int>)
    requires TwoStep(p, acc) && p.counter < |env|
    ensures RubyEval(p.body[1 - ResultIndex(p)].expr, env, p.methods) == Some(env[p.counter] + StepOf(p).value)
  {
    var e := p.body[1 - ResultIndex(p)].expr;
    assert CounterIndex(p.body, p.counter) == 1 - ResultIndex(p);
    assert CounterStep(e, p.counter) == StepOf(p);
    assert RubyEval(e.left, env, p.methods).Some? && RubyEval(e.right, env, p.methods).Some?;
  }

  lemma {:induction false} OneStepBody(a: Assignment, env: seq<int>, ms: Methods)
    requires a.local < |env|
    ensures RubyBody([a], env, ms) ==
            var v := RubyEval(a.expr, env, ms); if v.None? then None else Some(env[a.local := v.value])
  {
    assert [a][1..] == [];
  }

  /** Two assignments, spelled out. */
  lemma {:induction false} TwoStepBody(p: WhilePlan, env: seq<int>)
    requires |p.body| == 2 && InFrame(p.body, |env|)
    ensures RubyBody(p.body, env, p.methods) ==
            var v := RubyEval(p.body[0].expr, env, p.methods);
            if v.None? then None else
            var mid := env[p.body[0].local := v.value];
            var w := RubyEval(p.body[1].expr, mid, p.methods);
            if w.None? then None else Some(mid[p.body[1].local := w.value])
  {
    assert p.body[1..] == [p.body[1]];
    var v := RubyEval(p.body[0].expr, env, p.methods);
    if v.Some? { OneStepBody(p.body[1], env[p.body[0].local := v.value], p.methods); }
  }

  lemma {:induction false} OneMachineStep(a: Assignment, env: seq<int64>, ms: Methods)
    requires a.local < |env|
    ensures MachineBody([a], env, ms) ==
            var v := Unchecked(a.expr, env, ms); if v.None? then None else Some(env[a.local := v.value])
  {
    assert [a][1..] == [];
  }

  lemma {:induction false} StepIsSum(e: Expr, counter: nat, step: int64, env: seq<int64>, ms: Methods)
    requires CounterStep(e, counter) == Some(step) && counter < |env|
    ensures Unchecked(e, env, ms) == Some(Wrap(At(env[counter], step, 1)))
  {
    assert Unchecked(e.left, env, ms).Some? && Unchecked(e.right, env, ms).Some?;
  }

  /** The while body iterated is the counted loop, with the counter one step ahead when the accumulator goes first. */
  lemma {:induction false} WhileIsCounted(p: WhilePlan, acc: nat, first: int64, k: nat)
    requires WellFormedWhile(p) && TwoStep(p, acc) && FirstCounter(p, acc, first)
    requires RubyRun(AsLoop(p, acc, first), Start(p), k).Some?
    ensures RubyIterate(p, k) ==
            Some(RubyRun(AsLoop(p, acc, first), Start(p), k).value[p.counter := At(p.initial[p.counter], StepOf(p).value, k)])
  {
    var start, step := p.initial[p.counter], StepOf(p).value;
    var run := RubyRun(AsLoop(p, acc, first), Start(p), k).value;
    if k == 0 {
      assert At(start, step, 0) == start;
      assert run[p.counter := start] == run;
    } else {
      WhileIsCounted(p, acc, first, k - 1);
      NextCounter(start, step, first, k);
      var previous := RubyRun(AsLoop(p, acc, first), Start(p), k - 1).value;
      CountedBody(p, acc, previous, previous[p.counter := At(start, step, k - 1)], start, first, k);
    }
  }

  /** One pass over a two-step body, in either order. */
  lemma {:induction false} CountedBody(p: WhilePlan, acc: nat, previous: seq<int>, before: seq<int>, start: int, first: int, k: nat)
    requires TwoStep(p, acc) && InFrame(p.body, |previous|) && k > 0
    requires before == previous[p.counter := At(start, StepOf(p).value, k - 1)]
    requires first == At(start, StepOf(p).value, if CounterFirst(p) then 1 else 0)
    requires RubyEval(Update(p), previous[p.counter := At(first, StepOf(p).value, k - 1)], p.methods).Some?
    ensures var frame := previous[p.counter := At(first, StepOf(p).value, k - 1)];
            RubyBody(p.body, before, p.methods)
            == Some(frame[acc := RubyEval(Update(p), frame, p.methods).value][p.counter := At(start, StepOf(p).value, k)])
  {
    var step := StepOf(p).value;
    NextCounter(start, step, first, k);
    TwoStepBody(p, before);
    var frame := previous[p.counter := At(first, step, k - 1)];
    var run := frame[acc := RubyEval(Update(p), frame, p.methods).value];
    hide RubyEval, RubyBody, StepOf;
    if CounterFirst(p) {
      CounterStepValue(p, acc, before);
      assert before[p.counter := At(start, step, k)] == frame;
      assert run[p.counter := At(start, step, k)] == run;
    } else {
      assert before == frame;
      CounterStepValue(p, acc, run);
    }
  }

  lemma {:induction false} NextCounter(start: int, step: int, first: int, k: int)
    ensures At(start, step, k) == At(start, step, k - 1) + step
    ensures first == At(start, step, 1) ==> At(first, step, k - 1) == At(start, step, k)
    ensures first == At(start, step, 0) ==> At(first, step, k - 1) == At(start, step, k - 1)
  {
  }

  /** The trip count of the closed form is when Ruby's loop stops. */
  lemma {:induction false} CountedLoopStops(p: WhilePlan, acc: nat, first: int64, n: nat)
    requires WellFormedWhile(p) && TwoStep(p, acc) && FirstCounter(p, acc, first)
    requires TripCount(n, p.initial[p.counter], p.limit, StepOf(p).value, false)
    requires forall k: nat :: k <= n ==> RubyRun(AsLoop(p, acc, first), Start(p), k).Some?
    ensures RubyStops(p, n)
  {
    forall k: nat | k <= n
      ensures RubyIterate(p, k).Some? && (RubyIterate(p, k).value[p.counter] < p.limit <==> k < n)
    {
      WhileIsCounted(p, acc, first, k);
    }
  }

  /** What the kernel's rewriting loses over n iterations; both assignment orders are covered. */
  function KernelLost(p: WhilePlan, n: int): int
    requires WellFormedWhile(p) && KernelShape(p)
  {
    LostSum(OuterForm(Update(p), p.result, p.counter, p.methods),
            At(p.initial[p.counter], StepOf(p).value, if CounterFirst(p) then 1 else 0), StepOf(p).value, n)
  }

  /** The loop on integers stops after the computed count, and the while kernel's answer is what it leaves, if and only if it
      does not run, or the update's sign is +1, or the lost terms sum to zero. */
  lemma {:induction false} AffineWhileExactIff(p: WhilePlan)
    requires WellFormedWhile(p) && AffineWhile(p).Some?
    ensures var n := IterationCount(p.initial[p.counter], p.limit, StepOf(p).value, false).value;
            && RubyStops(p, n)
            && (RubyIterate(p, n).value[p.result] == AffineWhile(p).value
                <==> n == 0 || SelfDelta(Update(p), p.result).value.sign == 1 || KernelLost(p, n) == 0)
  {
    var start, step := p.initial[p.counter], StepOf(p).value;
    var n := IterationCount(start, p.limit, step, false).value;
    IterationCountExact(start, p.limit, step, false);
    assert At(start, step, 0) == start;
    if n > 0 {
      var first := KernelFirst(p, n);
      var l := AsLoop(p, p.result, first);
      AffineKernelExactIff(l, Start(p), n);
      forall k: nat | k <= n ensures RubyRun(l, Start(p), k).Some? { AffineRun(l, Start(p), k); }
      CountedLoopStops(p, p.result, first, n);
      WhileIsCounted(p, p.result, first, n);
    }
  }

  /** The kernel's first counter does not wrap when its final counter fits. */
  lemma {:induction false} KernelFirst(p: WhilePlan, n: int64) returns (first: int64)
    requires WellFormedWhile(p) && AffineWhile(p).Some? && n > 0
    requires n == IterationCount(p.initial[p.counter], p.limit, StepOf(p).value, false).value
    ensures FirstCounter(p, p.result, first)
    ensures var d := SelfDelta(Update(p), p.result).value;
            AffineWhile(p) == AccumulatorValue(Start(p)[p.result], d.expr, d.sign, p.counter, first, StepOf(p).value, n, p.methods)
  {
    var start, step := p.initial[p.counter], StepOf(p).value;
    AtMonotone(start, step, 0, 1);
    AtMonotone(start, step, 1, n);
    first := At(start, step, if CounterFirst(p) then 1 else 0);
  }
}
