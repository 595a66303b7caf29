/** Concrete accepted plans for which the promise of the ahead-of-time tier fails. */
module AotLimits {
  // Each premise of the soundness theorems is needed.

  import opened Options
  import opened Int64
  import opened AotExpr
  import opened AotInterval
  import opened AotSelfDelta
  import opened AotLoops
  import opened AotValidate
  import opened AotCounted
  import opened AotAffine
  import opened AotPeriodic
  import opened AotValues
  import opened AotTimes
  import opened AotWhile
  import opened AotWhileValues
  import opened AotWhileRuby

  // ---------------------------------------------------------------- the lost inner sign

  /** acc = (acc - 1) + 3 */
  function LostSign(): Expr {
    Bin(Add, Bin(Sub, Local(1), Const(1)), Const(3))
  }

  lemma {:induction false} LostSignDelta()
    ensures SelfDelta(LostSign(), 1) == Some(Delta(Bin(Add, Const(1), Const(3)), -1))
  {
    assert SelfDelta(Bin(Sub, Local(1), Const(1)), 1) == Some(Delta(Const(1), -1));
  }

  lemma {:induction false} LostSignValue(env: seq<int>, ms: Methods)
    requires |env| == 3
    ensures RubyEval(LostSign(), env, ms) == Some(env[1] + 2)
  {
    assert RubyEval(Bin(Sub, Local(1), Const(1)), env, ms) == Some(env[1] - 1);
  }

  lemma {:induction false} LostSignRuns(l: Loop, locals: seq<int>)
    requires l == Loop(LostSign(), 1, 2, 0, 1, map[]) && |locals| == 3 && locals[1] == 10
    ensures RubyRun(l, locals, 2).Some? && RubyRun(l, locals, 2).value[1] == 14
  {
    var f1 := locals[2 := 0][1 := 12];
    LostSignValue(locals[2 := 0], l.methods);
    assert RubyRun(l, locals, 0) == Some(locals);
    RunStep(l, locals, 1, locals, 12);
    LostSignValue(f1[2 := 1], l.methods);
    RunStep(l, locals, 2, f1, 14);
  }

  lemma {:induction false} LostSignKernel(ms: Methods)
    ensures AccumulatorValue(10, Bin(Add, Const(1), Const(3)), -1, 2, 0, 1, 2, ms) == Some(2)
  {
    assert Linear(Bin(Add, Const(1), Const(3)), 2, ms) == Some(Affine(0, 4));
    assert CounterSum(0, 1, 2) == 1;
  }

  /** n = 2; acc = 10; n.times { |i| acc = (acc - 1) + 3 }: Ruby prints 14, the kernel 10 - 2 * (1 + 3). */
  lemma {:induction false} AcceptedWithLostSign(p: TimesPlan)
    requires p == TimesPlan(3, map[0 := 2, 1 := 10], 0, 2, 1, LostSign(), 1, map[])
    ensures WellFormed(p) && TimesAccepted(p)
    ensures TimesOutput(p) == Some(2) && RubyOutput(p) == Some(14)
  {
    LostSignAccepted(p);
    LostSignRuns(TimesLoop(p), Frame(p.initial, p.locals));
    LostSignOutput(p);
    hide RubyRun, TimesOutput;
    RubyOutputIsRun(p);
  }

  lemma {:induction false} LostSignOutput(p: TimesPlan)
    requires p == TimesPlan(3, map[0 := 2, 1 := 10], 0, 2, 1, LostSign(), 1, map[])
    ensures WellFormed(p) && TimesOutput(p) == Some(2)
  {
    LostSignDelta();
    LostSignKernel(p.methods);
    assert AffineTimes(p) == Some(2);
  }

  /** One unfolding of Ruby's loop. */
  lemma {:induction false} RunStep(l: Loop, locals: seq<int>, k: nat, before: seq<int>, v: int)
    requires k > 0 && l.sum < |locals| && l.counter < |locals|
    requires RubyRun(l, locals, k - 1) == Some(before)
    requires RubyEval(l.expr, before[l.counter := At(l.start, l.step, k - 1)], l.methods) == Some(v)
    ensures RubyRun(l, locals, k) == Some(before[l.counter := At(l.start, l.step, k - 1)][l.sum := v])
  {
  }

  lemma {:induction false} LostSignAccepted(p: TimesPlan)
    requires p == TimesPlan(3, map[0 := 2, 1 := 10], 0, 2, 1, LostSign(), 1, map[])
    ensures WellFormed(p) && AffineVerdict(p) == Accepted
  {
    LostSignDelta();
    var delta := Bin(Add, Const(1), Const(3));
    var initial := p.initial[p.counter := 0];
    var s := StartAnalysis(initial, 2, 0, 1);
    assert EvalInterval(delta, s.intervals, p.methods) == Some(Interval(4, 4));
    assert AccumulatorRange(Interval(10, 10), Interval(4, 4), -1, 2) == Some(Interval(2, 2));
    var a := Assignment(1, LostSign());
    var shape := ShapeOf(2, 1, 2, [a], p.methods, false);
    assert !ReferencesUnprocessed(delta, shape.writes, s.processed, 2);
    assert Analyze(s, a, shape).Some?;
    assert AnalyzeAll(s, [a], shape).Some?;
  }

  // ---------------------------------------------------------------- the block parameter

  /** acc = 5; 1.times { |acc| acc = acc + 1 }; puts acc: the block assigns its own parameter, so Ruby's acc stays 5. The
      simulation accepts the plan, and the closed form answers 6. */
  lemma {:induction false} AcceptedParameterUpdate(p: TimesPlan)
    requires p == TimesPlan(2, map[0 := 5, 1 := 1], 1, 0, 0, Bin(Add, Local(0), Const(1)), 0, map[])
    ensures WellFormed(p) && TimesAccepted(p)
    ensures TimesOutput(p) == Some(6) && RubyOutput(p) == Some(5)
  {
    ParameterChecked(TimesLoop(p), Frame(p.initial, p.locals));
    ParameterAccepted(p);
    ParameterPrinted(p);
  }

  lemma {:induction false} ParameterAccepted(p: TimesPlan)
    requires WellFormed(p) && p.counter == p.sum && p.initial[p.count] == 1 && CheckedRun(TimesLoop(p), Frame(p.initial, p.locals), 1).Some?
    requires SelfDelta(p.expr, p.sum) == Some(Delta(Const(1), 1))
    ensures TimesAccepted(p)
  {
    hide ValidateAffine, CheckedRun, SelfDelta;
    ParameterUpdateUnproven(p.initial[p.counter := 0], p.counter, 0, p.initial[p.count], p.expr, p.methods);
    ParameterNotRejected(p.initial[p.counter := 0], p.counter, p.expr, p.methods);
    assert PeriodOf(Const(1), p.counter).None?;
  }

  lemma {:induction false} ParameterNotRejected(initial: Initials, counter: nat, expr: Expr, ms: Methods)
    ensures ValidateAffine(initial, counter, 0, 1, 1, false, [Assignment(counter, expr)], ms, false) != Rejected
  {
    assert IterationCount(0, 1, 1, false) == Some(1);
    hide AnalyzeAll, IterationCount, LastValue;
  }

  lemma {:induction false} ParameterPrinted(p: TimesPlan)
    requires WellFormed(p) && p.counter == p.sum == p.result && p.initial[p.count] == 1 && p.initial[p.sum] == 5
    requires SelfDelta(p.expr, p.sum) == Some(Delta(Const(1), 1)) && p.counter == 0 && TimesAccepted(p)
    ensures TimesOutput(p) == Some(6) && RubyOutput(p) == Some(5)
  {
    ParameterKernel(p.methods);
    ParameterPlanRuns(p);
    RubyOutputIsRun(p);
    hide AccumulatorValue, SelfDelta, RubyRun, RubyOutput, TimesAccepted;
  }

  lemma {:induction false} ParameterChecked(l: Loop, locals: seq<int64>)
    requires l.expr == Bin(Add, Local(0), Const(1)) && l.sum == l.counter == 0 && l.start == 0 && locals == [5, 1]
    ensures CheckedRun(l, locals, 1).Some? && SelfDelta(l.expr, 0) == Some(Delta(Const(1), 1))
  {
    hide RubyOp;
    assert CheckedRun(l, locals, 0) == Some(locals);
    assert Checked(l.expr.left, locals[0 := 0], l.methods) == Some(0) && Checked(l.expr.right, locals[0 := 0], l.methods) == Some(1);
  }

  lemma {:induction false} ParameterKernel(ms: Methods)
    ensures AccumulatorValue(5, Const(1), 1, 0, 0, 1, 1, ms) == Some(6)
  {
    assert Linear(Const(1), 0, ms) == Some(Affine(0, 1));
    assert CounterSum(0, 1, 1) == 0;
  }

  // ---------------------------------------------------------------- an accumulator read inside a call

  /** def f(x) = x + x; n = 2; acc = 2**61; n.times { |i| acc = f(acc) }: the range of one call is checked, not the growth. */
  lemma {:induction false} AcceptedSelfCall(p: TimesPlan)
    requires p == TimesPlan(3, map[0 := 2, 1 := 0x2000_0000_0000_0000], 0, 2, 1, Call("f", Local(1)), 1,
                            map["f" := Bin(Add, Local(0), Local(0))])
    ensures WellFormed(p) && TimesAccepted(p)
    ensures RubyOutput(p) == Some(0x8000_0000_0000_0000) && TimesOutput(p) == Some(MIN)
  {
    SelfCallAccepted(p);
    RubyOutputIsRun(p);
    hide RubyOutput, AffineVerdict;
    SelfCallRuns(TimesLoop(p), Frame(p.initial, p.locals));
  }

  lemma {:induction false} SelfCallRuns(l: Loop, f: seq<int64>)
    requires l.expr == Call("f", Local(1)) && l.sum == 1 && l.counter == 2 && l.start == 0 && l.step == 1
    requires l.methods == map["f" := Bin(Add, Local(0), Local(0))] && |f| == 3 && f[1] == 0x2000_0000_0000_0000
    ensures RubyRun(l, f, 2).Some? && RubyRun(l, f, 2).value[1] == 0x8000_0000_0000_0000
    ensures MachineRun(l, f, 2).Some? && MachineRun(l, f, 2).value[1] == MIN
  {
    var v0: int := 0x2000_0000_0000_0000;
    var f1: seq<int64> := f[2 := 0][1 := 2 * v0];
    Doubles(f[2 := 0], l.methods, v0);
    Doubles(f1[2 := 1], l.methods, 2 * v0);
    hide RubyEval, Unchecked;
    assert RubyRun(l, f, 0) == Some(f) && MachineRun(l, f, 0) == Some(f);
    RunStep(l, f, 1, f, 2 * v0);
    assert MachineRun(l, f, 1) == Some(f1);
    RunStep(l, f, 2, f1, 4 * v0);
    assert MachineRun(l, f, 2) == Some(f1[2 := 1][1 := Wrap(4 * v0)]);
  }

  lemma {:induction false} Doubles(env: seq<int64>, ms: Methods, x: int)
    requires |env| == 3 && ms == map["f" := Bin(Add, Local(0), Local(0))] && x == env[1]
    ensures RubyEval(Call("f", Local(1)), env, ms) == Some(2 * x)
    ensures Unchecked(Call("f", Local(1)), env, ms) == Some(Wrap(2 * x))
  {
    assert RubyEval(Local(1), env, ms) == Some(x);
    assert RubyEval(ms["f"], [x], ms) == Some(2 * x);
    assert Unchecked(Local(1), env, ms) == Some(env[1]);
    var arg: seq<int64> := [env[1]];
    assert Unchecked(Local(0), arg, ms) == Some(env[1]);
  }

  lemma {:induction false} SelfCallAccepted(p: TimesPlan)
    requires p == TimesPlan(3, map[0 := 2, 1 := 0x2000_0000_0000_0000], 0, 2, 1, Call("f", Local(1)), 1,
                            map["f" := Bin(Add, Local(0), Local(0))])
    ensures WellFormed(p) && AffineVerdict(p) == Accepted && SelfDelta(p.expr, 1).None?
  {
    var s := StartAnalysis(p.initial[p.counter := 0], 2, 0, 1);
    var x := Interval(0x2000_0000_0000_0000, 0x2000_0000_0000_0000);
    assert EvalInterval(Local(1), s.intervals, p.methods) == Some(x);
    assert EvalInterval(p.methods["f"], map[0 := x], p.methods).Some?;
    var a := Assignment(1, p.expr);
    var shape := ShapeOf(2, 1, 2, [a], p.methods, false);
    assert Analyze(s, a, shape).Some?;
    assert AnalyzeAll(s, [a], shape).Some?;
  }

  // ---------------------------------------------------------------- while bodies

  /** i = 0; acc = 0; while i < 1; i += 1; acc += 5 % (i - 1); end: with the counter stepped first, the last iteration
      reads a counter value outside the analyzed interval, and both Ruby and the machine divide by zero. */
  lemma {:induction false} AcceptedCounterFirst(p: WhilePlan)
    requires p == WhilePlan(2, map[0 := 0, 1 := 0], 0, 1, None,
                            [Assignment(0, Bin(Add, Local(0), Const(1))),
                             Assignment(1, Bin(Add, Local(1), Bin(Mod, Const(5), Bin(Sub, Local(0), Const(1)))))], 1, map[])
    ensures WellFormedWhile(p) && WhileVerdict(p) == Accepted
    ensures RubyIterate(p, 1).None? && forall n: nat :: !RubyStops(p, n)
  {
    CounterFirstAccepted(p);
    var env: seq<int> := Start(p);
    CounterFirstRaises(p.body, env);
    assert RubyIterate(p, 0) == Some(env);
    assert RubyIterate(p, 1).None?;
    forall n: nat ensures !RubyStops(p, n) {
      assert RubyIterate(p, 0).value[0] < 1;
    }
  }

  lemma {:induction false} CounterFirstRaises(body: seq<Assignment>, env: seq<int>)
    requires body == [Assignment(0, Bin(Add, Local(0), Const(1))),
                      Assignment(1, Bin(Add, Local(1), Bin(Mod, Const(5), Bin(Sub, Local(0), Const(1)))))]
    requires env == [0, 0]
    ensures RubyBody(body, env, map[]).None?
  {
    assert RubyEval(body[0].expr, env, map[]) == Some(1);
    var mid := env[0 := 1];
    var gap := Bin(Sub, Local(0), Const(1));
    assert RubyEval(gap, mid, map[]) == Some(0);
    assert RubyEval(Bin(Mod, Const(5), gap), mid, map[]).None?;
    assert body[1..][0] == body[1];
  }

  lemma {:induction false} CounterFirstAccepted(p: WhilePlan)
    requires p == WhilePlan(2, map[0 := 0, 1 := 0], 0, 1, None,
                            [Assignment(0, Bin(Add, Local(0), Const(1))),
                             Assignment(1, Bin(Add, Local(1), Bin(Mod, Const(5), Bin(Sub, Local(0), Const(1)))))], 1, map[])
    ensures WellFormedWhile(p) && WhileVerdict(p) == Accepted
  {
    var gap := Bin(Sub, Local(0), Const(1));
    var delta := Bin(Mod, Const(5), gap);
    assert SelfDelta(p.body[1].expr, 1) == Some(Delta(delta, 1));
    assert StepOf(p) == Some(1);
    var shape := ShapeOf(0, 1, 1, p.body, p.methods, true);
    var s := StartAnalysis(p.initial, 0, 0, 0);
    assert Analyze(s, p.body[0], shape).Some?;
    var t := Analyze(s, p.body[0], shape).value;
    assert EvalInterval(gap, t.intervals, p.methods) == Some(Interval(-1, -1));
    assert EvalInterval(delta, t.intervals, p.methods) == Some(Interval(0, 0));
    assert AccumulatorRange(Interval(0, 0), Interval(0, 0), 1, 1) == Some(Interval(0, 0));
    assert !ReferencesUnprocessed(delta, shape.writes, t.processed, 0);
    assert Analyze(t, p.body[1], shape).Some?;
    assert p.body[1..][0] == p.body[1] && p.body[1..][1..] == [];
    assert AnalyzeAll(t, p.body[1..], shape).Some?;
    assert AnalyzeAll(s, p.body, shape).Some?;
  }

  const BIG: int64 := 0x4000_0000_0000_0000

  /** a += 3; b += a * BIG; i += 1 */
  function FinalRangeBody(): seq<Assignment> {
    [Assignment(1, Bin(Add, Local(1), Const(3))), Assignment(2, Bin(Add, Local(2), Bin(Mul, Local(1), Const(BIG)))),
     Assignment(0, Bin(Add, Local(0), Const(1)))]
  }

  /** i = 0; a = -6; b = 0; while i < 2; a += 3; b += a * BIG; i += 1; end; puts b: the analysis gives a its final value 0 only,
      so b's deltas look like 0. The first one is -3 * BIG: Ruby prints that, the machine BIG. */
  lemma {:induction false} AcceptedFinalRange(p: WhilePlan)
    requires p == WhilePlan(3, map[0 := 0, 1 := -6, 2 := 0], 0, 2, None, FinalRangeBody(), 2, map[])
    ensures WellFormedWhile(p) && WhileVerdict(p) == Accepted
    ensures PlanPrints(p, BIG) && RubyPrints(p, -3 * BIG)
  {
    FinalRangeAccepted(p);
    FinalRangeRuns(p);
  }

  lemma {:induction false} FinalRangeRuns(p: WhilePlan)
    requires WellFormedWhile(p) && p.locals == 3 && p.initial == map[0 := 0, 1 := -6, 2 := 0] && p.counter == 0 && p.result == 2
    requires p.limit == 2 && p.limitLocal == None && p.body == FinalRangeBody()
    ensures PlanPrints(p, BIG) && RubyPrints(p, -3 * BIG)
  {
    hide RubyBody, MachineBody, RubyStops, MachineStops, Writes, AssignedFirst, PlanPrints, RubyPrints;
    FinalRangeSteps(Start(p), p.methods, 0, -6, 0);
    FinalRangeSteps([1, -3, BIG], p.methods, 1, -3, BIG);
    FinalRangeRuby([1, -3, -3 * BIG], p.methods, 1, -3, -3 * BIG);
    FinalRangeRuby(Start(p), p.methods, 0, -6, 0);
    FinalRangeAssigned(p.initial.Keys);
    assert !KernelShape(p);
    hide FinalRangeBody, KernelShape;
    FinalRangeStops(p);
    FinalRangePrints(p);
  }

  lemma {:induction false} FinalRangePrints(p: WhilePlan)
    requires WellFormedWhile(p) && RubyStops(p, 2) && MachineStops(p, 2) && AffineWhile(p).None? && p.limitLocal == None
    requires MachineIterate(p, 2).value[p.result] == BIG && RubyIterate(p, 2).value[p.result] == -3 * BIG
    requires AssignedFirst(p.body, p.initial.Keys)
    ensures PlanPrints(p, BIG) && RubyPrints(p, -3 * BIG)
  {
    hide RubyStops, MachineStops, AffineWhile, AssignedFirst, RubyPrints, NumbersOnly;
    AssignedFirstIsNumeric(p, 2);
    NumbersOnlyIff(p, 2);
  }

  lemma {:induction false} FinalRangeStops(p: WhilePlan)
    requires WellFormedWhile(p) && p.locals == 3 && p.initial == map[0 := 0, 1 := -6, 2 := 0] && p.counter == 0 && p.result == 2 && p.limit == 2
    requires MachineBody(p.body, Start(p), p.methods) == Some([1, -3, BIG]) && MachineBody(p.body, [1, -3, BIG], p.methods) == Some([2, 0, BIG])
    requires RubyBody(p.body, Start(p), p.methods) == Some([1, -3, -3 * BIG])
    requires RubyBody(p.body, [1, -3, -3 * BIG], p.methods) == Some([2, 0, -3 * BIG])
    ensures RubyStops(p, 2) && MachineStops(p, 2)
    ensures MachineIterate(p, 2).value[p.result] == BIG && RubyIterate(p, 2).value[p.result] == -3 * BIG
  {
    hide RubyBody, MachineBody;
    assert MachineIterate(p, 0) == Some(Start(p)) && RubyIterate(p, 0) == Some(Start(p));
    assert MachineIterate(p, 1) == Some([1, -3, BIG]) && RubyIterate(p, 1) == Some([1, -3, -3 * BIG]);
    assert MachineIterate(p, 2) == Some([2, 0, BIG]) && RubyIterate(p, 2) == Some([2, 0, -3 * BIG]);
  }

  lemma {:induction false} FinalRangeAssigned(known: set<nat>)
    requires known == {0, 1, 2}
    ensures AssignedFirst(FinalRangeBody(), known)
  {
    var body := FinalRangeBody();
    assert body[1..][0] == body[1] && body[1..][1..] == [body[2]] && [body[2]][1..] == [];
    var e, f, g := body[0].expr, body[1].expr, body[2].expr;
    assert ReadsOnly(e.left, known) && ReadsOnly(e.right, known) && ReadsOnly(e, known);
    assert ReadsOnly(f.left, known + {1}) && ReadsOnly(f.right.left, known + {1}) && ReadsOnly(f.right, known + {1}) && ReadsOnly(f, known + {1});
    assert ReadsOnly(g.left, known + {1} + {2}) && ReadsOnly(g.right, known + {1} + {2}) && ReadsOnly(g, known + {1} + {2});
    hide ReadsOnly, FinalRangeBody;
    assert AssignedFirst([], known + {1} + {2} + {0});
    assert AssignedFirst([body[2]], known + {1} + {2});
    assert AssignedFirst(body[1..], known + {1});
  }

  /** The machine's body at a and b. */
  lemma {:induction false} FinalRangeSteps(env: seq<int64>, ms: Methods, i: int64, a: int64, b: int64)
    requires env == [i, a, b] && (i == 0 || i == 1) && (a == -6 || a == -3) && (b == 0 || (a == -3 && b == BIG))
    ensures MachineBody(FinalRangeBody(), env, ms) == Some([i + 1, a + 3, if a == -6 then BIG else b])
  {
    var body := FinalRangeBody();
    assert Unchecked(body[0].expr.left, env, ms) == Some(a) && Unchecked(body[0].expr.right, env, ms) == Some(3);
    var mid := env[1 := a + 3];
    var product := body[1].expr.right;
    assert Unchecked(product.left, mid, ms) == Some(a + 3) && Unchecked(product.right, mid, ms) == Some(BIG);
    assert Unchecked(product, mid, ms) == Some(if a == -6 then BIG else 0);
    assert Unchecked(body[1].expr.left, mid, ms) == Some(b);
    var sum := if a == -6 then BIG else b;
    assert Unchecked(body[1].expr, mid, ms) == Some(sum);
    var end := mid[2 := sum];
    assert Unchecked(body[2].expr.left, end, ms) == Some(i) && Unchecked(body[2].expr.right, end, ms) == Some(1);
    hide Unchecked;
    assert body[1..][0] == body[1] && body[1..][1..] == [body[2]] && [body[2]][1..] == [];
    assert end[0 := i + 1] == [i + 1, a + 3, sum];
    assert MachineBody([body[2]], end, ms) == Some([i + 1, a + 3, sum]);
    assert MachineBody(body[1..], mid, ms) == Some([i + 1, a + 3, sum]);
  }

  /** Ruby's body at a and b. */
  lemma {:induction false} FinalRangeRuby(env: seq<int>, ms: Methods, i: int, a: int, b: int)
    requires env == [i, a, b]
    ensures RubyBody(FinalRangeBody(), env, ms) == Some([i + 1, a + 3, b + (a + 3) * BIG])
  {
    var body := FinalRangeBody();
    assert RubyEval(body[0].expr.left, env, ms) == Some(a) && RubyEval(body[0].expr.right, env, ms) == Some(3);
    var mid := env[1 := a + 3];
    var product := body[1].expr.right;
    assert RubyEval(product.left, mid, ms) == Some(a + 3) && RubyEval(product.right, mid, ms) == Some(BIG);
    assert RubyEval(product, mid, ms) == Some((a + 3) * BIG);
    assert RubyEval(body[1].expr.left, mid, ms) == Some(b);
    var sum := b + (a + 3) * BIG;
    assert RubyEval(body[1].expr, mid, ms) == Some(sum);
    var end := mid[2 := sum];
    assert RubyEval(body[2].expr.left, end, ms) == Some(i) && RubyEval(body[2].expr.right, end, ms) == Some(1);
    hide RubyEval;
    assert body[1..][0] == body[1] && body[1..][1..] == [body[2]] && [body[2]][1..] == [];
    assert end[0 := i + 1] == [i + 1, a + 3, sum];
    assert RubyBody([body[2]], end, ms) == Some([i + 1, a + 3, sum]);
    assert RubyBody(body[1..], mid, ms) == Some([i + 1, a + 3, sum]);
  }

  lemma {:induction false} FinalRangeAccepted(p: WhilePlan)
    requires WellFormedWhile(p) && p.initial == map[0 := 0, 1 := -6, 2 := 0] && p.counter == 0 && p.limit == 2 && p.body == FinalRangeBody()
    ensures WhileVerdict(p) == Accepted
  {
    FinalRangeStep(p);
    assert IterationCount(0, 2, 1, false) == Some(2) && LastValue(0, 1, 2) == Some(1);
    hide IterationCount, LastValue, StepOf, AnalyzeAll, FinalRangeBody;
    FinalRangeAnalysis(StartAnalysis(p.initial, 0, 0, 1), ShapeOf(0, 1, 2, p.body, p.methods, true));
  }

  lemma {:induction false} FinalRangeStep(p: WhilePlan)
    requires p.body == FinalRangeBody() && p.counter == 0
    ensures StepOf(p) == Some(1)
  {
    assert p.body[1..][0] == p.body[1] && p.body[1..][1..] == [p.body[2]];
    assert CounterIndex([p.body[2]], 0) == 0;
    assert CounterIndex(p.body[1..], 0) == 1;
    assert CounterIndex(p.body, 0) == 2;
  }

  lemma {:induction false} FinalRangeAnalysis(s: Analysis, shape: LoopShape)
    requires s.seen == {} && s.processed == {0} && 1 in s.intervals && s.intervals[1] == Interval(-6, -6)
    requires 2 in s.intervals && s.intervals[2] == Interval(0, 0)
    requires shape.counter == 0 && shape.step == 1 && shape.count == 2 && shape.requireCounter
    ensures AnalyzeAll(s, FinalRangeBody(), shape).Some? && AnalyzeAll(s, FinalRangeBody(), shape).value.counterAssigned
  {
    var body := FinalRangeBody();
    FinalRangeFirst(s, shape);
    var t := Analyze(s, body[0], shape).value;
    FinalRangeSecond(t, shape);
    var u := Analyze(t, body[1], shape).value;
    assert CounterStep(body[2].expr, 0) == Some(1);
    assert Analyze(u, body[2], shape).Some? && Analyze(u, body[2], shape).value.counterAssigned;
    hide Analyze;
    assert body[1..][0] == body[1] && body[1..][1..] == [body[2]] && [body[2]][1..] == [];
    assert AnalyzeAll(u, [body[2]], shape) == Analyze(u, body[2], shape);
    assert AnalyzeAll(t, body[1..], shape) == AnalyzeAll(u, [body[2]], shape);
  }

  lemma {:induction false} FinalRangeFirst(s: Analysis, shape: LoopShape)
    requires s.seen == {} && s.processed == {0} && 1 in s.intervals && s.intervals[1] == Interval(-6, -6)
    requires 2 in s.intervals && s.intervals[2] == Interval(0, 0) && shape.counter == 0 && shape.count == 2
    ensures var t := Analyze(s, FinalRangeBody()[0], shape);
            && t.Some? && t.value.seen == {1} && t.value.processed == {0, 1}
            && 1 in t.value.intervals && t.value.intervals[1] == Interval(0, 0)
            && 2 in t.value.intervals && t.value.intervals[2] == Interval(0, 0)
  {
    var e := FinalRangeBody()[0].expr;
    assert SelfDelta(e, 1) == Some(Delta(Const(3), 1));
    assert AccumulatorRange(Interval(-6, -6), Interval(3, 3), 1, 2) == Some(Interval(0, 0));
    assert EvalInterval(Const(3), s.intervals, shape.methods) == Some(Interval(3, 3));
    assert !ReferencesUnprocessed(Const(3), shape.writes, s.processed, 0);
  }

  lemma {:induction false} FinalRangeSecond(t: Analysis, shape: LoopShape)
    requires t.seen == {1} && t.processed == {0, 1} && 1 in t.intervals && t.intervals[1] == Interval(0, 0)
    requires 2 in t.intervals && t.intervals[2] == Interval(0, 0) && shape.counter == 0 && shape.count == 2
    ensures var u := Analyze(t, FinalRangeBody()[1], shape); u.Some? && u.value.seen == {1, 2}
  {
    var e := FinalRangeBody()[1].expr;
    var delta := e.right;
    assert SelfDelta(e, 2) == Some(Delta(delta, 1));
    assert EvalInterval(delta.left, t.intervals, shape.methods) == Some(Interval(0, 0));
    assert EvalInterval(delta.right, t.intervals, shape.methods) == Some(Interval(BIG, BIG));
    assert EvalInterval(delta, t.intervals, shape.methods) == Some(Interval(0, 0));
    assert AccumulatorRange(Interval(0, 0), Interval(0, 0), 1, 2) == Some(Interval(0, 0));
    assert !ReferencesUnprocessed(delta.left, shape.writes, t.processed, 0) && !ReferencesUnprocessed(delta.right, shape.writes, t.processed, 0);
  }

  /** i = MAX - 1; while i < MAX; acc += 0; i += 2; end: the counter's last value leaves int64, Ruby stops after one
      iteration and the machine counter wraps to a negative number. */
  lemma {:induction false} AcceptedCounterOverflow(p: WhilePlan)
    requires p == WhilePlan(2, map[0 := MAX - 1, 1 := 0], 0, MAX, None,
                            [Assignment(1, Bin(Add, Local(1), Const(0))), Assignment(0, Bin(Add, Local(0), Const(2)))], 1, map[])
    ensures WellFormedWhile(p) && WhileVerdict(p) == Accepted
    ensures RubyStops(p, 1) && RubyIterate(p, 1).value[0] == MAX + 1
    ensures MachineIterate(p, 1) == Some([MIN, 0]) && forall n: nat :: !MachineStops(p, n)
  {
    CounterOverflowAccepted(p);
    var env: seq<int64> := Start(p);
    OverflowBody(p.body, env);
    assert RubyIterate(p, 0) == Some(env) && MachineIterate(p, 0) == Some(env);
    assert Running(p, 0);
    NeverStops(p, 0);
  }

  lemma {:induction false} OverflowBody(body: seq<Assignment>, env: seq<int64>)
    requires body == [Assignment(1, Bin(Add, Local(1), Const(0))), Assignment(0, Bin(Add, Local(0), Const(2)))]
    requires env == [MAX - 1, 0]
    ensures RubyBody(body, env, map[]) == Some([MAX + 1, 0])
    ensures MachineBody(body, env, map[]) == Some([MIN, 0])
  {
    assert RubyEval(body[0].expr, env, map[]) == Some(0) && Unchecked(body[0].expr, env, map[]) == Some(0);
    assert env[1 := 0] == env;
    assert RubyEval(body[1].expr, env, map[]) == Some(MAX + 1) && Unchecked(body[1].expr, env, map[]) == Some(MIN);
    var next: seq<int> := env;
    assert body[1..] == [body[1]] && body[1..][1..] == [];
    assert next[0 := MAX + 1] == [MAX + 1, 0] && env[0 := MIN] == [MIN, 0];
    assert RubyBody(body[1..], next, map[]) == Some([MAX + 1, 0]);
    assert MachineBody(body[1..], env, map[]) == Some([MIN, 0]);
  }

  lemma {:induction false} OverflowAnalysis(s: Analysis, update: Assignment, step: Assignment, shape: LoopShape)
    requires update == Assignment(1, Bin(Add, Local(1), Const(0))) && step == Assignment(0, Bin(Add, Local(0), Const(2)))
    requires s.seen == {} && 0 in s.processed && 1 in s.intervals && s.intervals[1] == Interval(0, 0)
    requires shape.counter == 0 && shape.step == 2 && shape.count == 1 && shape.requireCounter
    ensures AnalyzeAll(s, [update, step], shape).Some? && AnalyzeAll(s, [update, step], shape).value.counterAssigned
  {
    var t := Analyze(s, update, shape);
    OverflowUpdate(s, update, shape);
    assert Analyze(t.value, step, shape) == Some(t.value.(seen := {1} + {0}, counterAssigned := true));
    hide Analyze;
    assert [update, step][1..] == [step] && [step][1..] == [];
    assert AnalyzeAll(t.value, [step], shape) == Analyze(t.value, step, shape);
  }

  lemma {:induction false} OverflowUpdate(s: Analysis, update: Assignment, shape: LoopShape)
    requires update == Assignment(1, Bin(Add, Local(1), Const(0)))
    requires s.seen == {} && 0 in s.processed && 1 in s.intervals && s.intervals[1] == Interval(0, 0)
    requires shape.counter == 0 && shape.count == 1
    ensures Analyze(s, update, shape).Some? && Analyze(s, update, shape).value.seen == {1}
  {
    assert SelfDelta(update.expr, 1) == Some(Delta(Const(0), 1));
    assert AccumulatorRange(Interval(0, 0), Interval(0, 0), 1, 1) == Some(Interval(0, 0));
    assert EvalInterval(Const(0), s.intervals, shape.methods) == Some(Interval(0, 0));
    assert !ReferencesUnprocessed(Const(0), shape.writes, s.processed, 0);
  }

  lemma {:induction false} CounterOverflowAccepted(p: WhilePlan)
    requires p == WhilePlan(2, map[0 := MAX - 1, 1 := 0], 0, MAX, None,
                            [Assignment(1, Bin(Add, Local(1), Const(0))), Assignment(0, Bin(Add, Local(0), Const(2)))], 1, map[])
    ensures WellFormedWhile(p) && WhileVerdict(p) == Accepted
  {
    assert StepOf(p) == Some(2) by { assert CounterIndex(p.body, 0) == 1 by { assert p.body[1..][0] == p.body[1]; } }
    assert IterationCount(MAX - 1, MAX, 2, false) == Some(1) && LastValue(MAX - 1, 2, 1) == Some(MAX - 1);
    hide AnalyzeAll;
    OverflowAnalysis(StartAnalysis(p.initial, 0, MAX - 1, MAX - 1), p.body[0], p.body[1], ShapeOf(0, 2, 1, p.body, p.methods, true));
    assert p.body == [p.body[0], p.body[1]];
  }
}
