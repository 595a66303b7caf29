/** Concrete accepted plans with nil, unknown or moving locals. */
module AotUnassigned {
  // The builders let locals through that only the body assigns, names that nothing assigns, and a limit that moves. On the
  // machine's zero-filled frame all of them look like integers.

  import opened Options
  import opened Int64
  import opened AotExpr
  import opened AotInterval
  import opened AotSelfDelta
  import opened AotLoops
  import opened AotValidate
  import opened AotCounted
  import opened AotAffine
  import opened AotTimes
  import opened AotRange
  import opened AotValues
  import opened AotWhile
  import opened AotWhileSound
  import opened AotWhileValues
  import opened AotWhileRuby
  import M = Machine

  /** local = local + 1 */
  function Next(local: nat): Assignment {
    Assignment(local, Bin(Add, Local(local), Const(1)))
  }

  // ---------------------------------------------------------------- an accumulator without initial value

  /** i = 0; while i < 1; x = x + 1; i = i + 1; end; puts x: Ruby raises on nil + 1, the plan prints 1. */
  lemma {:induction false} AcceptedNilAccumulator(p: WhilePlan)
    requires p == WhilePlan(2, map[0 := 0], 0, 1, None, [Next(1), Next(0)], 1, map[])
    ensures WellFormedWhile(p) && WhileAccepted(p)
    ensures PlanPrints(p, 1) && forall v: int :: !RubyPrints(p, v)
  {
    assert p.body[0].local in Writes(p.body);
    NilPlan(p);
  }

  lemma {:induction false} NilPlan(p: WhilePlan)
    requires WellFormedWhile(p) && p.body == [Next(1), Next(0)] && p.locals == 2 && p.counter == 0 && p.result == 1
    requires p.initial == map[0 := 0] && p.limit == 1 && p.limitLocal == None
    ensures WhileAccepted(p)
    ensures PlanPrints(p, 1) && forall v: int :: !RubyPrints(p, v)
  {
    hide AffineWhile, WhileAccepted, PlanPrints, RubyPrints, NumericBody, StepOf, Writes, Next;
    NilShape(p);
    NilAccepted(p);
    NilRaises({0}, {0}, p.methods);
    assert p.initial.Keys == {0};
    NilPrinted(p);
  }

  lemma {:induction false} NilPrinted(p: WhilePlan)
    requires WellFormedWhile(p) && p.initial.Keys == {0} && NumericBody(p.body, {0}, {0}, p.methods).None?
    requires p.initial[p.counter] == 0 && p.limit == 1 && p.limitLocal == None && StepOf(p) == Some(1) && AffineWhile(p) == Some(1)
    ensures PlanPrints(p, 1) && forall v: int :: !RubyPrints(p, v)
  {
    hide AffineWhile, RubyStops, RubyPrints, NumbersOnly, NumericBody, StepOf, RubyIterate;
    NilStops(p);
    NilNumbers(p);
    NumbersOnlyIff(p, 1);
  }

  lemma {:induction false} NilNumbers(p: WhilePlan)
    requires p.initial.Keys == {0} && NumericBody(p.body, {0}, {0}, p.methods).None?
    ensures !NumbersOnly(p, 1)
  {
    hide NumericBody;
    assert NumericIterate(p, 0) == Some(p.initial.Keys);
    assert NumericIterate(p, 1).None?;
  }

  lemma {:induction false} NilStops(p: WhilePlan)
    requires WellFormedWhile(p) && p.counter in p.initial && p.initial[p.counter] == 0 && p.limit == 1
    requires StepOf(p) == Some(1) && AffineWhile(p).Some?
    ensures RubyStops(p, 1)
  {
    assert IterationCount(0, 1, 1, false) == Some(1);
    hide AffineWhile, IterationCount, RubyStops, RubyIterate, KernelLost, SelfDelta;
    AffineWhileExactIff(p);
  }

  lemma {:induction false} NilRaises(ints: set<nat>, known: set<nat>, ms: Methods)
    requires 1 !in ints
    ensures NumericBody([Next(1), Next(0)], ints, known, ms).None?
  {
    var e := Next(1).expr;
    assert Numeric(e.left, ints, known + {1}, ms) == Some(false);
    assert Numeric(e, ints, known + {1}, ms).None?;
  }

  lemma {:induction false} NilShape(p: WhilePlan)
    requires WellFormedWhile(p) && p.body == [Next(1), Next(0)] && p.counter == 0 && p.result == 1
    requires p.initial.Keys == {0} && p.initial[0] == 0 && p.limit == 1
    ensures StepOf(p) == Some(1) && AffineWhile(p) == Some(1)
  {
    assert CounterIndex(p.body, 0) == 1 by { assert p.body[1..][0] == p.body[1]; }
    assert CounterStep(Next(0).expr, 0) == Some(1);
    assert StepOf(p) == Some(1) && ResultIndex(p) == 0 && Update(p) == Next(1).expr;
    assert SelfDelta(Next(1).expr, 1) == Some(Delta(Const(1), 1));
    NilSum(p.methods);
    hide CounterIndex, CounterStep, StepOf, SelfDelta, AccumulatorValue;
    NilKernel(p);
  }

  lemma {:induction false} NilKernel(p: WhilePlan)
    requires WellFormedWhile(p) && |p.body| == 2 && p.body[0].local == 1 && p.body[1].local == 0 && p.counter == 0 && p.result == 1
    requires p.initial.Keys == {0} && p.initial[0] == 0 && p.limit == 1
    requires StepOf(p) == Some(1) && SelfDelta(Update(p), 1) == Some(Delta(Const(1), 1))
    requires AccumulatorValue(0, Const(1), 1, 0, 0, 1, 1, p.methods) == Some(1)
    ensures AffineWhile(p) == Some(1)
  {
    hide StepOf, SelfDelta, AccumulatorValue, Writes;
    assert IterationCount(0, 1, 1, false) == Some(1);
  }

  lemma {:induction false} NilSum(ms: Methods)
    ensures AccumulatorValue(0, Const(1), 1, 0, 0, 1, 1, ms) == Some(1)
  {
    assert Linear(Const(1), 0, ms) == Some(Affine(0, 1)) && CounterSum(0, 1, 1) == 0;
  }

  lemma {:induction false} NilAccepted(p: WhilePlan)
    requires WellFormedWhile(p) && p.body == [Next(1), Next(0)] && p.locals == 2 && p.counter == 0 && p.initial == map[0 := 0] && p.limit == 1
    requires StepOf(p) == Some(1)
    ensures WhileAccepted(p)
  {
    NilUnproven(p);
    NextBody(p.body, Start(p), p.methods, 0, 0);
    assert CheckedIterate(p, 0) == Some(Start(p));
    assert CheckedIterate(p, 1) == Some([1, 1]);
    assert Simulated(p, 1);
  }

  lemma {:induction false} NilUnproven(p: WhilePlan)
    requires WellFormedWhile(p) && p.body == [Next(1), Next(0)] && p.locals == 2 && p.counter == 0 && p.initial == map[0 := 0] && p.limit == 1
    requires StepOf(p) == Some(1)
    ensures WhileVerdict(p) == Unproven
  {
    assert IterationCount(0, 1, 1, false) == Some(1) && LastValue(0, 1, 1) == Some(0);
    var s, shape := StartAnalysis(p.initial, 0, 0, 0), ShapeOf(0, 1, 1, p.body, p.methods, true);
    assert SelfDelta(Next(1).expr, 1) == Some(Delta(Const(1), 1));
    assert Analyze(s, Next(1), shape).None?;
  }

  lemma {:induction false} NextBody(body: seq<Assignment>, locals: seq<int64>, ms: Methods, i: int64, x: int64)
    requires body == [Next(1), Next(0)] && locals == [i, x] && 0 <= i < 100 && 0 <= x < 100
    ensures CheckedBody(body, locals, ms) == Some([i + 1, x + 1])
  {
    NextChecked(1, locals, ms);
    var mid := locals[1 := x + 1];
    NextChecked(0, mid, ms);
    assert body[1..] == [Next(0)] && body[1..][1..] == [];
    assert mid[0 := i + 1] == [i + 1, x + 1];
    assert CheckedBody(body[1..], mid, ms) == Some([i + 1, x + 1]);
  }

  lemma {:induction false} NextChecked(local: nat, locals: seq<int64>, ms: Methods)
    requires local < |locals| && 0 <= locals[local] < 100
    ensures Checked(Next(local).expr, locals, ms) == Some(locals[local] + 1)
  {
    assert Checked(Local(local), locals, ms) == Some(locals[local]) && Checked(Const(1), locals, ms) == Some(1);
  }

  // ---------------------------------------------------------------- a printed local the loop never reaches

  /** i = 5; while i < 3; x = 1; i = i + 1; end; puts x: Ruby prints an empty line, the plan 0. */
  lemma {:induction false} AcceptedUnreached(p: WhilePlan)
    requires p == WhilePlan(2, map[0 := 5], 0, 3, None, [Assignment(1, Const(1)), Next(0)], 1, map[])
    ensures WellFormedWhile(p) && WhileAccepted(p)
    ensures PlanPrints(p, 0) && forall v: int :: !RubyPrints(p, v)
  {
    assert p.body[0].local in Writes(p.body);
    assert CounterIndex(p.body, 0) == 1 by { assert p.body[1..][0] == p.body[1]; }
    assert StepOf(p) == Some(1) && WhileVerdict(p) == Accepted;
    assert RubyIterate(p, 0) == Some(Start(p)) && MachineIterate(p, 0) == Some(Start(p));
    assert RubyStops(p, 0) && MachineStops(p, 0);
    assert AffineWhile(p).None? by { assert SelfDelta(Const(1), 1).None?; }
    assert NumericIterate(p, 0) == Some(p.initial.Keys);
    NumbersOnlyIff(p, 0);
  }

  // ---------------------------------------------------------------- an unknown name

  /** a = 1; s = 0; a.upto(1) { |i| s = s + z }; puts s: Ruby raises NameError, the plan prints 0. */
  lemma {:induction false} AcceptedUnknownName(p: RangePlan)
    requires p == RangePlan(5, map[0 := 1, 1 := 0, 4 := 1], 0, 4, 2, 1, 1, true, Bin(Add, Local(1), Local(3)), map[])
    ensures WellFormedRange(p) && RangeAccepted(p)
    ensures RangeOutput(p) == Some(0) && RubyRangeOutput(p) == None
  {
    assert !ReadsOnly(p.expr, NamesInRange(p)) by { assert !ReadsOnly(p.expr.right, NamesInRange(p)); }
    UnknownNameRuns(RangeLoop(p), Frame(p.initial, p.locals));
    UnknownNameUnproven(p);
    RubyRangeOutputIsRun(p);
    UnknownNamePrints(p);
  }

  lemma {:induction false} UnknownNamePrints(p: RangePlan)
    requires WellFormedRange(p) && Trips(p) == 1 && RangeVerdict(p) == Unproven && p.sum == p.result == 1 && p.counter == 2
    requires SelfDelta(p.expr, 1) == Some(Delta(Local(3), 1)) && CheckedRun(RangeLoop(p), Frame(p.initial, p.locals), 1).Some?
    requires MachineRun(RangeLoop(p), Frame(p.initial, p.locals), 1).Some? && MachineRun(RangeLoop(p), Frame(p.initial, p.locals), 1).value[1] == 0
    ensures RangeAccepted(p) && RangeOutput(p) == Some(0)
  {
    hide MachineRun, CheckedRun, RangeVerdict, SelfDelta, CounterSum;
    assert Linear(Local(3), 2, p.methods).None?;
  }

  lemma {:induction false} UnknownNameRuns(l: Loop, f: seq<int64>)
    requires l.expr == Bin(Add, Local(1), Local(3)) && l.sum == 1 && l.counter == 2 && l.start == 1 && |f| == 5 && f[1] == f[3] == 0
    ensures CheckedRun(l, f, 1).Some? && MachineRun(l, f, 1).Some? && MachineRun(l, f, 1).value[1] == 0
    ensures SelfDelta(l.expr, 1) == Some(Delta(Local(3), 1))
  {
    ZeroSum(l.expr, f[2 := 1], l.methods);
    hide Checked, Unchecked;
    assert At(l.start, l.step, 0) == 1;
    assert CheckedRun(l, f, 0) == Some(f) && MachineRun(l, f, 0) == Some(f);
  }

  lemma {:induction false} ZeroSum(e: Expr, frame: seq<int64>, ms: Methods)
    requires e == Bin(Add, Local(1), Local(3)) && |frame| == 5 && frame[1] == frame[3] == 0
    ensures Checked(e, frame, ms) == Unchecked(e, frame, ms) == Some(0)
  {
    assert Checked(e.left, frame, ms) == Some(0) && Checked(e.right, frame, ms) == Some(0);
    assert Unchecked(e.left, frame, ms) == Some(0) && Unchecked(e.right, frame, ms) == Some(0);
  }

  lemma {:induction false} UnknownNameUnproven(p: RangePlan)
    requires WellFormedRange(p) && p.expr == Bin(Add, Local(1), Local(3)) && p.counter == 2 && p.sum == 1 && p.ascending
    requires 3 !in p.initial && p.initial[p.start] == p.initial[p.end] == 1
    ensures RangeVerdict(p) == Unproven
  {
    UnknownNameCount();
    hide IterationCount, LastValue, AnalyzeAll, Writes, EvalInterval, ReadsOnly, SelfDelta;
    var initial := p.initial[2 := 1];
    UnknownNameAnalysis(StartAnalysis(initial, 2, 1, 1), p.expr, ShapeOf(2, 1, 1, [Assignment(1, p.expr)], p.methods, false));
    UnknownNameVerdict(initial, [Assignment(1, p.expr)], p.methods);
  }

  lemma {:induction false} UnknownNameCount()
    ensures IterationCount(1, 1, 1, true) == Some(1) && LastValue(1, 1, 1) == Some(1)
  {
  }

  lemma {:induction false} UnknownNameVerdict(initial: Initials, body: seq<Assignment>, ms: Methods)
    requires AnalyzeAll(StartAnalysis(initial, 2, 1, 1), body, ShapeOf(2, 1, 1, body, ms, false)).None?
    ensures ValidateAffine(initial, 2, 1, 1, 1, true, body, ms, false) == Unproven
  {
    UnknownNameCount();
    hide IterationCount, LastValue, AnalyzeAll, StartAnalysis, ShapeOf;
  }

  lemma {:induction false} UnknownNameAnalysis(s: Analysis, e: Expr, shape: LoopShape)
    requires e == Bin(Add, Local(1), Local(3)) && shape.counter == 2 && 3 !in s.intervals
    ensures AnalyzeAll(s, [Assignment(1, e)], shape).None?
  {
    assert SelfDelta(e, 1) == Some(Delta(Local(3), 1));
    assert EvalInterval(Local(3), s.intervals, shape.methods).None?;
    assert Analyze(s, Assignment(1, e), shape).None?;
  }

  // ---------------------------------------------------------------- a limit that moves

  /** i = 0; n = 2; while i < n; n = n - 1; i = i + 1; end; puts i: Ruby prints 1, the plan 2. */
  lemma {:induction false} AcceptedMovingLimit(p: WhilePlan)
    requires p == WhilePlan(2, map[0 := 0, 1 := 2], 0, 2, Some(1), [Assignment(1, Bin(Sub, Local(1), Const(1))), Next(0)], 0, map[])
    ensures WellFormedWhile(p) && WhileAccepted(p)
    ensures PlanPrints(p, 2) && RubyPrints(p, 1)
  {
    MovingAccepted(p);
    MovingMachine(p);
    MovingRuby(p);
  }

  lemma {:induction false} MovingAccepted(p: WhilePlan)
    requires WellFormedWhile(p) && p.body == [Assignment(1, Bin(Sub, Local(1), Const(1))), Next(0)] && p.counter == 0
    requires p.initial == map[0 := 0, 1 := 2] && p.limit == 2
    ensures WhileVerdict(p) == Accepted && StepOf(p) == Some(1)
  {
    assert CounterIndex(p.body, 0) == 1 by { assert p.body[1..][0] == p.body[1]; }
    assert StepOf(p) == Some(1);
    assert IterationCount(0, 2, 1, false) == Some(2) && LastValue(0, 1, 2) == Some(1);
    hide IterationCount, LastValue, CounterIndex;
    MovingAnalysis(StartAnalysis(p.initial, 0, 0, 1), p.body[0], p.body[1], ShapeOf(0, 1, 2, p.body, p.methods, true));
    assert p.body == [p.body[0], p.body[1]];
  }

  lemma {:induction false} MovingAnalysis(s: Analysis, first: Assignment, step: Assignment, shape: LoopShape)
    requires first == Assignment(1, Bin(Sub, Local(1), Const(1))) && step == Next(0)
    requires s.seen == {} && 0 in s.processed && 1 in s.intervals && s.intervals[1] == Interval(2, 2)
    requires shape.counter == 0 && shape.step == 1 && shape.count == 2 && shape.requireCounter
    ensures AnalyzeAll(s, [first, step], shape).Some? && AnalyzeAll(s, [first, step], shape).value.counterAssigned
  {
    var t := Analyze(s, first, shape);
    MovingUpdate(s, first, shape);
    assert CounterStep(step.expr, 0) == Some(1);
    assert Analyze(t.value, step, shape) == Some(t.value.(seen := {1} + {0}, counterAssigned := true));
    hide Analyze;
    assert [first, step][1..] == [step] && [step][1..] == [];
    assert AnalyzeAll(t.value, [step], shape) == Analyze(t.value, step, shape);
  }

  lemma {:induction false} MovingUpdate(s: Analysis, first: Assignment, shape: LoopShape)
    requires first == Assignment(1, Bin(Sub, Local(1), Const(1)))
    requires s.seen == {} && 0 in s.processed && 1 in s.intervals && s.intervals[1] == Interval(2, 2)
    requires shape.counter == 0 && shape.count == 2
    ensures Analyze(s, first, shape).Some? && Analyze(s, first, shape).value.seen == {1}
  {
    assert SelfDelta(first.expr, 1) == Some(Delta(Const(1), -1));
    assert AccumulatorRange(Interval(2, 2), Interval(1, 1), -1, 2) == Some(Interval(0, 0));
    assert EvalInterval(Const(1), s.intervals, shape.methods) == Some(Interval(1, 1));
    assert !ReferencesUnprocessed(Const(1), shape.writes, s.processed, 0);
  }

  lemma {:induction false} MovingMachine(p: WhilePlan)
    requires WellFormedWhile(p) && p.body == [Assignment(1, Bin(Sub, Local(1), Const(1))), Next(0)] && p.counter == p.result == 0
    requires p.initial == map[0 := 0, 1 := 2] && p.limit == 2 && p.locals == 2
    ensures PlanPrints(p, 2)
  {
    MovingBody(p.body, Start(p), p.methods, 0, 2);
    assert MachineIterate(p, 0) == Some([0, 2]);
    assert MachineIterate(p, 1) == Some([1, 1]);
    MovingBody(p.body, [1, 1], p.methods, 1, 1);
    assert MachineIterate(p, 2) == Some([2, 0]);
    assert MachineStops(p, 2);
    assert AffineWhile(p).None?;
  }

  lemma {:induction false} MovingBody(body: seq<Assignment>, locals: seq<int64>, ms: Methods, i: int64, n: int64)
    requires body == [Assignment(1, Bin(Sub, Local(1), Const(1))), Next(0)] && locals == [i, n] && 0 <= i < 100 && 0 < n < 100
    ensures MachineBody(body, locals, ms) == Some([i + 1, n - 1])
  {
    var e, f := body[0].expr, Next(0).expr;
    assert Unchecked(e.left, locals, ms) == Some(n) && Unchecked(e.right, locals, ms) == Some(1);
    assert Unchecked(e, locals, ms) == Some(n - 1);
    var mid := locals[1 := n - 1];
    assert Unchecked(f.left, mid, ms) == Some(i) && Unchecked(f.right, mid, ms) == Some(1);
    assert Unchecked(f, mid, ms) == Some(i + 1);
    hide Unchecked;
    assert body[1..] == [Next(0)] && body[1..][1..] == [];
    assert mid[0 := i + 1] == [i + 1, n - 1];
    assert MachineBody(body[1..], mid, ms) == Some([i + 1, n - 1]);
  }

  lemma {:induction false} MovingRuby(p: WhilePlan)
    requires WellFormedWhile(p) && p.body == [Assignment(1, Bin(Sub, Local(1), Const(1))), Next(0)] && p.counter == p.result == 0
    requires p.initial == map[0 := 0, 1 := 2] && p.limit == 2 && p.locals == 2 && p.limitLocal == Some(1)
    ensures RubyPrints(p, 1)
  {
    assert p.initial.Keys == {0, 1};
    assert ValueFrame(p.initial, 2) == [M.IntV(0), M.IntV(2)];
    MovingValues(p.body, ValueFrame(p.initial, 2), p.initial.Keys, p.methods);
    assert ValueIterate(p, 0) == Some([M.IntV(0), M.IntV(2)]);
    assert ValueIterate(p, 1) == Some([M.IntV(1), M.IntV(1)]);
    assert ValueStops(p, 1);
  }

  lemma {:induction false} MovingValues(body: seq<Assignment>, env: seq<Value>, known: set<nat>, ms: Methods)
    requires body == [Assignment(1, Bin(Sub, Local(1), Const(1))), Next(0)] && env == [M.IntV(0), M.IntV(2)] && known == {0, 1}
    ensures ValueBody(body, env, known, ms) == Some([M.IntV(1), M.IntV(1)])
  {
    var e, f := body[0].expr, Next(0).expr;
    var names := known + {1};
    assert ValueOf(e.left, env, names, ms) == Some(M.IntV(2)) && ValueOf(e.right, env, names, ms) == Some(M.IntV(1));
    assert ValueOf(e, env, names, ms) == Some(M.IntV(1));
    var mid, more := env[1 := M.IntV(1)], names + {0};
    assert ValueOf(f.left, mid, more, ms) == Some(M.IntV(0)) && ValueOf(f.right, mid, more, ms) == Some(M.IntV(1));
    assert ValueOf(f, mid, more, ms) == Some(M.IntV(1));
    hide ValueOf;
    assert body[1..] == [Next(0)] && body[1..][1..] == [];
    assert mid[0 := M.IntV(1)] == [M.IntV(1), M.IntV(1)];
    assert ValueBody(body[1..], mid, names, ms) == Some([M.IntV(1), M.IntV(1)]);
  }
}
