/** Safe loops are accepted. */
module AotComplete {
  // Nothing but Ruby's run and the safety of its expressions is assumed, and the number of iterations is written out.

  import opened Options
  import opened Int64
  import opened Bits
  import opened AotExpr
  import opened AotChecked
  import opened AotInterval
  import opened AotSelfDelta
  import opened AotLoops
  import opened AotValidate
  import opened AotCounted
  import opened AotPeriodic
  import opened AotValues
  import opened AotTimes
  import opened AotRange
  import opened AotWhile
  import opened AotWhileSound

  // ---------------------------------------------------------------- counted loops

  /** In Ruby's run the update of iteration j is safe: every node has a value, and that value is a machine integer. */
  ghost predicate SafeAt(l: Loop, locals: seq<int>, j: nat)
    requires l.sum < |locals| && l.counter < |locals|
  {
    RubyRun(l, locals, j).Some? && Safe(l.expr, RubyRun(l, locals, j).value[l.counter := At(l.start, l.step, j)], l.methods)
  }

  ghost predicate SafeLoop(l: Loop, locals: seq<int>, n: nat)
    requires l.sum < |locals| && l.counter < |locals|
  {
    forall j: nat :: j < n ==> Fits(At(l.start, l.step, j)) && SafeAt(l, locals, j)
  }

  lemma {:induction false} SafeBefore(l: Loop, locals: seq<int>, n: nat)
    requires l.sum < |locals| && l.counter < |locals| && SafeLoop(l, locals, n) && n > 0
    ensures SafeLoop(l, locals, n - 1) && SafeAt(l, locals, n - 1) && Fits(At(l.start, l.step, n - 1))
  {
    hide SafeAt, At;
  }

  lemma {:induction false} SafeStep(l: Loop, locals: seq<int64>, k: nat)
    requires l.sum < |locals| && l.counter < |locals| && SafeAt(l, locals, k) && Fits(At(l.start, l.step, k))
    requires CheckedRun(l, locals, k).Some? && RubyRun(l, locals, k) == CheckedRun(l, locals, k)
    ensures CheckedRun(l, locals, k + 1).Some? && RubyRun(l, locals, k + 1) == CheckedRun(l, locals, k + 1)
  {
    var frame := CheckedRun(l, locals, k).value[l.counter := At(l.start, l.step, k)];
    CheckedExact(l.expr, frame, l.methods);
    hide Safe, RubyEval, Checked;
  }

  lemma {:induction false} SafeStart(l: Loop, locals: seq<int64>)
    requires l.sum < |locals| && l.counter < |locals|
    ensures CheckedRun(l, locals, 0).Some? && RubyRun(l, locals, 0) == CheckedRun(l, locals, 0)
  {
  }

  /** A safe loop survives the simulation. */
  lemma {:induction false} SafeIsSimulated(l: Loop, locals: seq<int64>, n: nat)
    requires l.sum < |locals| && l.counter < |locals| && SafeLoop(l, locals, n)
    ensures CheckedRun(l, locals, n).Some? && RubyRun(l, locals, n) == CheckedRun(l, locals, n)
    decreases n
  {
    hide *;
    if n == 0 {
      SafeStart(l, locals);
    } else {
      SafeBefore(l, locals, n);
      SafeIsSimulated(l, locals, n - 1);
      SafeStep(l, locals, n - 1);
    }
  }

  /** The verdict from intervals refuses a loop exactly for its length: the test succeeds more than 100000000 times, as far as
      that number is a machine integer. */
  lemma {:induction false} RejectedIff(initial: Initials, counter: nat, start: int64, limit: int64, step: int64, inclusive: bool,
                                       body: seq<Assignment>, ms: Methods, requireCounter: bool, n: nat)
    requires step != 0 && step != MIN && TripCount(n, start, limit, step, inclusive)
    ensures ValidateAffine(initial, counter, start, limit, step, inclusive, body, ms, requireCounter) == Rejected
            <==> 100_000_000 < n <= 0x7fff_ffff_ffff_ffff
  {
    IterationCountExact(start, limit, step, inclusive);
    var count := IterationCount(start, limit, step, inclusive);
    var m := if count.Some? then count.value
             else CeilDiv(Distance(start, limit, step, inclusive), if step > 0 then step else 0 - step);
    OneTripCount(m, n, start, limit, step, inclusive);
    hide IterationCount, AnalyzeAll, LastValue, TripCount;
  }

  lemma {:induction false} OneTripCount(m: int, n: int, start: int, limit: int, step: int, inclusive: bool)
    requires TripCount(m, start, limit, step, inclusive) && TripCount(n, start, limit, step, inclusive)
    ensures m == n
  {
  }

  // ---------------------------------------------------------------- range plans

  lemma {:induction false} RangeTrips(p: RangePlan)
    requires WellFormedRange(p)
    ensures TripCount(Trips(p), p.initial[p.start], p.initial[p.end], Step(p), true)
  {
  }

  /** A range plan of at most 100000000 iterations that is safe in Ruby is accepted; a longer one is refused. */
  lemma {:induction false} SafeRangeAccepted(p: RangePlan)
    requires WellFormedRange(p)
    ensures Trips(p) <= 100_000_000 && SafeLoop(RangeLoop(p), Frame(p.initial, p.locals), Trips(p)) ==> RangeAccepted(p)
    ensures Trips(p) > 100_000_000 ==> !RangeAccepted(p)
  {
    RangeTrips(p);
    RejectedIff(p.initial[p.counter := p.initial[p.start]], p.counter, p.initial[p.start], p.initial[p.end], Step(p), true,
                [Assignment(p.sum, p.expr)], p.methods, false, Trips(p));
    TripsCounted(p);
    if Trips(p) <= 100_000_000 && SafeLoop(RangeLoop(p), Frame(p.initial, p.locals), Trips(p)) {
      SafeIsSimulated(RangeLoop(p), Frame(p.initial, p.locals), Trips(p));
    }
    hide AnalyzeAll, CheckedRun, SafeLoop, TripCount;
  }

  // ---------------------------------------------------------------- while plans

  /** The statements of one pass are safe, one after the other. */
  ghost predicate SafeBody(body: seq<Assignment>, env: seq<int>, ms: Methods)
    requires InFrame(body, |env|)
    decreases |body|
  {
    body != [] ==> Safe(body[0].expr, env, ms) && SafeBody(body[1..], env[body[0].local := RubyEval(body[0].expr, env, ms).value], ms)
  }

  lemma {:induction false} SafeBodyIsChecked(body: seq<Assignment>, locals: seq<int64>, ms: Methods)
    requires InFrame(body, |locals|) && SafeBody(body, locals, ms)
    ensures CheckedBody(body, locals, ms).Some? && RubyBody(body, locals, ms) == CheckedBody(body, locals, ms)
    decreases |body|
  {
    if body != [] {
      CheckedExact(body[0].expr, locals, ms);
      SafeBodyIsChecked(body[1..], locals[body[0].local := Checked(body[0].expr, locals, ms).value], ms);
    }
  }

  /** Ruby's loop stops after n iterations, all safe, and its counter advances in all but possibly the last. */
  ghost predicate SafeWhile(p: WhilePlan, n: nat)
    requires WellFormedWhile(p)
  {
    && RubyStops(p, n)
    && (forall k: nat :: k < n ==> SafeBody(p.body, RubyIterate(p, k).value, p.methods))
    && (forall k: nat :: 0 < k < n ==> RubyIterate(p, k).value[p.counter] > RubyIterate(p, k - 1).value[p.counter])
  }

  lemma {:induction false} SafeIterate(p: WhilePlan, n: nat, k: nat)
    requires WellFormedWhile(p) && SafeWhile(p, n) && k <= n
    ensures CheckedIterate(p, k).Some? && CheckedIterate(p, k) == RubyIterate(p, k)
  {
    if k > 0 {
      SafeIterate(p, n, k - 1);
      SafeBodyIsChecked(p.body, CheckedIterate(p, k - 1).value, p.methods);
    }
  }

  lemma {:induction false} SafeWhileIsSimulated(p: WhilePlan, n: nat)
    requires WellFormedWhile(p) && SafeWhile(p, n) && n <= 100_000_000
    ensures Simulated(p, n)
  {
    forall k: nat | k <= n ensures CheckedIterate(p, k).Some? && CheckedIterate(p, k) == RubyIterate(p, k) { SafeIterate(p, n, k); }
  }

  /** The exception: the first counter assignment alone would take the counter to the limit in more than 100000000 steps. */
  predicate CountedTooLong(p: WhilePlan)
    requires WellFormedWhile(p)
  {
    && StepOf(p).Some? && p.initial[p.counter] < p.limit
    && 100_000_000 < CeilDiv(p.limit - p.initial[p.counter], StepOf(p).value) <= 0x7fff_ffff_ffff_ffff
  }

  lemma {:induction false} WhileRejectedIff(p: WhilePlan)
    requires WellFormedWhile(p)
    ensures WhileVerdict(p) == Rejected <==> CountedTooLong(p)
  {
    if StepOf(p).Some? {
      var start, step := p.initial[p.counter], StepOf(p).value;
      assert step > 0;
      if start < p.limit {
        CeilTrips(start, p.limit, step, false, step);
        RejectedIff(p.initial, p.counter, start, p.limit, step, false, p.body, p.methods, true, CeilDiv(p.limit - start, step));
      } else {
        assert At(start, step, 0) == start;
        RejectedIff(p.initial, p.counter, start, p.limit, step, false, p.body, p.methods, true, 0);
      }
    }
  }

  /** A while plan of at most 100000000 iterations that is safe in Ruby and whose counter advances is accepted, with exactly
      that exception. */
  lemma {:induction false} SafeWhileAccepted(p: WhilePlan, n: nat)
    requires WellFormedWhile(p) && SafeWhile(p, n) && n <= 100_000_000
    ensures WhileAccepted(p) <==> !CountedTooLong(p)
  {
    WhileRejectedIff(p);
    SafeWhileIsSimulated(p, n);
    hide WhileVerdict, Simulated, SafeWhile, CountedTooLong;
  }

  // ---------------------------------------------------------------- long while plans

  lemma {:induction false} StopsOnce(p: WhilePlan, m: nat, n: nat)
    requires WellFormedWhile(p) && RubyStops(p, m) && RubyStops(p, n)
    ensures m == n
  {
    assert RubyIterate(p, Min(m, n)).Some?;
  }

  /** An accepted body moves the counter by the step, once. */
  lemma {:induction false} BodySteps(s: Analysis, body: seq<Assignment>, shape: LoopShape, env: seq<int>, ms: Methods)
    requires AnalyzeAll(s, body, shape).Some? && InFrame(body, |env|) && RubyBody(body, env, ms).Some? && shape.counter < |env|
    requires s.counterAssigned <==> shape.counter in s.seen
    ensures var t, g := AnalyzeAll(s, body, shape).value, RubyBody(body, env, ms).value;
            && (s.counterAssigned ==> t.counterAssigned)
            && g[shape.counter] == env[shape.counter] + if t.counterAssigned && !s.counterAssigned then shape.step else 0
    decreases |body|
  {
    if body != [] {
      var t, v := Analyze(s, body[0], shape).value, RubyEval(body[0].expr, env, ms).value;
      if body[0].local == shape.counter { StepValue(body[0].expr, shape.counter, shape.step, env, ms); }
      StepSeen(s, body[0], shape);
      hide Analyze, RubyEval;
      BodySteps(t, body[1..], shape, env[body[0].local := v], ms);
    }
  }

  lemma {:induction false} StepSeen(s: Analysis, a: Assignment, shape: LoopShape)
    requires Analyze(s, a, shape).Some? && (s.counterAssigned <==> shape.counter in s.seen)
    ensures var t := Analyze(s, a, shape).value;
            && (t.counterAssigned <==> shape.counter in t.seen) && (a.local != shape.counter ==> t.counterAssigned == s.counterAssigned)
            && (a.local == shape.counter ==> !s.counterAssigned && t.counterAssigned)
  {
    hide EvalInterval, SelfDelta, ReferencesUnprocessed, AccumulatorRange;
  }

  lemma {:induction false} StepValue(e: Expr, counter: nat, step: int64, env: seq<int>, ms: Methods)
    requires CounterStep(e, counter) == Some(step) && counter < |env|
    ensures RubyEval(e, env, ms) == Some(env[counter] + step)
  {
    assert RubyEval(e.left, env, ms).Some? && RubyEval(e.right, env, ms).Some?;
  }

  lemma {:induction false} IterateSteps(p: WhilePlan, s: Analysis, shape: LoopShape, n: nat, k: nat)
    requires WellFormedWhile(p) && RubyStops(p, n) && k <= n && shape.counter == p.counter
    requires AnalyzeAll(s, p.body, shape).Some? && AnalyzeAll(s, p.body, shape).value.counterAssigned && !s.counterAssigned && s.seen == {}
    ensures RubyIterate(p, k).Some? && RubyIterate(p, k).value[p.counter] == At(p.initial[p.counter], shape.step, k)
  {
    if k > 0 {
      IterateSteps(p, s, shape, n, k - 1);
      assert RubyIterate(p, k).Some?;
      BodySteps(s, p.body, shape, RubyIterate(p, k - 1).value, p.methods);
    }
  }

  /** A loop accepted from intervals makes at most 100000000 iterations in Ruby, if it stops at all. */
  lemma {:induction false} IntervalsAreShort(p: WhilePlan, n: nat)
    requires WellFormedWhile(p) && WhileVerdict(p) == Accepted && RubyStops(p, n)
    ensures n <= 100_000_000
  {
    var start, step := p.initial[p.counter], StepOf(p).value;
    var count := IterationCount(start, p.limit, step, false).value;
    IterationCountExact(start, p.limit, step, false);
    assert RubyIterate(p, 0).value[p.counter] == start && At(start, step, 0) == start;
    if count > 0 {
      var last := LastValue(start, step, count).value;
      var s, shape := StartAnalysis(p.initial, p.counter, start, last), ShapeOf(p.counter, step, count, p.body, p.methods, true);
      hide AnalyzeAll, IterationCount, LastValue, StepOf, RubyIterate;
      forall k: nat | k <= n ensures RubyIterate(p, k).Some? && RubyIterate(p, k).value[p.counter] == At(start, step, k) {
        IterateSteps(p, s, shape, n, k);
      }
      OneTripCount(count, n, start, p.limit, step, false);
    } else {
      assert !Continues(At(start, step, 0), p.limit, step, false);
    }
  }

  /** A while loop of more than 100000000 iterations is refused. */
  lemma {:induction false} LongWhileRefused(p: WhilePlan, n: nat)
    requires WellFormedWhile(p) && RubyStops(p, n) && n > 100_000_000
    ensures !WhileAccepted(p)
  {
    if WhileVerdict(p) == Accepted { IntervalsAreShort(p, n); }
    forall m: nat ensures !Simulated(p, m) {
      if Simulated(p, m) {
        SimulatedPlanAgrees(p, m);
        StopsOnce(p, m, n);
      }
    }
  }

  // ---------------------------------------------------------------- times plans

  /** The update is the sum plus or minus i % m, and the intervals accept it: every step counted as m - 1, of either sign. */
  predicate WidestFits(p: TimesPlan, m: int)
    requires WellFormed(p)
  {
    && p.counter != p.sum && p.sum != 0
    && Fits(p.initial[p.sum] - Iterations(p) * (m - 1)) && Fits(p.initial[p.sum] + Iterations(p) * (m - 1))
  }

  /** The exception: a sum of i % m, or of i masked with m - 1, that would leave int64 if the loop began one more period. */
  predicate ExtraPeriodOverflows(p: TimesPlan)
    requires WellFormed(p)
  {
    && Iterations(p) > 0 && PeriodicLoop(TimesLoop(p))
    && var m, d := LoopPeriod(TimesLoop(p)), SelfDelta(p.expr, p.sum).value;
       && !(d.expr.op == Mod && WidestFits(p, m))
       && !Fits(p.initial[p.sum] + d.sign * ((Iterations(p) / m + 1) * (m * (m - 1) / 2)))
  }

  /** The total of one period. */
  lemma {:induction false} PeriodTotal(m: int, n: nat)
    requires m > 0 && n <= m
    ensures Prefix(m, n) * 2 == n * (n - 1)
  {
    if n > 0 {
      PeriodTotal(m, n - 1);
      SmallMod(n - 1, m);
      assert n * (n - 1) == (n - 1) * (n - 2) + 2 * (n - 1);
    }
  }

  lemma {:induction false} WholePeriod(m: int)
    requires m > 0
    ensures Prefix(m, m) == m * (m - 1) / 2
  {
    PeriodTotal(m, m);
  }

  /** The recognized deltas: i % m, and i & (m - 1) for a power of two. */
  lemma {:induction false} RecognizedIff(e: Expr, counter: nat, m: int64)
    ensures PeriodOf(e, counter) == Some(m)
            <==> 1 <= m <= 1_000_000
                 && (e == Bin(Mod, Local(counter), Const(m))
                     || (m > 1 && e == Bin(BitAnd, Local(counter), Const(m - 1)) && exists k: nat :: m == Pow2(k)))
  {
    if e.Bin? && IsLocal(e.left, counter) && e.right.Const? {
      var modulus := e.right.value;
      assert e == Bin(e.op, Local(counter), Const(modulus));
      hide Word64, Pow2;
      if 1 <= modulus <= 1_000_000 { MaskTest(modulus + 1); }
    }
  }

  /** The mask test of a period of at least 2. */
  lemma {:induction false} MaskTest(m: int64)
    requires 2 <= m <= 1_000_001
    ensures Word64(And, m, m - 1) == 0 <==> exists k: nat :: m == Pow2(k)
    ensures Word64(And, m, m - 1) == 0 ==> m <= 1_000_000
  {
    hide Word64, Bitwise;
    MaskedIffPower(m);
    Word64IsBitwise(And, m, m - 1);
    if k: nat :| m == Pow2(k) { OddPower(k); }
  }

  lemma {:induction false} PeriodicShape(p: TimesPlan)
    requires WellFormed(p) && PeriodicLoop(TimesLoop(p))
    ensures var m, d := LoopPeriod(TimesLoop(p)), SelfDelta(p.expr, p.sum).value.expr;
            && 1 <= m <= 1_000_000
            && (d == Bin(Mod, Local(p.counter), Const(m)) || d == Bin(BitAnd, Local(p.counter), Const(m - 1)))
  {
    RecognizedIff(SelfDelta(p.expr, p.sum).value.expr, p.counter, LoopPeriod(TimesLoop(p)));
  }

  /** The interval of i % m, of either sign, repeated. */
  lemma {:induction false} WidestRange(initial: int64, m: int64, sign: int, n: int64)
    requires 1 <= m <= 1_000_000 && 1 <= n <= 100_000_000
    ensures AccumulatorRange(Interval(initial, initial), Interval(1 - m, m - 1), sign, n).Some?
            <==> Fits(initial - n * (m - 1)) && Fits(initial + n * (m - 1))
  {
    ProductBound(n, m - 1, 100_000_000, 1_000_000);
    assert (1 - m) * n == -(n * (m - 1)) && (m - 1) * n == n * (m - 1);
  }

  lemma {:induction false} ProductBound(x: int, y: int, a: int, b: int)
    requires 0 <= x <= a && 0 <= y <= b
    ensures 0 <= x * y <= a * b
  {
    assert x * y <= a * y by { assert (a - x) * y >= 0; }
    assert a * y <= a * b by { assert a * (b - y) >= 0; }
  }

  lemma {:induction false} DeltaAnalysis(s: Analysis, a: Assignment, shape: LoopShape, initial: int64, m: int64)
    requires SelfDelta(a.expr, a.local).Some? && a.local != shape.counter && !shape.requireCounter && s.seen == {} && s.processed == {shape.counter}
    requires shape.writes == {a.local} && a.local in s.intervals && s.intervals[a.local] == Interval(initial, initial)
    requires shape.counter in s.intervals && 1 <= m <= 1_000_000 && 1 <= shape.count <= 100_000_000
    requires var d := SelfDelta(a.expr, a.local).value.expr;
             d == Bin(Mod, Local(shape.counter), Const(m)) || d == Bin(BitAnd, Local(shape.counter), Const(m - 1))
    ensures Analyze(s, a, shape).Some? <==>
            SelfDelta(a.expr, a.local).value.expr.op == Mod && a.local != 0
            && Fits(initial - shape.count * (m - 1)) && Fits(initial + shape.count * (m - 1))
  {
    var d := SelfDelta(a.expr, a.local).value;
    WidestRange(initial, m, d.sign, shape.count);
    assert EvalInterval(d.expr.left, s.intervals, shape.methods).Some?;
    assert EvalInterval(d.expr.right, s.intervals, shape.methods) == Some(Interval(d.expr.right.value, d.expr.right.value));
    assert EvalInterval(d.expr, s.intervals, shape.methods) == if d.expr.op == Mod then Some(Interval(1 - m, m - 1)) else None;
    assert !Contains(d.expr, a.local);
    assert ReferencesUnprocessed(d.expr, shape.writes, s.processed, shape.counter) <==> a.local == 0;
    hide EvalInterval, AccumulatorRange, SelfDelta, ReferencesUnprocessed, Contains;
  }

  lemma {:induction false} OneAssignment(s: Analysis, a: Assignment, shape: LoopShape)
    ensures AnalyzeAll(s, [a], shape) == Analyze(s, a, shape)
  {
    hide Analyze;
    assert [a][0] == a && [a][1..] == [];
  }

  lemma {:induction false} TimesTrips(count: int64)
    ensures TripCount(Max(0, count), 0, count, 1, false)
    ensures count > 0 ==> IterationCount(0, count, 1, false) == Some(count) && LastValue(0, 1, count) == Some(count - 1)
    ensures count <= 0 ==> IterationCount(0, count, 1, false) == Some(0)
  {
  }

  /** When the intervals accept a periodic update. */
  lemma {:induction false} PeriodicAffineIff(p: TimesPlan)
    requires WellFormed(p) && 0 < Iterations(p) <= 100_000_000 && PeriodicLoop(TimesLoop(p))
    ensures AffineVerdict(p) == Accepted
            <==> SelfDelta(p.expr, p.sum).value.expr.op == Mod && WidestFits(p, LoopPeriod(TimesLoop(p)))
  {
    var n, m, a := p.initial[p.count], LoopPeriod(TimesLoop(p)), Assignment(p.sum, p.expr);
    var s := StartAnalysis(p.initial[p.counter := 0], p.counter, 0, n - 1);
    var shape := ShapeOf(p.counter, 1, n, [a], p.methods, false);
    TimesTrips(n);
    PeriodicShape(p);
    OneAssignment(s, a, shape);
    assert shape.writes == {p.sum} by { assert [a][0] == a; }
    if p.counter == p.sum {
      assert Analyze(s, a, shape).None?;
    } else {
      DeltaAnalysis(s, a, shape, p.initial[p.sum], m);
    }
    hide Analyze, AnalyzeAll, SelfDelta, PeriodicLoop, IterationCount, LastValue, Fits, StartAnalysis, ShapeOf;
  }

  lemma {:induction false} PeriodicRejectedIff(p: TimesPlan)
    requires WellFormed(p) && Iterations(p) > 0
    ensures PeriodicVerdict(p) == Rejected
            <==> PeriodicLoop(TimesLoop(p))
                 && var m := LoopPeriod(TimesLoop(p));
                    !Fits(p.initial[p.sum] + SelfDelta(p.expr, p.sum).value.sign * ((Iterations(p) / m + 1) * (m * (m - 1) / 2)))
  {
    if PeriodicLoop(TimesLoop(p)) {
      PeriodicShape(p);
      WholePeriod(LoopPeriod(TimesLoop(p)));
    }
    hide Prefix, PeriodicLoop, LoopPeriod, SelfDelta;
  }

  lemma {:induction false} TimesRejectedIff(p: TimesPlan)
    requires WellFormed(p)
    ensures AffineVerdict(p) == Rejected <==> Iterations(p) > 100_000_000
    ensures Iterations(p) == 0 ==> PeriodicVerdict(p) != Rejected
  {
    TimesTrips(p.initial[p.count]);
    RejectedIff(p.initial[p.counter := 0], p.counter, 0, p.initial[p.count], 1, false, [Assignment(p.sum, p.expr)], p.methods, false,
                Iterations(p));
    hide ValidateAffine, TripCount, ReadsOnly;
  }

  lemma {:induction false} ExtraPeriodIff(p: TimesPlan)
    requires WellFormed(p)
    ensures Iterations(p) <= 100_000_000 ==> (ExtraPeriodOverflows(p) <==> AffineVerdict(p) != Accepted && PeriodicVerdict(p) == Rejected)
  {
    hide PeriodicVerdict, SelfDelta, PeriodicLoop, WidestFits, AffineVerdict, LoopPeriod, ReadsOnly;
    TimesRejectedIff(p);
    if Iterations(p) > 0 {
      PeriodicRejectedIff(p);
      if Iterations(p) <= 100_000_000 && PeriodicLoop(TimesLoop(p)) { PeriodicAffineIff(p); }
    }
  }

  /** The three ways of a verdict, when the simulation would succeed. */
  lemma {:induction false} TimesCases(p: TimesPlan)
    requires WellFormed(p)
    ensures AffineVerdict(p) == Rejected ==> !TimesAccepted(p)
    ensures Iterations(p) <= 100_000_000 && CheckedRun(TimesLoop(p), Frame(p.initial, p.locals), Iterations(p)).Some? ==>
              (TimesAccepted(p) <==> AffineVerdict(p) == Accepted || (AffineVerdict(p) == Unproven && PeriodicVerdict(p) != Rejected))
  {
    hide AffineVerdict, PeriodicVerdict, CheckedRun, Frame, ReadsOnly;
  }

  /** A times plan of at most 100000000 iterations that is safe in Ruby is accepted, with exactly that exception; a longer one
      is refused. */
  lemma {:induction false} SafeTimesAccepted(p: TimesPlan)
    requires WellFormed(p)
    ensures Iterations(p) <= 100_000_000 && SafeLoop(TimesLoop(p), Frame(p.initial, p.locals), Iterations(p)) ==>
              (TimesAccepted(p) <==> !ExtraPeriodOverflows(p))
    ensures Iterations(p) > 100_000_000 ==> !TimesAccepted(p)
  {
    TimesCases(p);
    TimesRejectedIff(p);
    ExtraPeriodIff(p);
    var n := Iterations(p);
    hide *;
    if n <= 100_000_000 && SafeLoop(TimesLoop(p), Frame(p.initial, p.locals), n) {
      SafeIsSimulated(TimesLoop(p), Frame(p.initial, p.locals), n);
    }
  }

  // ---------------------------------------------------------------- safe plans that are refused

  /** n = 1; s = the greatest machine integer; n.times { |i| s = s + i % 3 }: the one iteration adds 0, the prover counts a whole
      period. */
  lemma {:induction false} RefusedPeriod(p: TimesPlan)
    requires p.locals == 3 && p.initial == map[0 := 1, 1 := 0x7fff_ffff_ffff_ffff] && p.count == 0 && p.counter == 2 && p.sum == p.result == 1
    requires p.expr == Bin(Add, Local(1), Bin(Mod, Local(2), Const(3)))
    ensures WellFormed(p) && SafeLoop(TimesLoop(p), Frame(p.initial, p.locals), Iterations(p)) && !TimesAccepted(p)
  {
    var d := Bin(Mod, Local(2), Const(3));
    assert ReadsOnly(d, InSight(p)) by { assert ReadsOnly(d.left, InSight(p)) && ReadsOnly(d.right, InSight(p)); }
    assert ReadsOnly(p.expr.left, InSight(p));
    assert SelfDelta(p.expr, 1) == Some(Delta(d, 1));
    RecognizedIff(d, 2, 3);
    OnlyAddsZero(p);
    assert ExtraPeriodOverflows(p);
    SafeTimesAccepted(p);
  }

  lemma {:induction false} OnlyAddsZero(p: TimesPlan)
    requires WellFormed(p) && Iterations(p) == 1 && p.locals == 3 && p.counter == 2 && p.sum == 1 && 1 in p.initial
    requires p.expr == Bin(Add, Local(1), Bin(Mod, Local(2), Const(3)))
    ensures SafeLoop(TimesLoop(p), Frame(p.initial, p.locals), 1)
  {
    var locals: seq<int> := Frame(p.initial, p.locals);
    assert Fits(locals[1]);
    hide Frame, ReadsOnly;
    AddedZero(p.expr, locals[2 := 0], p.methods);
    OneIteration(TimesLoop(p), locals);
  }

  lemma {:induction false} OneIteration(l: Loop, locals: seq<int>)
    requires l.sum < |locals| && l.counter < |locals| && Fits(l.start) && Safe(l.expr, locals[l.counter := l.start], l.methods)
    ensures SafeLoop(l, locals, 1)
  {
    hide Safe;
    assert At(l.start, l.step, 0) == l.start && RubyRun(l, locals, 0) == Some(locals);
    assert SafeAt(l, locals, 0);
  }

  lemma {:induction false} AddedZero(e: Expr, frame: seq<int>, ms: Methods)
    requires e == Bin(Add, Local(1), Bin(Mod, Local(2), Const(3))) && |frame| == 3 && frame[2] == 0 && Fits(frame[1])
    ensures Safe(e, frame, ms)
  {
    var d := e.right;
    assert Safe(d.left, frame, ms) && Safe(d.right, frame, ms);
    assert FloorMod(0, 3) == 0;
    assert RubyEval(d, frame, ms) == Some(0) && Safe(d, frame, ms);
    assert Safe(e.left, frame, ms);
  }

  /** i = 0; while i < 1000000000; i = i + 1; i = i + 1000000000; end: one iteration, counted as 1000000000. */
  lemma {:induction false} RefusedCount(p: WhilePlan)
    requires p.locals == 1 && p.initial == map[0 := 0] && p.counter == p.result == 0 && p.limit == 1_000_000_000 && p.limitLocal == None
    requires p.body == [Assignment(0, Bin(Add, Local(0), Const(1))), Assignment(0, Bin(Add, Local(0), Const(1_000_000_000)))]
    ensures WellFormedWhile(p) && SafeWhile(p, 1) && !WhileAccepted(p)
  {
    assert StepOf(p) == Some(1) && CountedTooLong(p);
    var first, second := p.body[0].expr, p.body[1].expr;
    assert Safe(first.left, [0], p.methods) && Safe(first.right, [0], p.methods) && RubyEval(first, [0], p.methods) == Some(1);
    assert Safe(second.left, [1], p.methods) && Safe(second.right, [1], p.methods) && RubyEval(second, [1], p.methods) == Some(1_000_000_001);
    assert p.body[1..] == [p.body[1]] && p.body[1..][1..] == [];
    var start: seq<int> := Start(p);
    var mid, end: seq<int> := [1], [1_000_000_001];
    assert start == [0] && start[0 := 1] == mid && mid[0 := 1_000_000_001] == end;
    OneStepBody(p.body[1], mid, p.methods);
    assert SafeBody(p.body[1..], mid, p.methods) && RubyBody(p.body[1..], mid, p.methods) == Some(end);
    assert SafeBody(p.body, start, p.methods) && RubyBody(p.body, start, p.methods) == Some(end);
    assert RubyIterate(p, 0) == Some(start) && RubyIterate(p, 1) == Some(end);
    assert RubyStops(p, 1);
    SafeWhileAccepted(p, 1);
  }
}
