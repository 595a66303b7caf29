/** While plans accepted from intervals. */
module AotWhileInterval {
  // Any number of accumulators before the counter step; each one is a counted loop of its own.

  import opened Options
  import opened Int64
  import opened AotExpr
  import opened AotInterval
  import opened AotSelfDelta
  import opened AotLoops
  import opened AotValidate
  import opened AotCounted
  import opened AotTimes
  import opened AotWhile
  import opened AotWhileSound

  /** The number of assignments before the last one. */
  function Parts(p: WhilePlan): nat
    requires p.body != []
  {
    |p.body| - 1
  }

  /** Accumulators that read no other written local but the counter, then the counter step. */
  predicate IntervalShape(p: WhilePlan)
    requires WellFormedWhile(p)
  {
    && p.body[Parts(p)].local == p.counter
    && (forall i :: 0 <= i < Parts(p) ==> p.body[i].local != p.counter && SoundUpdate(p.body[i].expr, p.body[i].local))
    && (forall i, j :: 0 <= i < Parts(p) && 0 <= j < Parts(p) && p.body[i].local != p.body[j].local ==> !Contains(p.body[i].expr, p.body[j].local))
  }

  /** The loop of one accumulator alone. */
  function PartLoop(p: WhilePlan, i: nat): Loop
    requires WellFormedWhile(p) && StepOf(p).Some? && i < |p.body|
  {
    Loop(p.body[i].expr, p.body[i].local, p.counter, p.initial[p.counter], StepOf(p).value, p.methods)
  }

  // ---------------------------------------------------------------- one verdict contains the others

  lemma {:induction false} SameIntervals(e: Expr, a: Intervals, b: Intervals, ms: Methods)
    requires forall s :: Contains(e, s) ==> (s in a <==> s in b) && (s in a ==> a[s] == b[s])
    ensures EvalInterval(e, a, ms) == EvalInterval(e, b, ms)
  {
    match e
    case Const(_) =>
    case Local(s) => assert Contains(e, s);
    case Call(_, arg) => SameIntervals(arg, a, b, ms);
    case Neg(x) => SameIntervals(x, a, b, ms);
    case Bin(_, l, r) =>
      SameIntervals(l, a, b, ms);
      SameIntervals(r, a, b, ms);
  }

  lemma {:induction false} DeltaReads(e: Expr, acc: nat, slot: nat)
    requires SelfDelta(e, acc).Some? && Contains(SelfDelta(e, acc).value.expr, slot)
    ensures Contains(e, slot)
  {
    if IsLocal(e.left, acc) || (e.op == Add && IsLocal(e.right, acc)) {
    } else if Contains(e.left, acc) {
      if !Contains(e.right, slot) { DeltaReads(e.left, acc, slot); }
    } else {
      if !Contains(e.left, slot) { DeltaReads(e.right, acc, slot); }
    }
  }

  lemma {:induction false} FewerWrites(e: Expr, writes: set<nat>, processed: set<nat>, others: set<nat>, fewer: set<nat>, counter: nat)
    requires forall s :: s in others && s !in fewer ==> s in writes && s !in processed
    requires !ReferencesUnprocessed(e, writes, processed, counter)
    ensures !ReferencesUnprocessed(e, others, fewer, counter)
  {
    match e
    case Neg(x) => FewerWrites(x, writes, processed, others, fewer, counter);
    case Bin(_, l, r) =>
      FewerWrites(l, writes, processed, others, fewer, counter);
      FewerWrites(r, writes, processed, others, fewer, counter);
    case _ =>
  }

  /** What the analysis has touched so far: only locals it has seen. */
  ghost predicate Touched(s: Analysis, s0: Analysis, counter: nat) {
    && s.processed <= {counter} + s.seen
    && forall x :: x !in s.seen ==> (x in s.intervals <==> x in s0.intervals) && (x in s.intervals ==> s.intervals[x] == s0.intervals[x])
  }

  /** An update accepted after others, none of whose locals it reads, is accepted alone. */
  lemma {:induction false} AcceptedAlone(s: Analysis, s0: Analysis, a: Assignment, shape: LoopShape, alone: LoopShape)
    requires Analyze(s, a, shape).Some? && a.local != shape.counter && a.local in shape.writes && Touched(s, s0, shape.counter)
    requires s0.seen == {} && s0.processed == {shape.counter}
    requires alone == shape.(writes := {a.local}, requireCounter := false)
    requires forall x :: x in s.seen && x != a.local ==> !Contains(a.expr, x)
    ensures Analyze(s0, a, alone).Some?
  {
    var d := SelfDelta(a.expr, a.local);
    var e := if d.Some? then d.value.expr else a.expr;
    forall x | Contains(e, x) ensures x !in s.seen {
      if d.Some? { DeltaReads(a.expr, a.local, x); }
    }
    SameIntervals(e, s.intervals, s0.intervals, shape.methods);
    FewerWrites(e, shape.writes, s.processed, alone.writes, s0.processed, shape.counter);
    hide EvalInterval, SelfDelta, ReferencesUnprocessed, Contains, AccumulatorRange;
  }

  lemma {:induction false} TouchedMore(s: Analysis, s0: Analysis, a: Assignment, shape: LoopShape)
    requires Analyze(s, a, shape).Some? && Touched(s, s0, shape.counter)
    ensures var t := Analyze(s, a, shape).value; Touched(t, s0, shape.counter) && t.seen == s.seen + {a.local} && a.local !in s.seen
  {
    hide EvalInterval, SelfDelta, ReferencesUnprocessed, Contains, AccumulatorRange;
  }

  /** Every accumulator of an accepted body is accepted alone, and no local is written twice. */
  lemma {:induction false} EachAccepted(s: Analysis, s0: Analysis, body: seq<Assignment>, shape: LoopShape, i: nat)
    requires AnalyzeAll(s, body, shape).Some? && i < |body| && body[i].local != shape.counter && body[i].local in shape.writes
    requires Touched(s, s0, shape.counter) && s0.seen == {} && s0.processed == {shape.counter}
    requires forall x :: x in s.seen && x != body[i].local ==> !Contains(body[i].expr, x)
    requires forall j :: 0 <= j < i && body[j].local != body[i].local ==> !Contains(body[i].expr, body[j].local)
    ensures Analyze(s0, body[i], shape.(writes := {body[i].local}, requireCounter := false)).Some?
    ensures body[i].local !in s.seen && forall j :: 0 <= j < i ==> body[j].local != body[i].local
    decreases |body|
  {
    hide Analyze, Touched;
    var t := Analyze(s, body[0], shape).value;
    TouchedMore(s, s0, body[0], shape);
    if i == 0 {
      AcceptedAlone(s, s0, body[0], shape, shape.(writes := {body[0].local}, requireCounter := false));
    } else {
      assert body[1..][i - 1] == body[i];
      assert forall j :: 0 <= j < i - 1 ==> body[1..][j] == body[j + 1];
      EachAccepted(t, s0, body[1..], shape, i - 1);
      assert forall j :: 0 < j < i ==> body[j] == body[1..][j - 1];
    }
  }

  /** The verdict on the body contains the verdict on each accumulator. */
  lemma {:induction false} PartAccepted(p: WhilePlan, n: int64, last: int64, i: nat)
    requires WellFormedWhile(p) && WhileVerdict(p) == Accepted && IntervalShape(p) && i < Parts(p)
    requires n == IterationCount(p.initial[p.counter], p.limit, StepOf(p).value, false).value && n > 0
    requires LastValue(p.initial[p.counter], StepOf(p).value, n) == Some(last)
    ensures LoopAccepted(PartLoop(p, i), p.initial, n, last)
    ensures forall j :: 0 <= j < i ==> p.body[j].local != p.body[i].local
  {
    var start, step := p.initial[p.counter], StepOf(p).value;
    var s := StartAnalysis(p.initial, p.counter, start, last);
    var shape := ShapeOf(p.counter, step, n, p.body, p.methods, true);
    var a := p.body[i];
    var alone := ShapeOf(p.counter, step, n, [a], p.methods, false);
    assert AnalyzeAll(s, p.body, shape).Some?;
    hide Analyze, StepOf, IterationCount, LastValue;
    EachAccepted(s, s, p.body, shape, i);
    assert Writes([a]) == {a.local} by { assert [a][0] == a; }
    assert Assignment(a.local, a.expr) == a;
    assert [a][1..] == [];
    assert AnalyzeAll(s, [a], alone).Some?;
  }

  // ---------------------------------------------------------------- one pass over the body

  /** All accumulators' loops agree with Ruby's after k iterations, and no local is written twice. */
  ghost predicate PartsAgree(p: WhilePlan, k: nat)
    requires WellFormedWhile(p) && StepOf(p).Some?
  {
    && (forall i :: 0 <= i < Parts(p) ==> Agree(PartLoop(p, i), Start(p), k))
    && (forall i, j :: 0 <= j < i < Parts(p) ==> p.body[j].local != p.body[i].local)
  }

  /** The accumulator of part i after k iterations of its own loop. */
  ghost function PartValue(p: WhilePlan, i: nat, k: nat): int64
    requires WellFormedWhile(p) && StepOf(p).Some? && i < Parts(p) && PartsAgree(p, k)
  {
    assert Agree(PartLoop(p, i), Start(p), k);
    MachineRun(PartLoop(p, i), Start(p), k).value[p.body[i].local]
  }

  predicate Written(p: WhilePlan, s: nat)
    requires WellFormedWhile(p)
  {
    exists j :: 0 <= j < Parts(p) && p.body[j].local == s
  }

  /** The first i accumulators have gone through k + 1 iterations, the others through k; nothing else but the counter moved. */
  ghost predicate Passed(p: WhilePlan, i: nat, k: nat, f: seq<int64>)
    requires WellFormedWhile(p) && StepOf(p).Some? && PartsAgree(p, k) && PartsAgree(p, k + 1)
  {
    && |f| == p.locals
    && (forall j :: 0 <= j < Parts(p) ==> f[p.body[j].local] == PartValue(p, j, if j < i then k + 1 else k))
    && (forall s :: 0 <= s < p.locals && s != p.counter && !Written(p, s) ==> f[s] == Start(p)[s])
  }

  lemma {:induction false} SameReadsSameUnchecked(e: Expr, env: seq<int64>, other: seq<int64>, ms: Methods)
    requires SameReads(e, env, other)
    ensures Unchecked(e, env, ms) == Unchecked(e, other, ms)
  {
    match e
    case Const(_) =>
    case Local(s) =>
    case Call(_, arg) => SameReadsSameUnchecked(arg, env, other, ms);
    case Neg(x) => SameReadsSameUnchecked(x, env, other, ms);
    case Bin(_, l, r) =>
      SameReadsSameUnchecked(l, env, other, ms);
      SameReadsSameUnchecked(r, env, other, ms);
  }

  /** Part i reads the same values in the body's frame and in its own loop's. */
  lemma {:induction false} PartReads(p: WhilePlan, i: nat, k: nat, f: seq<int64>, c: int64)
    requires WellFormedWhile(p) && StepOf(p).Some? && IntervalShape(p) && i < Parts(p) && PartsAgree(p, k) && PartsAgree(p, k + 1)
    requires Passed(p, i, k, f) && f[p.counter] == c
    ensures Agree(PartLoop(p, i), Start(p), k)
    ensures SameReads(p.body[i].expr, f, MachineRun(PartLoop(p, i), Start(p), k).value[p.counter := c])
  {
    assert Agree(PartLoop(p, i), Start(p), k);
    var own := MachineRun(PartLoop(p, i), Start(p), k).value;
    var g, e := own[p.counter := c], p.body[i].expr;
    forall s | 0 <= s < |f| && Contains(e, s) ensures f[s] == g[s] {
      if s == p.body[i].local { assert f[s] == PartValue(p, i, k); }
    }
  }

  /** Assignment i of the body does what one iteration of its own loop does. */
  lemma {:induction false} PartStep(p: WhilePlan, i: nat, k: nat, f: seq<int64>)
    requires WellFormedWhile(p) && StepOf(p).Some? && IntervalShape(p) && i < Parts(p) && PartsAgree(p, k) && PartsAgree(p, k + 1)
    requires Passed(p, i, k, f) && f[p.counter] == At(p.initial[p.counter], StepOf(p).value, k)
    ensures var v := PartValue(p, i, k + 1);
            && RubyEval(p.body[i].expr, f, p.methods) == Some(v) && Unchecked(p.body[i].expr, f, p.methods) == Some(v)
            && Passed(p, i + 1, k, f[p.body[i].local := v])
  {
    var l, v := PartLoop(p, i), PartValue(p, i, k + 1);
    var c := f[p.counter];
    PartReads(p, i, k, f, c);
    var g := MachineRun(l, Start(p), k).value[p.counter := c];
    hide IntervalShape, Contains;
    SameReadsSameValue(p.body[i].expr, f, g, p.methods);
    SameReadsSameUnchecked(p.body[i].expr, f, g, p.methods);
    PartIteration(p, i, k, g, c);
    hide RubyEval, Unchecked, PartValue, Passed, PartsAgree, StepOf;
    PassedMore(p, i, k, f);
  }

  lemma {:induction false} PassedMore(p: WhilePlan, i: nat, k: nat, f: seq<int64>)
    requires WellFormedWhile(p) && StepOf(p).Some? && i < Parts(p) && PartsAgree(p, k) && PartsAgree(p, k + 1) && Passed(p, i, k, f)
    ensures Passed(p, i + 1, k, f[p.body[i].local := PartValue(p, i, k + 1)])
  {
    hide PartValue, StepOf, Agree;
    assert Written(p, p.body[i].local);
    var v, g := PartValue(p, i, k + 1), f[p.body[i].local := PartValue(p, i, k + 1)];
    forall j | 0 <= j < Parts(p) ensures g[p.body[j].local] == PartValue(p, j, if j < i + 1 then k + 1 else k) {
      if j != i { assert p.body[j].local != p.body[i].local; }
    }
  }

  lemma {:induction false} PartIteration(p: WhilePlan, i: nat, k: nat, g: seq<int64>, c: int64)
    requires WellFormedWhile(p) && StepOf(p).Some? && i < Parts(p) && PartsAgree(p, k) && PartsAgree(p, k + 1)
    requires c == At(p.initial[p.counter], StepOf(p).value, k)
    requires MachineRun(PartLoop(p, i), Start(p), k).Some? && g == MachineRun(PartLoop(p, i), Start(p), k).value[p.counter := c]
    ensures RubyEval(p.body[i].expr, g, p.methods) == Unchecked(p.body[i].expr, g, p.methods) == Some(PartValue(p, i, k + 1))
  {
    var l := PartLoop(p, i);
    assert Agree(l, Start(p), k) && Agree(l, Start(p), k + 1);
    assert RubyRun(l, Start(p), k + 1).value[l.sum] == MachineRun(l, Start(p), k + 1).value[l.sum];
    hide RubyEval, Unchecked;
  }

  lemma {:induction false} StepInRuby(e: Expr, counter: nat, step: int64, env: seq<int>, ms: Methods)
    requires CounterStep(e, counter) == Some(step) && counter < |env|
    ensures RubyEval(e, env, ms) == Some(At(env[counter], step, 1))
  {
    assert RubyEval(e.left, env, ms).Some? && RubyEval(e.right, env, ms).Some?;
  }

  lemma {:induction false} RestInFrame(p: WhilePlan, i: nat)
    requires WellFormedWhile(p) && i < |p.body|
    ensures InFrame(p.body[i..], p.locals) && p.counter < p.locals && p.body[i].local < p.locals
  {
  }

  function Put(f: seq<int>, slot: nat, v: int): seq<int>
    requires slot < |f|
  {
    f[slot := v]
  }

  /** The rest of the body takes f to g in Ruby and on the machine, except that the machine's counter may wrap. */
  ghost predicate Takes(p: WhilePlan, rest: seq<Assignment>, k: nat, f: seq<int64>, g: seq<int64>)
    requires WellFormedWhile(p) && StepOf(p).Some?
  {
    && |f| == |g| == p.locals && InFrame(rest, p.locals) && p.counter < p.locals
    && RubyBody(rest, f, p.methods) == Some(Put(g, p.counter, At(p.initial[p.counter], StepOf(p).value, k + 1)))
    && MachineBody(rest, f, p.methods) == Some(g[p.counter := Wrap(At(p.initial[p.counter], StepOf(p).value, k + 1))])
  }

  lemma {:induction false} LastTakes(p: WhilePlan, k: nat, f: seq<int64>)
    requires WellFormedWhile(p) && StepOf(p).Some? && IntervalShape(p) && |f| == p.locals
    requires p.counter < p.locals && f[p.counter] == At(p.initial[p.counter], StepOf(p).value, k)
    ensures Takes(p, p.body[Parts(p)..], k, f, f)
  {
    var step, last := StepOf(p).value, p.body[Parts(p)];
    assert p.body[Parts(p)..] == [last];
    assert CounterStep(last.expr, p.counter) == Some(step);
    RestInFrame(p, Parts(p));
    hide StepOf, CounterStep, RubyEval, Unchecked, RubyBody, MachineBody, WellFormedWhile;
    OneStepBody(last, f, p.methods);
    OneMachineStep(last, f, p.methods);
    StepInRuby(last.expr, p.counter, step, f, p.methods);
    StepIsSum(last.expr, p.counter, step, f, p.methods);
    NextCounter(p.initial[p.counter], step, 0, k + 1);
  }

  lemma {:induction false} FirstTakes(p: WhilePlan, i: nat, k: nat, f: seq<int64>, v: int64, g: seq<int64>)
    requires WellFormedWhile(p) && StepOf(p).Some? && i < Parts(p) && |f| == p.locals && p.body[i].local < p.locals
    requires RubyEval(p.body[i].expr, f, p.methods) == Some(v) && Unchecked(p.body[i].expr, f, p.methods) == Some(v)
    requires Takes(p, p.body[i + 1..], k, f[p.body[i].local := v], g)
    ensures Takes(p, p.body[i..], k, f, g)
  {
    RestInFrame(p, i);
    assert p.body[i..][0] == p.body[i] && p.body[i..][1..] == p.body[i + 1..];
    hide StepOf, RubyEval, Unchecked, WellFormedWhile;
  }

  /** The rest of the body from accumulator i on, and the counter step. */
  lemma {:induction false} PassFrom(p: WhilePlan, i: nat, k: nat, f: seq<int64>) returns (g: seq<int64>)
    requires WellFormedWhile(p) && StepOf(p).Some? && IntervalShape(p) && i <= Parts(p) && PartsAgree(p, k) && PartsAgree(p, k + 1)
    requires Passed(p, i, k, f) && f[p.counter] == At(p.initial[p.counter], StepOf(p).value, k)
    ensures Passed(p, Parts(p), k, g) && Takes(p, p.body[i..], k, f, g)
    decreases Parts(p) - i
  {
    RestInFrame(p, i);
    assert |f| == p.locals;
    if i == Parts(p) {
      g := f;
      hide Takes, IntervalShape, StepOf, Passed, WellFormedWhile, PartsAgree;
      LastTakes(p, k, f);
    } else {
      assert p.body[i].local != p.counter;
      hide Takes, IntervalShape, StepOf, Passed, WellFormedWhile, PartsAgree;
      PartStep(p, i, k, f);
      var v := PartValue(p, i, k + 1);
      g := PassFrom(p, i + 1, k, f[p.body[i].local := v]);
      FirstTakes(p, i, k, f, v, g);
    }
  }

  // ---------------------------------------------------------------- all iterations

  /** After k iterations Ruby and the machine are in frame f, with the counter counted, on the machine wrapped. */
  ghost predicate Reaches(p: WhilePlan, k: nat, f: seq<int64>)
    requires WellFormedWhile(p) && StepOf(p).Some?
  {
    && |f| == p.locals && p.counter < p.locals
    && RubyIterate(p, k) == Some(Put(f, p.counter, At(p.initial[p.counter], StepOf(p).value, k)))
    && MachineIterate(p, k) == Some(f[p.counter := Wrap(At(p.initial[p.counter], StepOf(p).value, k))])
  }

  lemma {:induction false} NothingPassed(p: WhilePlan)
    requires WellFormedWhile(p) && StepOf(p).Some? && PartsAgree(p, 0) && PartsAgree(p, 1)
    ensures Passed(p, 0, 0, Start(p)) && Reaches(p, 0, Start(p))
  {
    assert At(p.initial[p.counter], StepOf(p).value, 0) == p.initial[p.counter];
    assert Start(p)[p.counter := p.initial[p.counter]] == Start(p);
    forall j | 0 <= j < Parts(p) ensures Start(p)[p.body[j].local] == PartValue(p, j, 0) {
      assert Agree(PartLoop(p, j), Start(p), 0);
    }
  }

  /** All parts done in one iteration is none done in the next. */
  lemma {:induction false} NextPass(p: WhilePlan, k: nat, f: seq<int64>)
    requires WellFormedWhile(p) && StepOf(p).Some? && PartsAgree(p, k) && PartsAgree(p, k + 1) && PartsAgree(p, k + 2)
    requires Passed(p, Parts(p), k, f)
    ensures Passed(p, 0, k + 1, f)
  {
    hide PartValue, PartsAgree, StepOf;
  }

  lemma {:induction false} CounterSet(p: WhilePlan, i: nat, k: nat, f: seq<int64>, c: int64)
    requires WellFormedWhile(p) && StepOf(p).Some? && IntervalShape(p) && PartsAgree(p, k) && PartsAgree(p, k + 1)
    requires Passed(p, i, k, f) && p.counter < p.locals
    ensures Passed(p, i, k, f[p.counter := c])
  {
    hide PartValue, PartsAgree, StepOf;
  }

  lemma {:induction false} CounterIn(p: WhilePlan, k: nat, f: seq<int64>)
    requires WellFormedWhile(p) && StepOf(p).Some? && Reaches(p, k, f)
    ensures |f| == p.locals && p.counter < p.locals
  {
  }

  lemma {:induction false} OneMore(p: WhilePlan, k: nat, before: seq<int64>, c: int64, f: seq<int64>)
    requires WellFormedWhile(p) && StepOf(p).Some? && c == At(p.initial[p.counter], StepOf(p).value, k) && Reaches(p, k, before)
    requires |before| == p.locals && p.counter < p.locals && Takes(p, p.body, k, before[p.counter := c], f)
    ensures Reaches(p, k + 1, f)
  {
    hide RubyBody, MachineBody, StepOf;
    var frame := before[p.counter := c];
    var ruby: seq<int> := frame;
    assert Put(before, p.counter, c) == ruby;
  }

  lemma {:induction false} OneIteration(p: WhilePlan, k: nat, before: seq<int64>) returns (f: seq<int64>)
    requires WellFormedWhile(p) && StepOf(p).Some? && IntervalShape(p) && PartsAgree(p, k) && PartsAgree(p, k + 1)
    requires Fits(At(p.initial[p.counter], StepOf(p).value, k)) && Reaches(p, k, before) && Passed(p, 0, k, before)
    ensures Reaches(p, k + 1, f) && Passed(p, Parts(p), k, f)
  {
    var c: int64 := At(p.initial[p.counter], StepOf(p).value, k);
    CounterIn(p, k, before);
    assert p.body[0..] == p.body;
    hide *;
    CounterSet(p, 0, k, before, c);
    f := PassFrom(p, 0, k, before[p.counter := c]);
    OneMore(p, k, before, c, f);
  }

  /** All accumulators agree through iteration n, and the counter fits before it. */
  ghost predicate AgreeUpTo(p: WhilePlan, n: nat)
    requires WellFormedWhile(p) && StepOf(p).Some?
  {
    && (forall j: nat :: j <= n ==> PartsAgree(p, j))
    && (forall j: nat :: j < n ==> Fits(At(p.initial[p.counter], StepOf(p).value, j)))
  }

  lemma {:induction false} AgreesAt(p: WhilePlan, n: nat, k: nat)
    requires WellFormedWhile(p) && StepOf(p).Some? && AgreeUpTo(p, n) && k < n
    ensures PartsAgree(p, k) && PartsAgree(p, k + 1) && Fits(At(p.initial[p.counter], StepOf(p).value, k))
  {
    hide PartsAgree, StepOf;
  }

  /** While the counter fits, the iterated body is the accumulators' own loops side by side. */
  lemma {:induction false} PartsIterate(p: WhilePlan, n: nat, k: nat) returns (f: seq<int64>)
    requires WellFormedWhile(p) && StepOf(p).Some? && IntervalShape(p) && AgreeUpTo(p, n) && k < n
    ensures PartsAgree(p, k) && PartsAgree(p, k + 1) && Reaches(p, k, f) && Passed(p, 0, k, f)
    decreases k
  {
    hide *;
    AgreesAt(p, n, k);
    if k == 0 {
      f := Start(p);
      NothingPassed(p);
    } else {
      AgreesAt(p, n, k - 1);
      f := PartsIterate(p, n, k - 1);
      f := OneIteration(p, k - 1, f);
      NextPass(p, k - 1, f);
    }
  }

  /** After k iterations the machine's counter is the counted value, wrapped. */
  ghost predicate CounterIs(p: WhilePlan, k: nat)
    requires WellFormedWhile(p) && StepOf(p).Some?
  {
    && RubyIterate(p, k).Some? && RubyIterate(p, k).value[p.counter] == At(p.initial[p.counter], StepOf(p).value, k)
    && MachineIterate(p, k).Some? && MachineIterate(p, k).value[p.counter] == Wrap(At(p.initial[p.counter], StepOf(p).value, k))
    && (Fits(At(p.initial[p.counter], StepOf(p).value, k)) ==> MachineIterate(p, k) == RubyIterate(p, k))
  }

  lemma {:induction false} ReachesCounts(p: WhilePlan, k: nat, f: seq<int64>)
    requires WellFormedWhile(p) && StepOf(p).Some? && Reaches(p, k, f)
    ensures CounterIs(p, k)
  {
    hide RubyIterate, MachineIterate, StepOf;
  }

  /** The states of all n iterations, the last one included. */
  lemma {:induction false} AllCounted(p: WhilePlan, n: nat, k: nat)
    requires WellFormedWhile(p) && StepOf(p).Some? && IntervalShape(p) && AgreeUpTo(p, n) && k <= n && n > 0
    ensures CounterIs(p, k)
  {
    hide *;
    if k < n {
      var f := PartsIterate(p, n, k);
      ReachesCounts(p, k, f);
    } else {
      AgreesAt(p, n, n - 1);
      var f := PartsIterate(p, n, n - 1);
      f := OneIteration(p, n - 1, f);
      ReachesCounts(p, n, f);
    }
  }

  lemma {:induction false} CountedStops(p: WhilePlan, n: nat)
    requires WellFormedWhile(p) && StepOf(p).Some? && TripCount(n, p.initial[p.counter], p.limit, StepOf(p).value, false)
    requires StepOf(p).value > 0 && forall k: nat :: k <= n ==> CounterIs(p, k)
    ensures RubyStops(p, n)
    ensures (forall k: nat :: k <= n ==> Fits(At(p.initial[p.counter], StepOf(p).value, k))) ==> MachineStops(p, n)
  {
    var start, step := p.initial[p.counter], StepOf(p).value;
    forall k: nat | k <= n
      ensures RubyIterate(p, k).Some? && (RubyIterate(p, k).value[p.counter] < p.limit <==> k < n)
    {
      assert CounterIs(p, k);
    }
    if forall k: nat :: k <= n ==> Fits(At(start, step, k)) {
      forall k: nat | k <= n
        ensures MachineIterate(p, k).Some? && (MachineIterate(p, k).value[p.counter] < p.limit <==> k < n)
      {
        assert CounterIs(p, k) && Fits(At(start, step, k));
      }
      forall k: nat | 0 < k < n ensures MachineIterate(p, k).value[p.counter] > MachineIterate(p, k - 1).value[p.counter] {
        assert CounterIs(p, k) && CounterIs(p, k - 1) && Fits(At(start, step, k)) && Fits(At(start, step, k - 1));
        NextCounter(start, step, start, k);
      }
    }
  }

  /** A counter that leaves int64 wraps to a smaller value and is reported as stuck. */
  lemma {:induction false} CountedSticks(p: WhilePlan, n: nat)
    requires WellFormedWhile(p) && StepOf(p).Some? && n > 0 && TripCount(n, p.initial[p.counter], p.limit, StepOf(p).value, false)
    requires StepOf(p).value > 0 && forall k: nat :: k <= n ==> CounterIs(p, k)
    requires forall k: nat :: k < n ==> Fits(At(p.initial[p.counter], StepOf(p).value, k))
    requires !Fits(At(p.initial[p.counter], StepOf(p).value, n))
    ensures forall m: nat :: !MachineStops(p, m)
  {
    var start, step := p.initial[p.counter], StepOf(p).value;
    forall k: nat | k < n ensures MachineIterate(p, k).Some? && MachineIterate(p, k).value[p.counter] < p.limit {
      assert CounterIs(p, k) && Fits(At(start, step, k));
    }
    forall k: nat | 0 < k < n ensures Advanced(p, k) {
      assert CounterIs(p, k) && CounterIs(p, k - 1) && Fits(At(start, step, k)) && Fits(At(start, step, k - 1));
      NextCounter(start, step, start, k);
    }
    assert Running(p, n - 1);
    assert CounterIs(p, n) && CounterIs(p, n - 1);
    NextCounter(start, step, start, n);
    assert Wrap(At(start, step, n)) == At(start, step, n) - MODULUS;
    NeverStops(p, n - 1);
  }

  // ---------------------------------------------------------------- soundness

  lemma {:induction false} PartsAccepted(p: WhilePlan, n: int64, k: nat)
    requires WellFormedWhile(p) && WhileVerdict(p) == Accepted && IntervalShape(p)
    requires n == IterationCount(p.initial[p.counter], p.limit, StepOf(p).value, false).value && n > 0 && k <= n
    requires Fits(At(p.initial[p.counter], StepOf(p).value, n - 1))
    ensures PartsAgree(p, k)
  {
    var start, step := p.initial[p.counter], StepOf(p).value;
    var last: int64 := At(start, step, n - 1);
    assert LastValue(start, step, n) == Some(last);
    hide LastValue, IterationCount, WhileVerdict, StepOf, SoundUpdate, LoopAccepted;
    forall i | 0 <= i < Parts(p)
      ensures Agree(PartLoop(p, i), Start(p), k) && forall j :: 0 <= j < i ==> p.body[j].local != p.body[i].local
    {
      PartAccepted(p, n, last, i);
      IntervalAcceptanceSound(PartLoop(p, i), p.initial, n, last, Start(p), k);
    }
  }

  /** Interval acceptance of accumulators followed by the counter step: on integers the loop stops after the n computed
      iterations; the machine's loop stops at all if and only if the counter's last value is a machine integer, and then after
      the same iterations in the same state. */
  lemma {:induction false} WhileIntervalSound(p: WhilePlan, n: int64)
    requires WellFormedWhile(p) && WhileVerdict(p) == Accepted && IntervalShape(p)
    requires n == IterationCount(p.initial[p.counter], p.limit, StepOf(p).value, false).value && n > 0
    ensures RubyStops(p, n)
    ensures (exists m: nat :: MachineStops(p, m)) <==> Fits(At(p.initial[p.counter], StepOf(p).value, n))
    ensures Fits(At(p.initial[p.counter], StepOf(p).value, n)) ==> MachineStops(p, n) && MachineIterate(p, n) == RubyIterate(p, n)
  {
    var start, step := p.initial[p.counter], StepOf(p).value;
    IterationCountExact(start, p.limit, step, false);
    assert At(start, step, 0) == start;
    AtMonotone(start, step, 0, n - 1);
    hide WhileVerdict, IterationCount, IntervalShape, PartsAgree, RubyStops, MachineStops, CounterIs, StepOf;
    forall k: nat | k < n ensures Fits(At(start, step, k)) {
      AtMonotone(start, step, 0, k);
      AtMonotone(start, step, k, n - 1);
    }
    forall k: nat | k <= n ensures PartsAgree(p, k) { PartsAccepted(p, n, k); }
    assert AgreeUpTo(p, n);
    forall k: nat | k <= n ensures CounterIs(p, k) { AllCounted(p, n, k); }
    CountedStops(p, n);
    if Fits(At(start, step, n)) {
      assert CounterIs(p, n);
    } else {
      CountedSticks(p, n);
    }
  }
}
