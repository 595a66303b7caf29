/** validateAffineLoop: accepting an arithmetic loop from intervals alone, and why that is sound. */
module AotValidate {
  import opened Options
  import opened Int64
  import opened AotExpr
  import opened AotChecked
  import opened AotInterval
  import opened AotSelfDelta
  import opened AotLoops

  datatype Assignment = Assignment(local: nat, expr: Expr)

  /** (nil, true), (err, true) and (nil, false) in the source. */
  datatype Verdict = Accepted | Rejected | Unproven

  function ConstantOf(e: Expr): Option<int64> {
    if e.Const? then Some(e.value) else None
  }

  /** counterExpressionStep: counter + positive constant, in either order. */
  function CounterStep(e: Expr, counter: nat): Option<int64> {
    if e.Bin? && e.op == Add && IsLocal(e.left, counter) then Positive(ConstantOf(e.right))
    else if e.Bin? && e.op == Add && IsLocal(e.right, counter) then Positive(ConstantOf(e.left))
    else None
  }

  function Positive(v: Option<int64>): Option<int64> {
    if v.Some? && v.value > 0 then v else None
  }

  /** referencesUnprocessedWrite. Calls are not looked into; a constant carries the zero value of its unused slot field. */
  predicate ReferencesUnprocessed(e: Expr, writes: set<nat>, processed: set<nat>, counter: nat) {
    match e
    case Const(_) => 0 != counter && 0 in writes && 0 !in processed
    case Local(s) => s != counter && s in writes && s !in processed
    case Call(_, _) => false
    case Neg(x) => ReferencesUnprocessed(x, writes, processed, counter)
    case Bin(_, l, r) =>
      ReferencesUnprocessed(l, writes, processed, counter) || ReferencesUnprocessed(r, writes, processed, counter)
  }

  /** The analysis state between two assignments of the body. */
  datatype Analysis = Analysis(intervals: Intervals, processed: set<nat>, seen: set<nat>, counterAssigned: bool)

  datatype LoopShape = LoopShape(counter: nat, step: int64, count: int64, writes: set<nat>, methods: Methods,
                                 requireCounter: bool)

  /** The interval of an accumulator after all iterations. */
  function AccumulatorRange(initial: Interval, delta: Interval, sign: int, count: int64): Option<Interval> {
    var signed := if sign < 0 then NegateInterval(delta) else Some(delta);
    if signed.None? then None else
    var scaled := ScaleInterval(signed.value, count);
    if scaled.None? then None else AddIntervals(initial, scaled.value)
  }

  /** One assignment of the body; None when nothing is proven. */
  function Analyze(s: Analysis, a: Assignment, loop: LoopShape): Option<Analysis> {
    if a.local in s.seen then None else
    var s := s.(seen := s.seen + {a.local});
    if a.local == loop.counter then
      if !loop.requireCounter || CounterStep(a.expr, loop.counter) != Some(loop.step) then None
      else Some(s.(counterAssigned := true))
    else
      var d := SelfDelta(a.expr, a.local);
      if d.Some? then
        if Contains(d.value.expr, a.local) then None
        else if ReferencesUnprocessed(d.value.expr, loop.writes, s.processed, loop.counter) then None
        else if a.local !in s.intervals then None
        else
          var delta := EvalInterval(d.value.expr, s.intervals, loop.methods);
          if delta.None? then None else
          Record(s, a.local, AccumulatorRange(s.intervals[a.local], delta.value, d.value.sign, loop.count))
      else if ReferencesUnprocessed(a.expr, loop.writes, s.processed, loop.counter) then None
      else Record(s, a.local, EvalInterval(a.expr, s.intervals, loop.methods))
  }

  function Record(s: Analysis, local: nat, range: Option<Interval>): Option<Analysis> {
    if range.None? then None
    else Some(s.(intervals := s.intervals[local := range.value], processed := s.processed + {local}))
  }

  function AnalyzeAll(s: Analysis, body: seq<Assignment>, loop: LoopShape): Option<Analysis>
    decreases |body|
  {
    if body == [] then Some(s) else
    var t := Analyze(s, body[0], loop);
    if t.None? then None else AnalyzeAll(t.value, body[1..], loop)
  }

  type Initials = map<nat, int64>

  function PointIntervals(initial: Initials): Intervals {
    map s | s in initial :: Interval(initial[s], initial[s])
  }

  function Writes(body: seq<Assignment>): set<nat> {
    set i | 0 <= i < |body| :: body[i].local
  }

  function CounterInterval(start: int64, last: int64): Interval {
    if start < last then Interval(start, last) else Interval(last, start)
  }

  function StartAnalysis(initial: Initials, counter: nat, start: int64, last: int64): Analysis {
    Analysis(PointIntervals(initial)[counter := CounterInterval(start, last)], {counter}, {}, false)
  }

  function ShapeOf(counter: nat, step: int64, count: int64, body: seq<Assignment>, ms: Methods, requireCounter: bool): LoopShape {
    LoopShape(counter, step, count, Writes(body), ms, requireCounter)
  }

  /** validateAffineLoop as a function of its arguments. */
  function ValidateAffine(initial: Initials, counter: nat, start: int64, limit: int64, step: int64, inclusive: bool,
                          body: seq<Assignment>, ms: Methods, requireCounter: bool): Verdict {
    var count := IterationCount(start, limit, step, inclusive);
    if count.None? then Unproven
    else if count.value == 0 then Accepted
    else if count.value > MAX_VALIDATED then Rejected
    else
      var last := LastValue(start, step, count.value);
      if last.None? then Unproven else
      var shape := ShapeOf(counter, step, count.value, body, ms, requireCounter);
      var final := AnalyzeAll(StartAnalysis(initial, counter, start, last.value), body, shape);
      if final.None? || (requireCounter && !final.value.counterAssigned) then Unproven else Accepted
  }

  /** The validator as the source runs it: one pass over the assignments, updating the interval map. */
  method ValidateAffineLoop(initial: Initials, counter: nat, start: int64, limit: int64, step: int64, inclusive: bool,
                            body: seq<Assignment>, ms: Methods, requireCounter: bool) returns (v: Verdict)
    ensures v == ValidateAffine(initial, counter, start, limit, step, inclusive, body, ms, requireCounter)
  {
    if step == 0 { return Unproven; }
    var count := IterationCount(start, limit, step, inclusive);
    if count.None? { return Unproven; }
    if count.value == 0 { return Accepted; }
    if count.value > MAX_VALIDATED { return Rejected; }
    var last := LastValue(start, step, count.value);
    if last.None? { return Unproven; }
    var intervals := PointIntervals(initial)[counter := CounterInterval(start, last.value)];
    var processed, seen, counterAssigned := {counter}, {}, false;
    var shape := ShapeOf(counter, step, count.value, body, ms, requireCounter);
    ghost var s0 := StartAnalysis(initial, counter, start, last.value);
    for i := 0 to |body|
      invariant AnalyzeAll(s0, body, shape) == AnalyzeAll(Analysis(intervals, processed, seen, counterAssigned), body[i..], shape)
    {
      var next := Analyze(Analysis(intervals, processed, seen, counterAssigned), body[i], shape);
      if next.None? { return Unproven; }
      intervals, processed, seen, counterAssigned :=
        next.value.intervals, next.value.processed, next.value.seen, next.value.counterAssigned;
      assert body[i..][1..] == body[i + 1..];
    }
    v := if requireCounter && !counterAssigned then Unproven else Accepted;
  }
}
