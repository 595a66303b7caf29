/** `a.upto(b) { |i| ... }` and `a.downto(b) { ... }` plans. */
module AotRange {
  import opened Options
  import opened Int64
  import opened AotExpr
  import opened AotChecked
  import opened AotInterval
  import opened AotSelfDelta
  import opened AotLoops
  import opened AotValidate
  import opened AotCounted
  import opened AotAffine
  import opened AotValues
  import opened AotTimes

  datatype RangePlan = RangePlan(locals: nat, initial: Initials, start: nat, end: nat, counter: nat, sum: nat,
                                 result: nat, ascending: bool, expr: Expr, methods: Methods)

  /** What the plan builders guarantee. The block may read locals that have no initial value. */
  predicate WellFormedRange(p: RangePlan) {
    && (forall s :: s in p.initial ==> s < p.locals)
    && p.counter < p.locals && p.counter !in p.initial
    && p.start in p.initial && p.end in p.initial && p.sum in p.initial && p.result in p.initial
  }

  function Step(p: RangePlan): int64 { if p.ascending then 1 else -1 }

  function RangeLoop(p: RangePlan): Loop
    requires WellFormedRange(p)
  {
    Loop(p.expr, p.sum, p.counter, p.initial[p.start], Step(p), p.methods)
  }

  /** Both ends are included. */
  function Trips(p: RangePlan): nat
    requires WellFormedRange(p)
  {
    var start: int, end: int := p.initial[p.start], p.initial[p.end];
    Max(0, if p.ascending then end - start + 1 else start - end + 1)
  }

  lemma {:induction false} TripsCounted(p: RangePlan)
    requires WellFormedRange(p)
    ensures IterationCount(p.initial[p.start], p.initial[p.end], Step(p), true) ==
            if Fits(Trips(p)) then Some(Trips(p)) else None
  {
  }

  /** The source's loop exit test after an iteration: the end, or the edge of int64. */
  predicate AtEnd(p: RangePlan, index: int64)
    requires WellFormedRange(p)
  {
    index == p.initial[p.end] || (p.ascending && index == MAX) || (!p.ascending && index == MIN)
  }

  /** The k-th counter value is between the ends, and the exit test fires exactly in the last iteration. */
  lemma {:induction false} CounterAt(p: RangePlan, k: nat)
    requires WellFormedRange(p) && k < Trips(p)
    ensures var c := At(p.initial[p.start], Step(p), k);
            && c == (if p.ascending then p.initial[p.start] + k else p.initial[p.start] - k) && Fits(c)
            && (AtEnd(p, c) <==> k == Trips(p) - 1)
  {
  }

  /** The names the block can read. */
  function NamesInRange(p: RangePlan): set<nat> {
    p.initial.Keys + {p.counter}
  }

  /** What Ruby prints; None if an iteration raises. */
  function RubyRangeOutput(p: RangePlan): Option<int>
    requires WellFormedRange(p)
  {
    var end := ValueRun(RangeLoop(p), ValueFrame(p.initial, p.locals), NamesInRange(p), Trips(p));
    if end.Some? && end.value[p.result].IntV? then Some(end.value[p.result].n) else None
  }

  /** A block that reads only known locals runs on integers; any other raises, unless it does not run. */
  lemma {:induction false} RubyRangeOutputIsRun(p: RangePlan)
    requires WellFormedRange(p)
    ensures RubyRangeOutput(p) ==
            if Trips(p) > 0 && !ReadsOnly(p.expr, NamesInRange(p)) then None else
            var end := RubyRun(RangeLoop(p), Frame(p.initial, p.locals), Trips(p));
            if end.None? then None else Some(end.value[p.result])
  {
    var l, env, known := RangeLoop(p), ValueFrame(p.initial, p.locals), NamesInRange(p);
    if !ReadsOnly(p.expr, known) {
      if Trips(p) > 0 { UnknownRun(l, env, known, Trips(p)); }
    } else {
      KnownRun(l, env, known, Frame(p.initial, p.locals), Trips(p));
    }
  }

  function RangeVerdict(p: RangePlan): Verdict
    requires WellFormedRange(p)
  {
    ValidateAffine(p.initial[p.counter := p.initial[p.start]], p.counter, p.initial[p.start], p.initial[p.end], Step(p), true,
                   [Assignment(p.sum, p.expr)], p.methods, false)
  }

  /** validateRangePlan: intervals first, then simulation. */
  predicate RangeAccepted(p: RangePlan)
    requires WellFormedRange(p)
  {
    match RangeVerdict(p)
    case Accepted => true
    case Rejected => false
    case Unproven => Trips(p) <= MAX_VALIDATED && CheckedRun(RangeLoop(p), Frame(p.initial, p.locals), Trips(p)).Some?
  }

  method ValidateRangePlan(p: RangePlan) returns (accepted: bool)
    requires WellFormedRange(p)
    ensures accepted == RangeAccepted(p)
  {
    hide ValidateAffine, CheckedRun;
    var start, end := p.initial[p.start], p.initial[p.end];
    var affine := ValidateAffineLoop(p.initial[p.counter := start], p.counter, start, end, Step(p), true,
                                     [Assignment(p.sum, p.expr)], p.methods, false);
    if affine != Unproven { return affine == Accepted; }
    accepted := SimulateRange(p);
  }

  /** The simulation of validateRangePlan. */
  method SimulateRange(p: RangePlan) returns (accepted: bool)
    requires WellFormedRange(p)
    ensures accepted == (Trips(p) <= MAX_VALIDATED && CheckedRun(RangeLoop(p), Frame(p.initial, p.locals), Trips(p)).Some?)
  {
    var start, end := p.initial[p.start], p.initial[p.end];
    var values := LoadFrame(p.initial, p.locals);
    if (p.ascending && start > end) || (!p.ascending && start < end) { return true; }
    var l := RangeLoop(p);
    ghost var f := Frame(p.initial, p.locals);
    assert CheckedRun(l, f, 0) == Some(f);
    hide CheckedRun;
    var index, iterations := start, 0;
    while true
      invariant 0 <= iterations < Trips(p) && iterations <= MAX_VALIDATED
      invariant index == At(start, Step(p), iterations)
      invariant CheckedRun(l, f, iterations) == Some(values[..])
      decreases Trips(p) - iterations
    {
      if iterations >= MAX_VALIDATED { return false; }
      var ok := CheckedIteration(l, values, index, f, iterations);
      if !ok { CheckedRunMonotone(l, f, iterations + 1, Trips(p)); return false; }
      CounterAt(p, iterations);
      iterations := iterations + 1;
      if AtEnd(p, index) { break; }
      CounterAt(p, iterations);
      index := if p.ascending then index + 1 else index - 1;
    }
    accepted := true;
  }

  /** executeAffineRangePlan; None when it leaves the plan to the loop. */
  function AffineRange(p: RangePlan): Option<int64>
    requires WellFormedRange(p)
  {
    var d := SelfDelta(p.expr, p.sum);
    var count := IterationCount(p.initial[p.start], p.initial[p.end], Step(p), true);
    if p.sum != p.result || d.None? || count.None? then None
    else if count.value == 0 then Some(p.initial[p.sum])
    else AccumulatorValue(p.initial[p.sum], d.value.expr, d.value.sign, p.counter, p.initial[p.start], Step(p), count.value, p.methods)
  }

  function RangeOutput(p: RangePlan): Option<int64>
    requires WellFormedRange(p)
  {
    if AffineRange(p).Some? then AffineRange(p)
    else
      var end := MachineRun(RangeLoop(p), Frame(p.initial, p.locals), Trips(p));
      if end.None? then None else Some(end.value[p.result])
  }

  method ExecuteRangePlan(p: RangePlan) returns (printed: Option<int64>)
    requires WellFormedRange(p)
    ensures printed == RangeOutput(p)
  {
    var locals := LoadFrame(p.initial, p.locals);
    hide MachineRun, AffineRange;
    var affine := AffineRange(p);
    if affine.Some? { return affine; }
    var index, end := locals[p.start], locals[p.end];
    var l := RangeLoop(p);
    ghost var k, f := 0, Frame(p.initial, p.locals);
    MachineRunStarts(l, f);
    while true
      invariant 0 <= k <= Trips(p) && (k < Trips(p) || k == 0)
      invariant index == At(p.initial[p.start], Step(p), k)
      invariant MachineRun(l, f, k) == Some(locals[..])
      decreases Trips(p) - k
    {
      if (p.ascending && index > end) || (!p.ascending && index < end) { break; }
      CounterAt(p, k);
      var ok := MachineIteration(l, locals, index, f, k);
      if !ok { MachineRunMonotone(l, f, k + 1, Trips(p)); return None; }
      k := k + 1;
      if AtEnd(p, index) { break; }
      CounterAt(p, k);
      index := if p.ascending then index + 1 else index - 1;
    }
    printed := Some(locals[p.result]);
  }

  lemma {:induction false} RangeLoopAgrees(p: RangePlan)
    requires WellFormedRange(p) && RangeAccepted(p)
    requires RangeVerdict(p) == Accepted ==> SoundUpdate(p.expr, p.sum)
    ensures Fits(Trips(p))
    ensures RubyRun(RangeLoop(p), Frame(p.initial, p.locals), Trips(p)).Some?
    ensures MachineRun(RangeLoop(p), Frame(p.initial, p.locals), Trips(p)) ==
            RubyRun(RangeLoop(p), Frame(p.initial, p.locals), Trips(p))
  {
    var l, f, n := RangeLoop(p), Frame(p.initial, p.locals), Trips(p);
    TripsCounted(p);
    if n == 0 {
    } else if RangeVerdict(p) == Accepted {
      var start := p.initial[p.start];
      var last := LastValue(start, Step(p), n).value;
      IntervalAcceptanceSound(l, p.initial[p.counter := start], n, last, f[p.counter := start], n);
      CounterSlotFresh(l, f, start, n);
    } else {
      forall j: nat | j < n ensures Fits(At(l.start, l.step, j)) { CounterAt(p, j); }
      CheckedRunAgrees(l, f, n);
    }
  }

  lemma {:induction false} RangeLoopWraps(p: RangePlan)
    requires WellFormedRange(p) && RangeVerdict(p) == Accepted && SelfDelta(p.expr, p.sum).Some? && Trips(p) > 0
    ensures RubyRun(RangeLoop(p), Frame(p.initial, p.locals), Trips(p)).Some?
    ensures MachineRun(RangeLoop(p), Frame(p.initial, p.locals), Trips(p)).Some?
    ensures WrappedFrame(p.sum, RubyRun(RangeLoop(p), Frame(p.initial, p.locals), Trips(p)).value,
                         MachineRun(RangeLoop(p), Frame(p.initial, p.locals), Trips(p)).value)
  {
    var l, f, n, start := RangeLoop(p), Frame(p.initial, p.locals), Trips(p), p.initial[p.start];
    TripsCounted(p);
    WrappedRun(l, p.initial[p.counter := start], n, LastValue(start, Step(p), n).value, f[p.counter := start], n);
    CounterSlotFresh(l, f, start, n);
  }

  /** When an accepted range plan prints what Ruby prints. */
  predicate RangePrintsRight(p: RangePlan)
    requires WellFormedRange(p)
  {
    if Trips(p) == 0 then true
    else if !ReadsOnly(p.expr, NamesInRange(p)) then false
    else if AffineRange(p).Some? then SelfDelta(p.expr, p.sum).value.sign == 1 || LostTotal(RangeLoop(p), Trips(p)) == 0
    else if RangeVerdict(p) == Accepted && !SoundUpdate(p.expr, p.sum) && p.result == p.sum then
      RubyRangeOutput(p).Some? && Fits(RubyRangeOutput(p).value)
    else true
  }

  /** The promise of the tier for range plans, under the same premise as for times plans: the plan prints what Ruby prints if
      and only if the loop does not run, or the block reads no unknown local, loses no sign, and leaves a machine integer. */
  lemma {:induction false} AcceptedRangePlanIsRuby(p: RangePlan)
    requires WellFormedRange(p) && RangeAccepted(p)
    requires RangeVerdict(p) == Accepted ==> SelfDelta(p.expr, p.sum).Some? || !Contains(p.expr, p.sum)
    ensures RangeOutput(p).Some?
    ensures RangeOutput(p) == RubyRangeOutput(p) <==> RangePrintsRight(p)
  {
    RubyRangeOutputIsRun(p);
    TripsCounted(p);
    var l, f, n := RangeLoop(p), Frame(p.initial, p.locals), Trips(p);
    if n > 0 && RangeVerdict(p) == Accepted && !SoundUpdate(p.expr, p.sum) {
      RangeLoopWraps(p);
    } else if n > 0 {
      RangeLoopAgrees(p);
    }
    if n > 0 && AffineRange(p).Some? { AffineKernelExactIff(l, f, n); }
  }
}
