/** `n.times { |i| sum = expr }` plans. */
module AotTimes {
  // The three ways to accept a plan, the three ways to run one, and their agreement with Ruby.

  import opened Options
  import opened Int64
  import opened AotExpr
  import opened AotChecked
  import opened AotInterval
  import opened AotSelfDelta
  import opened AotLoops
  import opened AotValidate
  import opened AotCounted
  import opened AotAffine
  import opened AotPeriodic
  import opened AotValues
  import M = Machine

  datatype TimesPlan = TimesPlan(locals: nat, initial: Initials, count: nat, counter: nat, sum: nat, expr: Expr,
                                 result: nat, methods: Methods)

  /** What the plan builders guarantee. The block parameter may reuse the slot of an outer local, even the one the block
      assigns. */
  predicate WellFormed(p: TimesPlan) {
    && (forall s :: s in p.initial ==> s < p.locals)
    && p.counter < p.locals
    && p.count in p.initial && p.sum in p.initial && p.result in p.initial
    && ReadsOnly(p.expr, InSight(p))
  }

  /** The names the block can read: the locals assigned before it, and its parameter. */
  function InSight(p: TimesPlan): set<nat> {
    p.initial.Keys + {p.counter}
  }

  /** The frame a plan starts from: initial values, and zero elsewhere. */
  function Frame(initial: Initials, locals: nat): (f: seq<int64>)
    ensures |f| == locals && forall s :: s in initial && s < locals ==> f[s] == initial[s]
  {
    seq(locals, i requires 0 <= i => if i in initial then initial[i] else 0)
  }

  method LoadFrame(initial: Initials, locals: nat) returns (frame: array<int64>)
    ensures fresh(frame) && frame[..] == Frame(initial, locals)
  {
    frame := new int64[locals](i requires 0 <= i => if i in initial then initial[i] else 0);
  }

  function TimesLoop(p: TimesPlan): Loop {
    Loop(p.expr, p.sum, p.counter, 0, 1, p.methods)
  }

  function Iterations(p: TimesPlan): nat
    requires WellFormed(p)
  {
    Max(0, p.initial[p.count])
  }

  /** What Ruby prints: the result local after all iterations; None if an iteration raises. A block parameter hides the outer
      local of the same name, so that local keeps its initial value. */
  function RubyOutput(p: TimesPlan): Option<int>
    requires WellFormed(p)
  {
    var end := ValueRun(TimesLoop(p), ValueFrame(p.initial, p.locals), InSight(p), Iterations(p));
    if end.None? then None
    else if p.result == p.counter then Some(p.initial[p.result])
    else if end.value[p.result].IntV? then Some(end.value[p.result].n)
    else None
  }

  /** The block reads only known locals, so Ruby's run is a run on integers. */
  lemma {:induction false} RubyOutputIsRun(p: TimesPlan)
    requires WellFormed(p)
    ensures RubyOutput(p) ==
            var end := RubyRun(TimesLoop(p), Frame(p.initial, p.locals), Iterations(p));
            if end.None? then None else Some(if p.result == p.counter then p.initial[p.result] else end.value[p.result])
  {
    KnownRun(TimesLoop(p), ValueFrame(p.initial, p.locals), InSight(p), Frame(p.initial, p.locals), Iterations(p));
  }

  // ---------------------------------------------------------------- step-by-step simulation

  /** The validator's simulation: like the machine loop, but with every operation checked. */
  function CheckedRun(l: Loop, locals: seq<int64>, k: nat): (r: Option<seq<int64>>)
    requires l.sum < |locals| && l.counter < |locals|
    ensures r.Some? ==> |r.value| == |locals|
  {
    if k == 0 then Some(locals) else
    var before := CheckedRun(l, locals, k - 1);
    if before.None? then None else
    var frame := before.value[l.counter := Wrap(At(l.start, l.step, k - 1))];
    var v := Checked(l.expr, frame, l.methods);
    if v.None? then None else Some(frame[l.sum := v.value])
  }

  lemma {:induction false} CheckedRunMonotone(l: Loop, locals: seq<int64>, j: nat, k: nat)
    requires l.sum < |locals| && l.counter < |locals| && j <= k && CheckedRun(l, locals, j).None?
    ensures CheckedRun(l, locals, k).None?
    decreases k
  {
    if j < k { CheckedRunMonotone(l, locals, j, k - 1); }
  }

  /** A simulation that survives has simulated both Ruby and the unchecked kernel, whatever the shape of the update. */
  lemma {:induction false} CheckedRunAgrees(l: Loop, locals: seq<int64>, k: nat)
    requires l.sum < |locals| && l.counter < |locals| && CheckedRun(l, locals, k).Some?
    requires forall j: nat :: j < k ==> Fits(At(l.start, l.step, j))
    ensures MachineRun(l, locals, k) == CheckedRun(l, locals, k)
    ensures RubyRun(l, locals, k) == CheckedRun(l, locals, k)
  {
    if k == 0 {
    } else {
      CheckedRunAgrees(l, locals, k - 1);
      var frame := CheckedRun(l, locals, k - 1).value[l.counter := At(l.start, l.step, k - 1)];
      CheckedExact(l.expr, frame, l.methods);
      UncheckedExact(l.expr, frame, l.methods);
    }
  }

  /** One simulated iteration, in place. */
  method CheckedIteration(l: Loop, values: array<int64>, index: int64, ghost start: seq<int64>, ghost k: nat) returns (ok: bool)
    requires l.sum < |start| && l.counter < |start| && index == At(l.start, l.step, k)
    requires CheckedRun(l, start, k) == Some(values[..])
    modifies values
    ensures CheckedRun(l, start, k + 1) == if ok then Some(values[..]) else None
  {
    values[l.counter] := index;
    var value := Checked(l.expr, values[..], l.methods);
    if value.None? { return false; }
    values[l.sum] := value.value;
    ok := true;
  }

  /** One machine iteration, in place. */
  method MachineIteration(l: Loop, locals: array<int64>, index: int64, ghost start: seq<int64>, ghost k: nat) returns (ok: bool)
    requires l.sum < |start| && l.counter < |start| && index == At(l.start, l.step, k)
    requires MachineRun(l, start, k) == Some(locals[..])
    modifies locals
    ensures MachineRun(l, start, k + 1) == if ok then Some(locals[..]) else None
  {
    locals[l.counter] := index;
    var value := Unchecked(l.expr, locals[..], l.methods);
    if value.None? { return false; }
    locals[l.sum] := value.value;
    ok := true;
  }

  // ---------------------------------------------------------------- validation

  function AffineVerdict(p: TimesPlan): Verdict
    requires WellFormed(p)
  {
    ValidateAffine(p.initial[p.counter := 0], p.counter, 0, p.initial[p.count], 1, false, [Assignment(p.sum, p.expr)], p.methods, false)
  }

  /** validatePeriodicTimesPlan: one more whole period than the run contains must fit next to the initial value. */
  function PeriodicVerdict(p: TimesPlan): Verdict
    requires WellFormed(p)
  {
    var count := p.initial[p.count];
    if count <= 0 then (if count == 0 then Accepted else Unproven)
    else if !PeriodicLoop(TimesLoop(p)) then Unproven
    else
      var period := LoopPeriod(TimesLoop(p));
      if period > 1_000_000 then Unproven
      else if WholePeriodsFit(p.initial[p.sum], SelfDelta(p.expr, p.sum).value.sign, period, count / period + 1) then Accepted
      else Rejected
  }

  predicate WholePeriodsFit(initial: int64, sign: int, period: int, periods: int)
    requires period > 0
  {
    Fits(initial + sign * (periods * Prefix(period, period)))
  }

  /** validateTimesPlan: intervals first, then periodicity, then simulation. */
  predicate TimesAccepted(p: TimesPlan)
    requires WellFormed(p)
  {
    match AffineVerdict(p)
    case Accepted => true
    case Rejected => false
    case Unproven =>
      match PeriodicVerdict(p)
      case Accepted => true
      case Rejected => false
      case Unproven =>
        Iterations(p) <= MAX_VALIDATED && CheckedRun(TimesLoop(p), Frame(p.initial, p.locals), Iterations(p)).Some?
  }

  /** The signed delta total after n iterations, as the periodic prover tracks it. */
  function SignedPrefix(sign: int, period: int, n: nat): int
    requires period > 0
  {
    if sign < 0 then -Prefix(period, n) else Prefix(period, n)
  }

  function Signed(sign: int, x: int): int { if sign < 0 then 0 - x else x }

  lemma {:induction false} PrefixStep(sign: int, period: int, index: nat)
    requires period > 0 && index < period
    ensures SignedPrefix(sign, period, index + 1) == SignedPrefix(sign, period, index) + Signed(sign, index)
  {
    SmallMod(index, period);
  }

  lemma {:induction false} SmallMod(i: int, period: int)
    requires 0 <= i < period
    ensures i % period == i
  {
  }

  /** One checked delta evaluation at counter value q * period + index. */
  method PeriodicStep(delta: Expr, counter: nat, ms: Methods, values: array<int64>, period: int64, q: nat, index: nat) returns (value: Option<int64>)
    requires PeriodOf(delta, counter) == Some(period) && counter < values.Length
    requires index < period && q * period + index <= MAX
    modifies values
    ensures value == Some(index)
  {
    AtLeast(q, period);
    values[counter] := q * period + index;
    DeltaValue(delta, counter, period, values[..], ms);
    ModShift(q, period, index);
    value := Checked(delta, values[..], ms);
  }

  /** The proof's walk over one period, tracking the extreme prefixes. */
  method WalkPeriod(delta: Expr, sign: int, counter: nat, ms: Methods, values: array<int64>, period: int64)
    returns (ok: bool, prefix: int, minimum: int, maximum: int)
    requires PeriodOf(delta, counter) == Some(period) && counter < values.Length && 1 <= period <= 1_000_000
    modifies values
    ensures ok && prefix == SignedPrefix(sign, period, period) && minimum == Min(0, prefix) && maximum == Max(0, prefix)
  {
    prefix, minimum, maximum := 0, 0, 0;
    for index := 0 to period
      invariant prefix == SignedPrefix(sign, period, index)
      invariant minimum == Min(0, prefix) && maximum == Max(0, prefix)
    {
      var value := PeriodicStep(delta, counter, ms, values, period, 0, index);
      if value.None? { return false, prefix, minimum, maximum; }
      PrefixStep(sign, period, index);
      prefix := prefix + Signed(sign, value.value);
      minimum, maximum := Min(minimum, prefix), Max(maximum, prefix);
    }
    ok := true;
  }

  /** The walk over the last, incomplete period. */
  method WalkRemainder(delta: Expr, sign: int, counter: nat, ms: Methods, values: array<int64>, period: int64, q: nat, r: nat, prefix: int, min: int, max: int)
    returns (ok: bool, low: int, high: int)
    requires PeriodOf(delta, counter) == Some(period) && counter < values.Length
    requires 1 <= period && r < period && q * period + r <= MAX
    requires prefix == SignedPrefix(sign, period, period)
    requires min == Min(0, prefix * (q + 1)) && max == Max(0, prefix * (q + 1))
    modifies values
    ensures ok && low == min && high == max
  {
    var partial := prefix * q;
    low, high := min, max;
    for index := 0 to r
      invariant partial == prefix * q + SignedPrefix(sign, period, index)
      invariant low == min && high == max
    {
      var value := PeriodicStep(delta, counter, ms, values, period, q, index);
      if value.None? { return false, low, high; }
      PrefixStep(sign, period, index);
      partial := partial + Signed(sign, value.value);
      PartialInBounds(sign, period, q, index + 1, prefix);
      low, high := Min(low, partial), Max(high, partial);
    }
    ok := true;
  }

  method ValidatePeriodicTimesPlan(p: TimesPlan, count: int64) returns (v: Verdict)
    requires WellFormed(p) && count == p.initial[p.count]
    ensures v == PeriodicVerdict(p)
  {
    hide SignedPrefix, SelfDelta, PeriodOf, ReadsOnly, Frame, WholePeriodsFit;
    if count <= 0 { return if count == 0 then Accepted else Unproven; }
    var d := SelfDelta(p.expr, p.sum);
    if d.None? { return Unproven; }
    var delta, sign := d.value.expr, d.value.sign;
    var period := PeriodOf(delta, p.counter);
    if period.None? || period.value > 1_000_000 { return Unproven; }
    assert period.value == LoopPeriod(TimesLoop(p));
    var low, high := WalkPlan(p, delta, sign, period.value, count);
    BoundsDecide(p.initial[p.sum], sign, period.value, count / period.value, low, high);
    v := if Fits(low + p.initial[p.sum]) && Fits(high + p.initial[p.sum]) then Accepted else Rejected;
  }

  /** The extreme prefixes of the whole run and one more period. */
  method WalkPlan(p: TimesPlan, delta: Expr, sign: int, period: int64, count: int64) returns (low: int, high: int)
    requires WellFormed(p) && PeriodOf(delta, p.counter) == Some(period) && 1 <= period <= 1_000_000 && count > 0
    ensures var whole := SignedPrefix(sign, period, period) * (count / period + 1); low == Min(0, whole) && high == Max(0, whole)
  {
    hide Prefix, SignedPrefix, PeriodOf, ReadsOnly, Frame, PeriodicLoop;
    var values := LoadFrame(p.initial, p.locals);
    var ok, prefix;
    ok, prefix, low, high := WalkPeriod(delta, sign, p.counter, p.methods, values, period);
    QuotientRemainder(count, period);
    var q, r := count / period, count % period;
    var cycleBase := prefix * q;
    if prefix >= 0 { high := high + cycleBase; } else { low := low + cycleBase; }
    Bounds(sign, period, q, prefix, low, high);
    ok, low, high := WalkRemainder(delta, sign, p.counter, p.methods, values, period, q, r, prefix, low, high);
  }

  lemma {:induction false} BoundsDecide(initial: int64, sign: int, period: int, q: int, low: int, high: int)
    requires period > 0 && (sign == 1 || sign == -1)
    requires var whole := SignedPrefix(sign, period, period) * (q + 1); low == Min(0, whole) && high == Max(0, whole)
    ensures Fits(low + initial) && Fits(high + initial) <==> WholePeriodsFit(initial, sign, period, q + 1)
  {
    WholeBound(sign, period, q, SignedPrefix(sign, period, period));
  }

  lemma {:induction false} QuotientRemainder(count: int, period: int)
    requires count > 0 && period > 0
    ensures count / period >= 0 && 0 <= count % period < period && (count / period) * period + count % period == count
  {
    AtLeast(-(count / period), period);
    assert -(count / period) * period == -((count / period) * period);
  }

  lemma {:induction false} WholeBound(sign: int, period: int, q: int, prefix: int)
    requires period > 0 && prefix == SignedPrefix(sign, period, period) && (sign == 1 || sign == -1)
    ensures prefix * (q + 1) == sign * ((q + 1) * Prefix(period, period))
  {
    assert Prefix(period, period) * (q + 1) == (q + 1) * Prefix(period, period);
    assert (-Prefix(period, period)) * (q + 1) == -(Prefix(period, period) * (q + 1));
  }

  lemma {:induction false} Bounds(sign: int, period: int, q: int, prefix: int, low: int, high: int)
    requires period > 0 && q >= 0 && prefix == SignedPrefix(sign, period, period)
    requires low == (if prefix >= 0 then Min(0, prefix) else Min(0, prefix) + prefix * q)
    requires high == (if prefix >= 0 then Max(0, prefix) + prefix * q else Max(0, prefix))
    ensures low == Min(0, prefix * (q + 1)) && high == Max(0, prefix * (q + 1))
  {
    assert prefix * (q + 1) == prefix * q + prefix;
    AtLeast(q, Abs(prefix));
    assert q * Abs(prefix) == (if prefix < 0 then -(prefix * q) else prefix * q);
  }

  lemma {:induction false} PartialInBounds(sign: int, period: int, q: int, index: nat, prefix: int)
    requires period > 0 && q >= 0 && index <= period && prefix == SignedPrefix(sign, period, period)
    ensures Min(0, prefix * (q + 1)) <= prefix * q + SignedPrefix(sign, period, index) <= Max(0, prefix * (q + 1))
  {
    PrefixMonotone(period, index, period);
    assert prefix * (q + 1) == prefix * q + prefix;
    AtLeast(q, Abs(prefix));
    assert q * Abs(prefix) == (if prefix < 0 then -(prefix * q) else prefix * q);
  }

  /** The validator as the source runs it. */
  method ValidateTimesPlan(p: TimesPlan) returns (accepted: bool)
    requires WellFormed(p)
    ensures accepted == TimesAccepted(p)
  {
    hide ValidateAffine, PeriodicVerdict, ReadsOnly;
    var count := p.initial[p.count];
    var affine := ValidateAffineLoop(p.initial[p.counter := 0], p.counter, 0, count, 1, false, [Assignment(p.sum, p.expr)], p.methods, false);
    if affine != Unproven { return affine == Accepted; }
    var periodic := ValidatePeriodicTimesPlan(p, count);
    if periodic != Unproven { return periodic == Accepted; }
    if count <= 0 { return true; }
    accepted := SimulateTimes(p);
  }

  /** The simulation of validateTimesPlan. */
  method SimulateTimes(p: TimesPlan) returns (accepted: bool)
    requires WellFormed(p) && p.initial[p.count] > 0
    ensures accepted == (Iterations(p) <= MAX_VALIDATED && CheckedRun(TimesLoop(p), Frame(p.initial, p.locals), Iterations(p)).Some?)
  {
    var values := LoadFrame(p.initial, p.locals);
    var count := p.initial[p.count];
    var iteration := 0;
    var l := TimesLoop(p);
    ghost var f := Frame(p.initial, p.locals);
    assert CheckedRun(l, f, 0) == Some(f);
    hide CheckedRun;
    while iteration < count
      invariant 0 <= iteration <= count && (iteration <= MAX_VALIDATED)
      invariant CheckedRun(l, f, iteration) == Some(values[..])
    {
      if iteration >= MAX_VALIDATED { return false; }
      var ok := CheckedIteration(l, values, iteration, f, iteration);
      if !ok { CheckedRunMonotone(l, f, iteration + 1, count); return false; }
      iteration := iteration + 1;
    }
    accepted := true;
  }

  // ---------------------------------------------------------------- execution

  /** executeAffineTimesPlan; None when it leaves the plan to the next kernel. */
  function AffineTimes(p: TimesPlan): Option<int64>
    requires WellFormed(p)
  {
    var d := SelfDelta(p.expr, p.sum);
    if p.sum != p.result || d.None? then None
    else if p.initial[p.count] <= 0 then Some(p.initial[p.result])
    else AccumulatorValue(p.initial[p.result], d.value.expr, d.value.sign, p.counter, 0, 1, p.initial[p.count], p.methods)
  }

  /** executePeriodicTimesPlan; None when it leaves the plan to the loop. It adds the total to what it finds in the printed
      local, which is the last counter value it tried if the parameter is the accumulator. */
  function PeriodicTimes(p: TimesPlan): Option<int64>
    requires WellFormed(p)
  {
    if p.sum != p.result || !PeriodicLoop(TimesLoop(p)) then None
    else if p.initial[p.count] <= 0 then Some(p.initial[p.result])
    else if LoopPeriod(TimesLoop(p)) > 1_000_000 then None
    else
      var count, period := p.initial[p.count], LoopPeriod(TimesLoop(p));
      var base := if p.counter == p.result then LastWalked(period, count) else p.initial[p.result];
      var total := base + SelfDelta(p.expr, p.sum).value.sign * Prefix(period, count);
      if Fits(total) then Some(total) else None
  }

  /** The last counter value of the walk over one period and the remainder. */
  function LastWalked(period: int64, count: int64): (c: int64)
    requires period > 0 && count > 0
  {
    if count % period > 0 then count - 1 else period - 1
  }

  lemma {:induction false} PrefixBound(period: int, n: nat)
    requires 1 <= period <= 1_000_000
    ensures Prefix(period, n) <= n * 1_000_000
  {
    if n > 0 { PrefixBound(period, n - 1); }
  }

  predicate OnlyMoved(now: seq<int64>, before: seq<int64>, slot: nat) {
    |now| == |before| && forall s :: 0 <= s < |before| && s != slot ==> now[s] == before[s]
  }

  /** The delta total over one period (q == 0) or over the start of period q, left in a wrapping int64. */
  method SumDeltas(delta: Expr, counter: nat, ms: Methods, locals: array<int64>, period: int64, q: nat, n: nat) returns (sum: int64)
    requires PeriodOf(delta, counter) == Some(period) && counter < locals.Length && period <= 1_000_000
    requires n <= period && (n > 0 ==> q * period + n - 1 <= MAX)
    modifies locals
    ensures sum == Prefix(period, n) && OnlyMoved(locals[..], old(locals[..]), counter)
    ensures locals[counter] == if n > 0 then q * period + n - 1 else old(locals[counter])
  {
    sum := 0;
    for index := 0 to n
      invariant sum == Prefix(period, index) && OnlyMoved(locals[..], old(locals[..]), counter)
      invariant locals[counter] == if index > 0 then q * period + index - 1 else old(locals[counter])
    {
      AtLeast(q, period);
      locals[counter] := q * period + index;
      DeltaValue(delta, counter, period, locals[..], ms);
      ModShift(q, period, index);
      SmallMod(index, period);
      PrefixBound(period, index + 1);
      sum := Wrap(sum + Unchecked(delta, locals[..], ms).value);
    }
  }

  lemma {:induction false} CyclesTotal(period: int, q: nat, r: nat, count: nat)
    requires period > 0 && r < period && q * period + r == count
    ensures Prefix(period, period) * q + Prefix(period, r) == Prefix(period, count)
  {
    PrefixCycles(period, q, r);
    assert Prefix(period, period) * q == q * Prefix(period, period);
  }

  lemma {:induction false} SignedProduct(sign: int, x: int)
    requires sign == 1 || sign == -1
    ensures Signed(sign, x) == sign * x
  {
  }

  /** One period is walked and multiplied; only the remainder is walked again. */
  method PeriodicTotal(delta: Expr, counter: nat, ms: Methods, locals: array<int64>, period: int64, count: int64) returns (total: int)
    requires PeriodOf(delta, counter) == Some(period) && counter < locals.Length && period <= 1_000_000 && count > 0
    modifies locals
    ensures total == Prefix(period, count) && OnlyMoved(locals[..], old(locals[..]), counter)
    ensures locals[counter] == LastWalked(period, count)
  {
    var cycleSum := SumDeltas(delta, counter, ms, locals, period, 0, period);
    var q, r := count / period, count % period;
    QuotientRemainder(count, period);
    var rest := SumDeltas(delta, counter, ms, locals, period, q, r);
    CyclesTotal(period, q, r, count);
    total := cycleSum * q + rest;
  }

  /** The periodic kernel: one period, then the remainder, on the machine frame. */
  method ExecutePeriodicTimesPlan(p: TimesPlan, locals: array<int64>) returns (printed: Option<int64>)
    requires WellFormed(p) && locals[..] == Frame(p.initial, p.locals)
    modifies locals
    ensures printed == PeriodicTimes(p)
    ensures printed.None? ==> locals[..] == old(locals[..])
  {
    var d := SelfDelta(p.expr, p.sum);
    if p.sum != p.result || d.None? { return None; }
    var delta := d.value.expr;
    var period := PeriodOf(delta, p.counter);
    if period.None? { return None; }
    var count := locals[p.count];
    if count <= 0 { return Some(locals[p.result]); }
    if period.value > 1_000_000 { return None; }
    var oldCounter := locals[p.counter];
    var total := PeriodicTotal(delta, p.counter, p.methods, locals, period.value, count);
    var result := locals[p.result] + Signed(d.value.sign, total);
    SignedProduct(d.value.sign, total);
    locals[p.counter] := oldCounter;
    if !Fits(result) { return None; }
    locals[p.result] := result;
    printed := Some(result);
  }

  /** What executePlan prints: the affine kernel, else the periodic kernel, else the unchecked loop; None if it panics. */
  function TimesOutput(p: TimesPlan): Option<int64>
    requires WellFormed(p)
  {
    if AffineTimes(p).Some? then AffineTimes(p)
    else if PeriodicTimes(p).Some? then PeriodicTimes(p)
    else
      var end := MachineRun(TimesLoop(p), Frame(p.initial, p.locals), Iterations(p));
      if end.None? then None else Some(end.value[p.result])
  }

  lemma {:induction false} MachineRunMonotone(l: Loop, locals: seq<int64>, j: nat, k: nat)
    requires l.sum < |locals| && l.counter < |locals| && j <= k && MachineRun(l, locals, j).None?
    ensures MachineRun(l, locals, k).None?
    decreases k
  {
    if j < k { MachineRunMonotone(l, locals, j, k - 1); }
  }

  lemma {:induction false} MachineRunStarts(l: Loop, locals: seq<int64>)
    requires l.sum < |locals| && l.counter < |locals|
    ensures MachineRun(l, locals, 0) == Some(locals)
  {
  }

  method ExecuteTimesPlan(p: TimesPlan) returns (printed: Option<int64>)
    requires WellFormed(p)
    ensures printed == TimesOutput(p)
  {
    hide MachineRun, AffineTimes, PeriodicTimes, ReadsOnly;
    var locals := LoadFrame(p.initial, p.locals);
    var affine := AffineTimes(p);
    if affine.Some? { return affine; }
    var periodic := ExecutePeriodicTimesPlan(p, locals);
    if periodic.Some? { return periodic; }
    var count := locals[p.count];
    var index := 0;
    var l := TimesLoop(p);
    ghost var f := Frame(p.initial, p.locals);
    MachineRunStarts(l, f);
    while index < count
      invariant 0 <= index <= Iterations(p)
      invariant MachineRun(l, f, index) == Some(locals[..])
    {
      var ok := MachineIteration(l, locals, index, f, index);
      if !ok { MachineRunMonotone(l, f, index + 1, Iterations(p)); return None; }
      index := index + 1;
    }
    printed := Some(locals[p.result]);
  }

  // ---------------------------------------------------------------- accepted plans print what Ruby prints

  /** Acceptance by the periodic prover covers every prefix of the whole run, although one period was walked. */
  lemma {:induction false} PeriodicAcceptanceSound(p: TimesPlan, j: nat)
    requires WellFormed(p) && PeriodicVerdict(p) == Accepted && j <= Iterations(p) && p.initial[p.count] > 0
    ensures Fits(p.initial[p.sum] + SelfDelta(p.expr, p.sum).value.sign * Prefix(LoopPeriod(TimesLoop(p)), j))
  {
    var count, period := p.initial[p.count], LoopPeriod(TimesLoop(p));
    var q, r := count / period, count % period;
    QuotientRemainder(count, period);
    PrefixMonotone(period, j, count);
    PrefixWithin(period, q, r);
    FitsBetween(p.initial[p.sum], SelfDelta(p.expr, p.sum).value.sign, Prefix(period, j), (q + 1) * Prefix(period, period));
  }

  lemma {:induction false} PrefixWithin(period: int, q: nat, r: nat)
    requires period > 0 && r < period
    ensures q * period + r >= 0 && Prefix(period, q * period + r) <= (q + 1) * Prefix(period, period)
  {
    PrefixCycles(period, q, r);
    PrefixMonotone(period, r, period);
    assert (q + 1) * Prefix(period, period) == q * Prefix(period, period) + Prefix(period, period);
  }

  lemma {:induction false} FitsBetween(initial: int64, sign: int, x: int, bound: int)
    requires (sign == 1 || sign == -1) && 0 <= x <= bound && Fits(initial + sign * bound)
    ensures Fits(initial + sign * x)
  {
    if sign == 1 { } else { }
  }

  /** However a plan was accepted, its unchecked loop equals Ruby's loop. */
  lemma {:induction false} AcceptedLoopAgrees(p: TimesPlan)
    requires WellFormed(p) && TimesAccepted(p) && p.counter != p.sum
    requires AffineVerdict(p) == Accepted ==> SoundUpdate(p.expr, p.sum)
    ensures RubyRun(TimesLoop(p), Frame(p.initial, p.locals), Iterations(p)).Some?
    ensures MachineRun(TimesLoop(p), Frame(p.initial, p.locals), Iterations(p)) ==
            RubyRun(TimesLoop(p), Frame(p.initial, p.locals), Iterations(p))
  {
    var l, f, n := TimesLoop(p), Frame(p.initial, p.locals), Iterations(p);
    if n == 0 {
    } else if AffineVerdict(p) == Accepted {
      var last := LastValue(0, 1, n).value;
      IntervalAcceptanceSound(l, p.initial[p.counter := 0], n, last, f[p.counter := 0], n);
      CounterSlotFresh(l, f, 0, n);
    } else if PeriodicVerdict(p) == Accepted {
      forall j: nat | j <= n ensures Fits(f[p.sum] + SelfDelta(p.expr, p.sum).value.sign * Prefix(LoopPeriod(l), j)) {
        PeriodicAcceptanceSound(p, j);
      }
      PeriodicRun(l, f, n);
      PeriodicMachineRun(l, f, n);
    } else {
      CheckedRunAgrees(l, f, n);
    }
  }

  /** The first iteration overwrites the counter slot, so its initial content does not matter. */
  lemma {:induction false} CounterSlotFresh(l: Loop, locals: seq<int64>, c: int64, k: nat)
    requires l.sum < |locals| && l.counter < |locals| && k > 0
    ensures RubyRun(l, locals[l.counter := c], k) == RubyRun(l, locals, k)
    ensures MachineRun(l, locals[l.counter := c], k) == MachineRun(l, locals, k)
  {
    if k == 1 {
      var start := At(l.start, l.step, 0);
      assert RubyRun(l, locals[l.counter := c], 0) == Some(locals[l.counter := c]);
      assert MachineRun(l, locals[l.counter := c], 0) == Some(locals[l.counter := c]);
      assert locals[l.counter := c][l.counter := start] == locals[l.counter := start];
    } else {
      CounterSlotFresh(l, locals, c, k - 1);
    }
  }

  lemma {:induction false} LastCounter(l: Loop, locals: seq<int64>, k: nat)
    requires l.sum < |locals| && l.counter < |locals| && l.sum != l.counter && k > 0 && MachineRun(l, locals, k).Some?
    ensures MachineRun(l, locals, k).value[l.counter] == Wrap(At(l.start, l.step, k - 1))
  {
  }

  /** An interval-accepted self-delta, faithful or not: the machine's loop leaves Ruby's accumulator, wrapped. */
  lemma {:induction false} AcceptedLoopWraps(p: TimesPlan)
    requires WellFormed(p) && AffineVerdict(p) == Accepted && SelfDelta(p.expr, p.sum).Some? && p.counter != p.sum && Iterations(p) > 0
    ensures Wrapped(TimesLoop(p), Frame(p.initial, p.locals)[p.counter := 0], Iterations(p))
    ensures RubyRun(TimesLoop(p), Frame(p.initial, p.locals), Iterations(p)).Some?
    ensures MachineRun(TimesLoop(p), Frame(p.initial, p.locals), Iterations(p)).Some?
    ensures WrappedFrame(p.sum, RubyRun(TimesLoop(p), Frame(p.initial, p.locals), Iterations(p)).value,
                         MachineRun(TimesLoop(p), Frame(p.initial, p.locals), Iterations(p)).value)
  {
    var l, f, n := TimesLoop(p), Frame(p.initial, p.locals), Iterations(p);
    WrappedRun(l, p.initial[p.counter := 0], n, LastValue(0, 1, n).value, f[p.counter := 0], n);
    CounterSlotFresh(l, f, 0, n);
  }

  // ---------------------------------------------------------------- a block that assigns its own parameter

  /** Such a block is never accepted from intervals, unless it does not run at all. */
  lemma {:induction false} ParameterUpdateUnproven(initial: Initials, counter: nat, start: int64, limit: int64, expr: Expr, ms: Methods)
    ensures var v := ValidateAffine(initial, counter, start, limit, 1, false, [Assignment(counter, expr)], ms, false);
            v == Accepted <==> IterationCount(start, limit, 1, false) == Some(0)
  {
    hide IterationCount, LastValue;
    forall s: Analysis, shape: LoopShape | shape.counter == counter && !shape.requireCounter
      ensures AnalyzeAll(s, [Assignment(counter, expr)], shape).None?
    {
      assert [Assignment(counter, expr)][0] == Assignment(counter, expr);
    }
  }

  /** Each iteration starts afresh, so the last one decides. */
  lemma {:induction false} ParameterRun(l: Loop, locals: seq<int64>, k: nat)
    requires l.sum == l.counter < |locals| && k > 0 && MachineRun(l, locals, k).Some?
    ensures var v := Unchecked(l.expr, locals[l.counter := Wrap(At(l.start, l.step, k - 1))], l.methods);
            v.Some? && MachineRun(l, locals, k) == Some(locals[l.counter := v.value])
  {
    var c := Wrap(At(l.start, l.step, k - 1));
    var before := MachineRun(l, locals, k - 1).value;
    if k == 1 {
      assert before == locals;
    } else {
      ParameterRun(l, locals, k - 1);
    }
    var frame := locals[l.counter := c];
    assert before[l.counter := c] == frame;
    var v := Unchecked(l.expr, frame, l.methods).value;
    assert frame[l.counter := v] == locals[l.counter := v];
  }

  /** Accepted periodic updates never raise, whatever slot they assign. */
  lemma {:induction false} PeriodicNeverRaises(l: Loop, locals: seq<int64>, k: nat)
    requires PeriodicLoop(l) && l.sum < |locals| && l.counter < |locals| && k <= MAX
    ensures RubyRun(l, locals, k).Some? && MachineRun(l, locals, k).Some?
  {
    if k > 0 {
      PeriodicNeverRaises(l, locals, k - 1);
      var c := At(l.start, l.step, k - 1);
      var ruby, machine := RubyRun(l, locals, k - 1).value[l.counter := c], MachineRun(l, locals, k - 1).value[l.counter := Wrap(c)];
      PeriodicDelta(l, ruby);
      PeriodicDelta(l, machine);
      SelfDeltaValue(l.expr, l.sum, ruby, l.methods);
      UncheckedSelfDelta(l.expr, l.sum, machine, l.methods);
    }
  }

  /** An accepted plan whose block assigns its own parameter runs to its end, in Ruby and on the machine. */
  lemma {:induction false} ParameterPlanRuns(p: TimesPlan)
    requires WellFormed(p) && TimesAccepted(p) && p.counter == p.sum
    ensures RubyRun(TimesLoop(p), Frame(p.initial, p.locals), Iterations(p)).Some?
    ensures MachineRun(TimesLoop(p), Frame(p.initial, p.locals), Iterations(p)).Some?
  {
    var l, f, n := TimesLoop(p), Frame(p.initial, p.locals), Iterations(p);
    ParameterUpdateUnproven(p.initial[p.counter := 0], p.counter, 0, p.initial[p.count], p.expr, p.methods);
    if n == 0 {
    } else if PeriodicVerdict(p) == Accepted {
      PeriodicNeverRaises(l, f, n);
    } else {
      CheckedRunAgrees(l, f, n);
    }
  }

  lemma {:induction false} OthersKept(l: Loop, locals: seq<int>, k: nat)
    requires l.sum < |locals| && l.counter < |locals| && RubyRun(l, locals, k).Some?
    ensures FrameKept(l, locals, RubyRun(l, locals, k).value)
  {
    if k > 0 { OthersKept(l, locals, k - 1); }
  }

  lemma {:induction false} MachineOthersKept(l: Loop, locals: seq<int64>, k: nat)
    requires l.sum < |locals| && l.counter < |locals| && MachineRun(l, locals, k).Some?
    ensures FrameKept(l, locals, MachineRun(l, locals, k).value)
  {
    if k > 0 { MachineOthersKept(l, locals, k - 1); }
  }

  /** Ruby leaves the outer local alone; does the plan print its initial value? With an affine delta a * i + b: if and only if
      a times the counter sum plus b times the count is zero. Else the walked total, or one evaluation, decides. */
  predicate ParameterUnseen(p: TimesPlan)
    requires WellFormed(p) && p.counter == p.sum == p.result && Iterations(p) > 0
  {
    var n := Iterations(p);
    if AffineTimes(p).Some? then
      var f := Linear(SelfDelta(p.expr, p.sum).value.expr, p.counter, p.methods).value;
      f.a * CounterSum(0, 1, n) + f.b * n == 0
    else if PeriodicTimes(p).Some? then
      var period := LoopPeriod(TimesLoop(p));
      LastWalked(period, n) + SelfDelta(p.expr, p.sum).value.sign * Prefix(period, n) == p.initial[p.result]
    else Unchecked(p.expr, Frame(p.initial, p.locals)[p.counter := n - 1], p.methods) == Some(p.initial[p.result])
  }

  /** When an accepted plan prints what Ruby prints. */
  predicate PrintsRight(p: TimesPlan)
    requires WellFormed(p)
  {
    var n := Iterations(p);
    if n == 0 then true
    else if p.counter == p.sum then p.result != p.counter || ParameterUnseen(p)
    else if p.result == p.counter then p.initial[p.counter] == n - 1
    else if AffineTimes(p).Some? then SelfDelta(p.expr, p.sum).value.sign == 1 || LostTotal(TimesLoop(p), n) == 0
    else if AffineVerdict(p) == Accepted && !SoundUpdate(p.expr, p.sum) && p.result == p.sum then
      RubyOutput(p).Some? && Fits(RubyOutput(p).value)
    else true
  }

  /** The promise of the tier for times plans. The one premise: an update accepted from intervals is not one that hides a read
      of its accumulator inside a call. Then the plan prints what Ruby prints, whichever kernel runs it, if and only if
      PrintsRight: the parameter does not hide the printed local, no sign is lost, and what the loop cannot wrap fits. */
  lemma {:induction false} AcceptedTimesPlanIsRuby(p: TimesPlan)
    requires WellFormed(p) && TimesAccepted(p)
    requires AffineVerdict(p) == Accepted ==> SelfDelta(p.expr, p.sum).Some? || !Contains(p.expr, p.sum)
    ensures RubyOutput(p).Some?
    ensures TimesOutput(p) == RubyOutput(p) <==> PrintsRight(p)
  {
    RubyOutputIsRun(p);
    var l, f, n := TimesLoop(p), Frame(p.initial, p.locals), Iterations(p);
    if n == 0 {
    } else if p.counter == p.sum {
      ParameterPlanPrints(p);
    } else if AffineVerdict(p) == Accepted && !SoundUpdate(p.expr, p.sum) {
      UnfaithfulPlanPrints(p);
    } else {
      AcceptedLoopAgrees(p);
      SoundPlanPrints(p);
    }
  }

  lemma {:induction false} ParameterPlanPrints(p: TimesPlan)
    requires WellFormed(p) && TimesAccepted(p) && p.counter == p.sum && Iterations(p) > 0
    ensures RubyOutput(p).Some? && (TimesOutput(p) == RubyOutput(p) <==> PrintsRight(p))
  {
    hide RubyOutput, TimesAccepted, RubyRun, MachineRun, Unchecked, Linear, CounterSum, Prefix, SelfDelta, PeriodicLoop, ReadsOnly;
    RubyOutputIsRun(p);
    ParameterPlanRuns(p);
    OthersKept(TimesLoop(p), Frame(p.initial, p.locals), Iterations(p));
    ParameterRun(TimesLoop(p), Frame(p.initial, p.locals), Iterations(p));
    if p.result == p.sum { ParameterKernels(p); }
  }

  lemma {:induction false} ParameterKernels(p: TimesPlan)
    requires WellFormed(p) && p.counter == p.sum == p.result && Iterations(p) > 0
    ensures AffineTimes(p).Some? ==> (AffineTimes(p) == Some(p.initial[p.result]) <==> ParameterUnseen(p))
    ensures AffineTimes(p).None? && PeriodicTimes(p).Some? ==> (PeriodicTimes(p) == Some(p.initial[p.result]) <==> ParameterUnseen(p))
  {
    hide Linear, CounterSum, Prefix, SelfDelta;
  }

  lemma {:induction false} UnfaithfulPlanPrints(p: TimesPlan)
    requires WellFormed(p) && AffineVerdict(p) == Accepted && p.counter != p.sum && SelfDelta(p.expr, p.sum).Some?
    requires !SoundUpdate(p.expr, p.sum) && Iterations(p) > 0
    ensures RubyOutput(p).Some? && (TimesOutput(p) == RubyOutput(p) <==> PrintsRight(p))
  {
    RubyOutputIsRun(p);
    var l, f, n := TimesLoop(p), Frame(p.initial, p.locals), Iterations(p);
    AcceptedLoopWraps(p);
    if PeriodicLoop(l) { PeriodicIsFaithful(l); }
    if p.result == p.counter {
      LastCounter(l, f, n);
    } else if AffineTimes(p).Some? {
      AffineKernelExactIff(l, f, n);
    }
  }

  lemma {:induction false} SoundPlanPrints(p: TimesPlan)
    requires WellFormed(p) && TimesAccepted(p) && p.counter != p.sum && Iterations(p) > 0
    requires AffineVerdict(p) == Accepted ==> SoundUpdate(p.expr, p.sum)
    ensures RubyOutput(p).Some? && (TimesOutput(p) == RubyOutput(p) <==> PrintsRight(p))
  {
    hide RubyOutput, TimesAccepted, RubyRun, MachineRun, Linear, CounterSum, Prefix, SelfDelta, ReadsOnly, AffineVerdict, SoundUpdate, LostTotal;
    RubyOutputIsRun(p);
    var l, f, n := TimesLoop(p), Frame(p.initial, p.locals), Iterations(p);
    AcceptedLoopAgrees(p);
    if p.result == p.counter {
      LastCounter(l, f, n);
    } else if AffineTimes(p).Some? {
      AffineKernelExactIff(l, f, n);
    } else if PeriodicTimes(p).Some? {
      PeriodicRun(l, f, n);
    }
  }
}
