/** times and range loops: interval acceptance is sound. */
module AotCounted {
  // One assignment per iteration, counter start + k * step. Interval acceptance makes the wrapping machine loop equal to
  // Ruby's unbounded one at every iteration.

  import opened Options
  import opened Int64
  import opened AotExpr
  import opened AotChecked
  import opened AotInterval
  import opened AotSelfDelta
  import opened AotLoops
  import opened AotValidate

  /** for counter = start, start + step, ...: sum = expr */
  datatype Loop = Loop(expr: Expr, sum: nat, counter: nat, start: int64, step: int64, methods: Methods)

  /** Ruby's locals after k iterations; None once an iteration has raised. */
  function RubyRun(l: Loop, locals: seq<int>, k: nat): (r: Option<seq<int>>)
    requires l.sum < |locals| && l.counter < |locals|
    ensures r.Some? ==> |r.value| == |locals|
  {
    if k == 0 then Some(locals) else
    var before := RubyRun(l, locals, k - 1);
    if before.None? then None else
    var frame := before.value[l.counter := At(l.start, l.step, k - 1)];
    var v := RubyEval(l.expr, frame, l.methods);
    if v.None? then None else Some(frame[l.sum := v.value])
  }

  /** The machine loop of executePlan after k iterations; None once it has panicked. */
  function MachineRun(l: Loop, locals: seq<int64>, k: nat): (r: Option<seq<int64>>)
    requires l.sum < |locals| && l.counter < |locals|
    ensures r.Some? ==> |r.value| == |locals|
  {
    if k == 0 then Some(locals) else
    var before := MachineRun(l, locals, k - 1);
    if before.None? then None else
    var frame := before.value[l.counter := Wrap(At(l.start, l.step, k - 1))];
    var v := Unchecked(l.expr, frame, l.methods);
    if v.None? then None else Some(frame[l.sum := v.value])
  }

  /** The validator's verdict for the loop run `count` times over the given initial values. */
  function LoopAccepted(l: Loop, initial: Initials, count: int64, last: int64): bool {
    AnalyzeAll(StartAnalysis(initial, l.counter, l.start, last), [Assignment(l.sum, l.expr)],
               ShapeOf(l.counter, l.step, count, [Assignment(l.sum, l.expr)], l.methods, false)).Some?
  }

  /** The update shapes for which the validator's reasoning is right: a self-delta whose rewriting keeps its meaning,
      or an expression that does not read the accumulator (not even inside a call). */
  predicate SoundUpdate(expr: Expr, sum: nat) {
    if SelfDelta(expr, sum).Some? then Faithful(expr, sum) else !Contains(expr, sum)
  }

  /** The frame starts with the initial values. */
  predicate Loaded(locals: seq<int>, initial: Initials) {
    forall s :: s in initial ==> s < |locals| && locals[s] == initial[s]
  }

  /** Run state k of a loop: nothing but the sum and the counter has moved. */
  ghost predicate FrameKept(l: Loop, locals: seq<int>, now: seq<int>) {
    |now| == |locals| && forall s :: 0 <= s < |locals| && s != l.sum && s != l.counter ==> now[s] == locals[s]
  }

  lemma {:induction false} CounterInRange(l: Loop, count: int64, last: int64, k: nat)
    requires count >= 1 && LastValue(l.start, l.step, count) == Some(last) && k < count
    ensures In(At(l.start, l.step, k), CounterInterval(l.start, last))
    ensures Fits(At(l.start, l.step, k))
  {
    AtMonotone(l.start, l.step, 0, k);
    AtMonotone(l.start, l.step, k, count - 1);
  }

  /** During iteration k the analysis intervals cover every local the expression reads, except the accumulator. */
  lemma {:induction false} FrameWithin(l: Loop, initial: Initials, count: int64, last: int64, locals: seq<int>, now: seq<int>, k: nat, e: Expr)
    requires count >= 1 && LastValue(l.start, l.step, count) == Some(last) && k < count
    requires l.sum < |locals| && l.counter < |locals| && l.sum != l.counter
    requires Loaded(locals, initial) && FrameKept(l, locals, now) && !Contains(e, l.sum)
    ensures Within(e, now[l.counter := At(l.start, l.step, k)], PointIntervals(initial)[l.counter := CounterInterval(l.start, last)])
  {
    CounterInRange(l, count, last, k);
  }

  /** The range of sign * x for x in an interval. */
  function SignedMin(i: Interval, sign: int): int { if sign < 0 then 0 - i.max else i.min }
  function SignedMax(i: Interval, sign: int): int { if sign < 0 then 0 - i.min else i.max }

  lemma {:induction false} ScaledRange(initial: Interval, delta: Interval, sign: int, count: int64)
    requires AccumulatorRange(initial, delta, sign, count).Some? && initial.min == initial.max && count >= 1
    ensures Fits(initial.min + count * SignedMin(delta, sign)) && Fits(initial.min + count * SignedMax(delta, sign))
  {
    assert SignedMin(delta, sign) * count == count * SignedMin(delta, sign);
    assert SignedMax(delta, sign) * count == count * SignedMax(delta, sign);
  }

  lemma {:induction false} Partial(k: int, count: int, x: int)
    requires 0 <= k <= count
    ensures Min(0, count * x) <= k * x <= Max(0, count * x)
  {
    AtMonotone(0, x, 0, k);
    AtMonotone(0, x, k, count);
  }

  lemma {:induction false} NextBound(initial: int64, count: int, k: int, lo: int, hi: int, sum: int, next: int)
    requires 1 <= k <= count && Fits(initial + count * lo) && Fits(initial + count * hi)
    requires initial + (k - 1) * lo <= sum <= initial + (k - 1) * hi && sum + lo <= next <= sum + hi
    ensures initial + k * lo <= next <= initial + k * hi && Fits(next)
  {
    assert (k - 1) * lo == k * lo - lo && (k - 1) * hi == k * hi - hi;
    Partial(k, count, lo);
    Partial(k, count, hi);
  }

  /** What acceptance of a self-delta update has established. */
  lemma {:induction false} AcceptedDelta(l: Loop, initial: Initials, count: int64, last: int64) returns (range: Interval)
    requires LoopAccepted(l, initial, count, last) && SelfDelta(l.expr, l.sum).Some? && l.sum != l.counter
    ensures var d := SelfDelta(l.expr, l.sum).value;
            && l.sum in initial && !Contains(d.expr, l.sum)
            && EvalInterval(d.expr, PointIntervals(initial)[l.counter := CounterInterval(l.start, last)], l.methods) == Some(range)
            && AccumulatorRange(Interval(initial[l.sum], initial[l.sum]), range, d.sign, count).Some?
  {
    var s := StartAnalysis(initial, l.counter, l.start, last);
    var shape := ShapeOf(l.counter, l.step, count, [Assignment(l.sum, l.expr)], l.methods, false);
    assert Analyze(s, Assignment(l.sum, l.expr), shape).Some?;
    range := EvalInterval(SelfDelta(l.expr, l.sum).value.expr, s.intervals, l.methods).value;
  }

  /** One iteration of an accepted accumulator: the delta is safe and in range, and the machine adds it without loss. */
  lemma {:induction false} AccumulatorStep(l: Loop, frame: seq<int64>, ivs: Intervals, range: Interval)
    requires Faithful(l.expr, l.sum) && l.sum < |frame|
    requires Within(SelfDelta(l.expr, l.sum).value.expr, frame, ivs)
    requires EvalInterval(SelfDelta(l.expr, l.sum).value.expr, ivs, l.methods) == Some(range)
    ensures var sign := SelfDelta(l.expr, l.sum).value.sign;
            var v := RubyEval(l.expr, frame, l.methods);
            && v.Some?
            && frame[l.sum] + SignedMin(range, sign) <= v.value <= frame[l.sum] + SignedMax(range, sign)
            && Unchecked(l.expr, frame, l.methods) == Some(Wrap(v.value))
  {
    IntervalSound(SelfDelta(l.expr, l.sum).value.expr, frame, ivs, l.methods);
    FaithfulValue(l.expr, l.sum, frame, l.methods);
    UncheckedSelfDelta(l.expr, l.sum, frame, l.methods);
  }

  /** The two runs agree after k iterations, all locals are machine integers, and only sum and counter have moved. */
  ghost predicate Agree(l: Loop, locals: seq<int64>, k: nat)
    requires l.sum < |locals| && l.counter < |locals|
  {
    && RubyRun(l, locals, k).Some?
    && MachineRun(l, locals, k) == RubyRun(l, locals, k)
    && FrameKept(l, locals, RubyRun(l, locals, k).value)
  }

  ghost predicate Ready(l: Loop, initial: Initials, count: int64, last: int64, locals: seq<int>) {
    && count >= 1 && LastValue(l.start, l.step, count) == Some(last)
    && l.sum < |locals| && l.counter < |locals| && l.sum != l.counter
    && Loaded(locals, initial) && LoopAccepted(l, initial, count, last)
  }

  /** The accepted delta, at iteration k: it is safe on the machine's frame, and in its range. */
  lemma {:induction false} DeltaIsSafe(l: Loop, initial: Initials, count: int64, last: int64, locals: seq<int>, range: Interval,
                                       now: seq<int>, k: nat)
    requires Ready(l, initial, count, last, locals) && SelfDelta(l.expr, l.sum).Some? && k < count && FrameKept(l, locals, now)
    requires !Contains(SelfDelta(l.expr, l.sum).value.expr, l.sum)
    requires EvalInterval(SelfDelta(l.expr, l.sum).value.expr, PointIntervals(initial)[l.counter := CounterInterval(l.start, last)], l.methods) == Some(range)
    ensures Safe(SelfDelta(l.expr, l.sum).value.expr, now[l.counter := At(l.start, l.step, k)], l.methods)
  {
    hide EvalInterval, SelfDelta, Safe, LoopAccepted, Within;
    var d := SelfDelta(l.expr, l.sum).value;
    FrameWithin(l, initial, count, last, locals, now, k, d.expr);
    IntervalSound(d.expr, now[l.counter := At(l.start, l.step, k)], PointIntervals(initial)[l.counter := CounterInterval(l.start, last)], l.methods);
  }

  lemma {:induction false} AccumulatorRun(l: Loop, initial: Initials, count: int64, last: int64, locals: seq<int64>,
                                          range: Interval, k: nat)
    requires Ready(l, initial, count, last, locals) && Faithful(l.expr, l.sum) && k <= count
    requires l.sum in initial && !Contains(SelfDelta(l.expr, l.sum).value.expr, l.sum)
    requires EvalInterval(SelfDelta(l.expr, l.sum).value.expr, PointIntervals(initial)[l.counter := CounterInterval(l.start, last)], l.methods) == Some(range)
    requires AccumulatorRange(Interval(initial[l.sum], initial[l.sum]), range, SelfDelta(l.expr, l.sum).value.sign, count).Some?
    ensures Agree(l, locals, k)
    ensures var sign := SelfDelta(l.expr, l.sum).value.sign;
            var sum := RubyRun(l, locals, k).value[l.sum];
            && Fits(sum)
            && locals[l.sum] + k * SignedMin(range, sign) <= sum <= locals[l.sum] + k * SignedMax(range, sign)
  {
    if k > 0 {
      AccumulatorRun(l, initial, count, last, locals, range, k - 1);
      CounterInRange(l, count, last, k - 1);
      AccumulatorIteration(l, initial, count, last, locals, range, MachineRun(l, locals, k - 1).value, k, At(l.start, l.step, k - 1));
    }
  }

  /** From iteration k - 1, with counter value c, to iteration k. */
  lemma {:induction false} AccumulatorIteration(l: Loop, initial: Initials, count: int64, last: int64, locals: seq<int64>,
                                                range: Interval, now: seq<int64>, k: nat, c: int64)
    requires Ready(l, initial, count, last, locals) && Faithful(l.expr, l.sum) && 0 < k <= count && c == At(l.start, l.step, k - 1)
    requires l.sum in initial && !Contains(SelfDelta(l.expr, l.sum).value.expr, l.sum) && FrameKept(l, locals, now)
    requires EvalInterval(SelfDelta(l.expr, l.sum).value.expr, PointIntervals(initial)[l.counter := CounterInterval(l.start, last)], l.methods) == Some(range)
    requires AccumulatorRange(Interval(initial[l.sum], initial[l.sum]), range, SelfDelta(l.expr, l.sum).value.sign, count).Some?
    requires var sign := SelfDelta(l.expr, l.sum).value.sign;
             locals[l.sum] + (k - 1) * SignedMin(range, sign) <= now[l.sum] <= locals[l.sum] + (k - 1) * SignedMax(range, sign)
    ensures var sign := SelfDelta(l.expr, l.sum).value.sign;
            var v := RubyEval(l.expr, now[l.counter := c], l.methods);
            && v.Some? && Fits(v.value) && Unchecked(l.expr, now[l.counter := c], l.methods) == v
            && locals[l.sum] + k * SignedMin(range, sign) <= v.value <= locals[l.sum] + k * SignedMax(range, sign)
  {
    var d := SelfDelta(l.expr, l.sum).value;
    var frame := now[l.counter := c];
    FrameWithin(l, initial, count, last, locals, now, k - 1, d.expr);
    hide LoopAccepted, EvalInterval, SelfDelta, Within, PointIntervals, RubyEval, Unchecked, SignedMin, SignedMax;
    AccumulatorStep(l, frame, PointIntervals(initial)[l.counter := CounterInterval(l.start, last)], range);
    ScaledRange(Interval(initial[l.sum], initial[l.sum]), range, d.sign, count);
    NextBound(initial[l.sum], count, k, SignedMin(range, d.sign), SignedMax(range, d.sign), now[l.sum], RubyEval(l.expr, frame, l.methods).value);
  }

  /** The machine's locals are Ruby's, with the accumulator wrapped. */
  ghost predicate WrappedFrame(sum: nat, ruby: seq<int>, machine: seq<int>) {
    && |ruby| == |machine| && sum < |ruby| && machine[sum] == Wrap(ruby[sum])
    && forall s :: 0 <= s < |ruby| && s != sum ==> ruby[s] == machine[s]
  }

  ghost predicate Wrapped(l: Loop, locals: seq<int64>, k: nat)
    requires l.sum < |locals| && l.counter < |locals|
  {
    && RubyRun(l, locals, k).Some? && MachineRun(l, locals, k).Some?
    && FrameKept(l, locals, MachineRun(l, locals, k).value)
    && WrappedFrame(l.sum, RubyRun(l, locals, k).value, MachineRun(l, locals, k).value)
  }

  /** Interval acceptance of any self-delta, faithful or not: at every iteration the machine's accumulator is Ruby's, wrapped
      to 64 bits. */
  lemma {:induction false} WrappedRun(l: Loop, initial: Initials, count: int64, last: int64, locals: seq<int64>, k: nat)
    requires Ready(l, initial, count, last, locals) && SelfDelta(l.expr, l.sum).Some? && k <= count
    ensures Wrapped(l, locals, k)
  {
    if k > 0 {
      WrappedRun(l, initial, count, last, locals, k - 1);
      CounterInRange(l, count, last, k - 1);
      hide Ready, SelfDelta;
      WrappedIteration(l, initial, count, last, locals, MachineRun(l, locals, k - 1).value, RubyRun(l, locals, k - 1).value, k,
                       At(l.start, l.step, k - 1));
    }
  }

  lemma {:induction false} WrappedIteration(l: Loop, initial: Initials, count: int64, last: int64, locals: seq<int64>,
                                            now: seq<int64>, ruby: seq<int>, k: nat, c: int64)
    requires Ready(l, initial, count, last, locals) && SelfDelta(l.expr, l.sum).Some? && 0 < k <= count && c == At(l.start, l.step, k - 1)
    requires FrameKept(l, locals, now) && WrappedFrame(l.sum, ruby, now)
    ensures var v := RubyEval(l.expr, ruby[l.counter := c], l.methods);
            && v.Some? && Unchecked(l.expr, now[l.counter := c], l.methods) == Some(Wrap(v.value))
            && WrappedFrame(l.sum, ruby[l.counter := c][l.sum := v.value], now[l.counter := c][l.sum := Wrap(v.value)])
            && FrameKept(l, locals, now[l.counter := c][l.sum := Wrap(v.value)])
  {
    var range := AcceptedDelta(l, initial, count, last);
    DeltaIsSafe(l, initial, count, last, locals, range, now, k - 1);
    var frame := now[l.counter := c];
    hide LoopAccepted, EvalInterval, SelfDelta, Safe, PointIntervals, RubyEval, Unchecked;
    UncheckedSelfDelta(l.expr, l.sum, frame, l.methods);
    WrappedUpdate(l, frame, ruby[l.sum]);
    var base: seq<int> := frame;
    assert ruby[l.counter := c] == base[l.sum := ruby[l.sum]];
  }

  lemma {:induction false} WrappedUpdate(l: Loop, frame: seq<int64>, sum: int)
    requires SelfDelta(l.expr, l.sum).Some? && !Contains(SelfDelta(l.expr, l.sum).value.expr, l.sum) && l.sum < |frame|
    requires frame[l.sum] == Wrap(sum) && RubyEval(l.expr, frame, l.methods).Some?
    ensures var ruby: seq<int> := frame;
            var v := RubyEval(l.expr, ruby[l.sum := sum], l.methods);
            v.Some? && Wrap(v.value) == Wrap(RubyEval(l.expr, frame, l.methods).value)
  {
    UpdateShifts(l.expr, l.sum, frame, sum, l.methods);
    WrapSame(sum);
    var q := SameQuotient(frame[l.sum], sum);
    var v := RubyEval(l.expr, frame, l.methods).value;
    SameBy(v, v + sum - frame[l.sum], q);
    SameWrap(v, v + sum - frame[l.sum]);
  }

  /** An update that does not read the accumulator has the same interval in every iteration. */
  lemma {:induction false} IndependentRun(l: Loop, initial: Initials, count: int64, last: int64, locals: seq<int64>, k: nat)
    requires Ready(l, initial, count, last, locals) && k <= count
    requires SelfDelta(l.expr, l.sum).None? && !Contains(l.expr, l.sum)
    ensures Agree(l, locals, k)
  {
    if k == 0 {
    } else {
      IndependentRun(l, initial, count, last, locals, k - 1);
      var now := MachineRun(l, locals, k - 1).value;
      FrameWithin(l, initial, count, last, locals, now, k - 1, l.expr);
      CounterInRange(l, count, last, k - 1);
      var ivs := PointIntervals(initial)[l.counter := CounterInterval(l.start, last)];
      var shape := ShapeOf(l.counter, l.step, count, [Assignment(l.sum, l.expr)], l.methods, false);
      assert Analyze(StartAnalysis(initial, l.counter, l.start, last), Assignment(l.sum, l.expr), shape).Some?;
      IntervalSound(l.expr, now[l.counter := At(l.start, l.step, k - 1)], ivs, l.methods);
      UncheckedExact(l.expr, now[l.counter := At(l.start, l.step, k - 1)], l.methods);
    }
  }

  /** Interval acceptance is sound: in an accepted loop every iteration's machine state equals Ruby's unbounded state,
      although nothing was run to accept it. */
  lemma {:induction false} IntervalAcceptanceSound(l: Loop, initial: Initials, count: int64, last: int64, locals: seq<int64>, k: nat)
    requires Ready(l, initial, count, last, locals) && SoundUpdate(l.expr, l.sum) && k <= count
    ensures RubyRun(l, locals, k).Some? && MachineRun(l, locals, k) == RubyRun(l, locals, k)
    ensures FrameKept(l, locals, RubyRun(l, locals, k).value)
  {
    if SelfDelta(l.expr, l.sum).Some? {
      var range := AcceptedDelta(l, initial, count, last);
      AccumulatorRun(l, initial, count, last, locals, range, k);
    } else {
      IndependentRun(l, initial, count, last, locals, k);
    }
  }

  /** For call-free updates without a self-delta, acceptance itself rules out reading the accumulator. */
  lemma {:induction false} CallFreeIsIndependent(l: Loop, initial: Initials, count: int64, last: int64)
    requires LoopAccepted(l, initial, count, last) && l.sum != l.counter
    requires CallFree(l.expr) && SelfDelta(l.expr, l.sum).None?
    ensures !Contains(l.expr, l.sum)
  {
    var a := Assignment(l.sum, l.expr);
    var shape := ShapeOf(l.counter, l.step, count, [a], l.methods, false);
    assert Analyze(StartAnalysis(initial, l.counter, l.start, last), a, shape).Some?;
    assert [a][0].local in shape.writes;
    if Contains(l.expr, l.sum) { UnprocessedIsRead(l.expr, shape.writes, {l.counter}, l.counter, l.sum); }
  }

  lemma {:induction false} UnprocessedIsRead(e: Expr, writes: set<nat>, processed: set<nat>, counter: nat, slot: nat)
    requires CallFree(e) && Contains(e, slot) && slot in writes && slot !in processed && slot != counter
    ensures ReferencesUnprocessed(e, writes, processed, counter)
  {
    match e
    case Local(_) =>
    case Neg(x) => UnprocessedIsRead(x, writes, processed, counter, slot);
    case Bin(_, l, r) => UnprocessedIsRead(if Contains(l, slot) then l else r, writes, processed, counter, slot);
    case _ =>
  }
}
