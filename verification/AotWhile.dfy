/** `while counter < limit` plans: bodies of local assignments. */
module AotWhile {
  import opened Options
  import opened Int64
  import opened AotExpr
  import opened AotChecked
  import opened AotInterval
  import opened AotSelfDelta
  import opened AotLoops
  import opened AotValidate
  import opened AotCounted
  import opened AotAffine
  import opened AotTimes

  /** The limit is a constant, or the initial value of the local the condition names. */
  datatype WhilePlan = WhilePlan(locals: nat, initial: Initials, counter: nat, limit: int64, limitLocal: Option<nat>,
                                 body: seq<Assignment>, result: nat, methods: Methods)

  /** What the plan builders guarantee. A local may have no initial value if the body assigns it. */
  predicate WellFormedWhile(p: WhilePlan) {
    && (forall s :: s in p.initial ==> s < p.locals)
    && p.counter in p.initial && p.result < p.locals && p.body != []
    && (forall i :: 0 <= i < |p.body| ==> p.body[i].local < p.locals)
    && (p.result in p.initial || p.result in Writes(p.body))
    && (p.limitLocal.Some? ==> p.limitLocal.value in p.initial && p.initial[p.limitLocal.value] == p.limit)
  }

  function Start(p: WhilePlan): seq<int64> {
    Frame(p.initial, p.locals)
  }

  // ---------------------------------------------------------------- running a body

  predicate InFrame(body: seq<Assignment>, n: nat) {
    forall i :: 0 <= i < |body| ==> body[i].local < n
  }

  function RubyBody(body: seq<Assignment>, env: seq<int>, ms: Methods): (r: Option<seq<int>>)
    requires InFrame(body, |env|)
    ensures r.Some? ==> |r.value| == |env|
    decreases |body|
  {
    if body == [] then Some(env) else
    var v := RubyEval(body[0].expr, env, ms);
    if v.None? then None else RubyBody(body[1..], env[body[0].local := v.value], ms)
  }

  function MachineBody(body: seq<Assignment>, locals: seq<int64>, ms: Methods): (r: Option<seq<int64>>)
    requires InFrame(body, |locals|)
    ensures r.Some? ==> |r.value| == |locals|
    decreases |body|
  {
    if body == [] then Some(locals) else
    var v := Unchecked(body[0].expr, locals, ms);
    if v.None? then None else MachineBody(body[1..], locals[body[0].local := v.value], ms)
  }

  function CheckedBody(body: seq<Assignment>, locals: seq<int64>, ms: Methods): (r: Option<seq<int64>>)
    requires InFrame(body, |locals|)
    ensures r.Some? ==> |r.value| == |locals|
    decreases |body|
  {
    if body == [] then Some(locals) else
    var v := Checked(body[0].expr, locals, ms);
    if v.None? then None else CheckedBody(body[1..], locals[body[0].local := v.value], ms)
  }

  /** A body that survives the checks runs identically on the machine and in Ruby. */
  lemma {:induction false} CheckedBodyAgrees(body: seq<Assignment>, locals: seq<int64>, ms: Methods)
    requires InFrame(body, |locals|) && CheckedBody(body, locals, ms).Some?
    ensures MachineBody(body, locals, ms) == CheckedBody(body, locals, ms)
    ensures RubyBody(body, locals, ms) == CheckedBody(body, locals, ms)
    decreases |body|
  {
    if body == [] {
    } else {
      CheckedExact(body[0].expr, locals, ms);
      UncheckedExact(body[0].expr, locals, ms);
      CheckedBodyAgrees(body[1..], locals[body[0].local := Checked(body[0].expr, locals, ms).value], ms);
    }
  }

  function RubyIterate(p: WhilePlan, k: nat): (r: Option<seq<int>>)
    requires WellFormedWhile(p)
    ensures r.Some? ==> |r.value| == p.locals
  {
    if k == 0 then Some(Start(p)) else
    var before := RubyIterate(p, k - 1);
    if before.None? then None else RubyBody(p.body, before.value, p.methods)
  }

  function MachineIterate(p: WhilePlan, k: nat): (r: Option<seq<int64>>)
    requires WellFormedWhile(p)
    ensures r.Some? ==> |r.value| == p.locals
  {
    if k == 0 then Some(Start(p)) else
    var before := MachineIterate(p, k - 1);
    if before.None? then None else MachineBody(p.body, before.value, p.methods)
  }

  function CheckedIterate(p: WhilePlan, k: nat): (r: Option<seq<int64>>)
    requires WellFormedWhile(p)
    ensures r.Some? ==> |r.value| == p.locals
  {
    if k == 0 then Some(Start(p)) else
    var before := CheckedIterate(p, k - 1);
    if before.None? then None else CheckedBody(p.body, before.value, p.methods)
  }

  /** Ruby's loop stops after exactly n iterations. */
  ghost predicate RubyStops(p: WhilePlan, n: nat)
    requires WellFormedWhile(p)
  {
    && (forall k: nat :: k <= n ==> RubyIterate(p, k).Some? && (RubyIterate(p, k).value[p.counter] < p.limit <==> k < n))
  }

  /** The machine loop stops after exactly n iterations, advancing its counter in all but possibly the last. */
  ghost predicate MachineStops(p: WhilePlan, n: nat)
    requires WellFormedWhile(p)
  {
    && (forall k: nat :: k <= n ==> MachineIterate(p, k).Some? && (MachineIterate(p, k).value[p.counter] < p.limit <==> k < n))
    && (forall k: nat :: 0 < k < n ==> MachineIterate(p, k).value[p.counter] > MachineIterate(p, k - 1).value[p.counter])
  }

  /** The validator's simulation succeeds with n iterations. */
  ghost predicate Simulated(p: WhilePlan, n: nat)
    requires WellFormedWhile(p)
  {
    && n <= MAX_VALIDATED
    && (forall k: nat :: k <= n ==> CheckedIterate(p, k).Some? && (CheckedIterate(p, k).value[p.counter] < p.limit <==> k < n))
    && (forall k: nat :: 0 < k < n ==> CheckedIterate(p, k).value[p.counter] > CheckedIterate(p, k - 1).value[p.counter])
  }

  lemma {:induction false} CheckedIterateAgrees(p: WhilePlan, k: nat)
    requires WellFormedWhile(p) && CheckedIterate(p, k).Some?
    ensures MachineIterate(p, k) == CheckedIterate(p, k) && RubyIterate(p, k) == CheckedIterate(p, k)
  {
    if k == 0 {
    } else {
      CheckedIterateAgrees(p, k - 1);
      CheckedBodyAgrees(p.body, CheckedIterate(p, k - 1).value, p.methods);
    }
  }

  /** A simulated plan runs on the machine exactly as in Ruby, for any body. */
  lemma {:induction false} SimulatedPlanAgrees(p: WhilePlan, n: nat)
    requires WellFormedWhile(p) && Simulated(p, n)
    ensures RubyStops(p, n) && MachineStops(p, n) && MachineIterate(p, n) == RubyIterate(p, n)
  {
    forall k: nat | k <= n
      ensures MachineIterate(p, k) == CheckedIterate(p, k) && RubyIterate(p, k) == CheckedIterate(p, k)
    {
      CheckedIterateAgrees(p, k);
    }
  }

  // ---------------------------------------------------------------- validation

  /** The position of the first assignment to the counter. */
  function CounterIndex(body: seq<Assignment>, counter: nat): (i: nat)
    ensures i <= |body| && (i < |body| ==> body[i].local == counter)
    ensures forall j :: 0 <= j < i ==> body[j].local != counter
  {
    if body == [] then 0 else if body[0].local == counter then 0
    else
      var i := CounterIndex(body[1..], counter);
      assert forall j :: 0 < j < i + 1 ==> body[j] == body[1..][j - 1];
      i + 1
  }

  function StepOf(p: WhilePlan): Option<int64> {
    var i := CounterIndex(p.body, p.counter);
    if i == |p.body| then None else CounterStep(p.body[i].expr, p.counter)
  }

  function WhileVerdict(p: WhilePlan): Verdict
    requires WellFormedWhile(p)
  {
    if StepOf(p).None? then Unproven
    else ValidateAffine(p.initial, p.counter, p.initial[p.counter], p.limit, StepOf(p).value, false, p.body, p.methods, true)
  }

  ghost predicate WhileAccepted(p: WhilePlan)
    requires WellFormedWhile(p)
  {
    match WhileVerdict(p)
    case Accepted => true
    case Rejected => false
    case Unproven => exists n: nat :: Simulated(p, n)
  }

  method CheckedBodyInPlace(p: WhilePlan, values: array<int64>) returns (ok: bool)
    requires WellFormedWhile(p) && values.Length == p.locals
    modifies values
    ensures CheckedBody(p.body, old(values[..]), p.methods) == if ok then Some(values[..]) else None
  {
    ghost var before := values[..];
    for i := 0 to |p.body|
      invariant InFrame(p.body[i..], p.locals)
      invariant CheckedBody(p.body, before, p.methods) == CheckedBody(p.body[i..], values[..], p.methods)
    {
      var value := Checked(p.body[i].expr, values[..], p.methods);
      if value.None? { return false; }
      values[p.body[i].local] := value.value;
      assert p.body[i..][1..] == p.body[i + 1..];
    }
    ok := true;
  }

  lemma {:induction false} CheckedIterateMonotone(p: WhilePlan, j: nat, k: nat)
    requires WellFormedWhile(p) && j <= k && CheckedIterate(p, j).None?
    ensures CheckedIterate(p, k).None?
    decreases k
  {
    if j < k { CheckedIterateMonotone(p, j, k - 1); }
  }

  /** Iteration k of the simulation advanced the counter. */
  ghost predicate CheckedAdvance(p: WhilePlan, k: nat)
    requires WellFormedWhile(p) && k > 0
  {
    CheckedIterate(p, k).Some? && CheckedIterate(p, k - 1).Some?
    && CheckedIterate(p, k).value[p.counter] > CheckedIterate(p, k - 1).value[p.counter]
  }

  /** The simulation has come through n iterations, and goes on at least until iteration n. */
  ghost predicate Simulating(p: WhilePlan, n: nat)
    requires WellFormedWhile(p)
  {
    && (forall k: nat :: k <= n ==> CheckedIterate(p, k).Some?)
    && (forall k: nat :: k < n ==> CheckedIterate(p, k).value[p.counter] < p.limit)
    && (forall k: nat :: 0 < k < n ==> CheckedAdvance(p, k))
  }

  lemma {:induction false} SimulatingStep(p: WhilePlan, n: nat)
    requires WellFormedWhile(p) && Simulating(p, n) && CheckedIterate(p, n).value[p.counter] < p.limit
    requires (n > 0 ==> CheckedAdvance(p, n)) && CheckedIterate(p, n + 1).Some?
    ensures Simulating(p, n + 1)
  {
  }

  lemma {:induction false} SimulatingStops(p: WhilePlan, n: nat)
    requires WellFormedWhile(p) && Simulating(p, n) && CheckedIterate(p, n).value[p.counter] >= p.limit && n <= MAX_VALIDATED
    ensures Simulated(p, n)
  {
    forall k: nat | 0 < k < n ensures CheckedIterate(p, k).value[p.counter] > CheckedIterate(p, k - 1).value[p.counter] {
      assert CheckedAdvance(p, k);
    }
  }

  /** validatePlan's simulation; it accepts exactly the plans whose checked loop stops in time with an advancing counter. */
  method SimulateWhile(p: WhilePlan) returns (accepted: bool)
    requires WellFormedWhile(p)
    ensures accepted <==> exists n: nat :: Simulated(p, n)
  {
    var values := LoadFrame(p.initial, p.locals);
    var iterations := 0;
    assert Simulating(p, 0);
    hide Simulating, Simulated;
    while values[p.counter] < p.limit
      invariant 0 <= iterations <= MAX_VALIDATED && values.Length == p.locals
      invariant CheckedIterate(p, iterations) == Some(values[..]) && Simulating(p, iterations)
      invariant values[p.counter] < p.limit && iterations > 0 ==> CheckedAdvance(p, iterations)
      decreases MAX_VALIDATED - iterations
    {
      if iterations >= MAX_VALIDATED {
        TooLong(p, iterations);
        return false;
      }
      var beforeCounter := values[p.counter];
      var ok := CheckedBodyInPlace(p, values);
      assert CheckedIterate(p, iterations + 1) == if ok then Some(values[..]) else None;
      if !ok {
        NotSimulated(p, iterations);
        return false;
      }
      if values[p.counter] <= beforeCounter && values[p.counter] < p.limit {
        Stuck(p, iterations);
        return false;
      }
      SimulatingStep(p, iterations);
      iterations := iterations + 1;
    }
    SimulatingStops(p, iterations);
    accepted := true;
  }

  lemma {:induction false} StillRunning(p: WhilePlan, i: nat)
    requires WellFormedWhile(p)
    requires forall k: nat :: k <= i ==> CheckedIterate(p, k).Some? && CheckedIterate(p, k).value[p.counter] < p.limit
    ensures forall n: nat :: n <= i ==> !Simulated(p, n)
  {
    forall n: nat | n <= i ensures !Simulated(p, n) {
      assert CheckedIterate(p, n).value[p.counter] < p.limit;
    }
  }

  lemma {:induction false} TooLong(p: WhilePlan, i: nat)
    requires WellFormedWhile(p) && Simulating(p, i) && CheckedIterate(p, i).value[p.counter] < p.limit && i >= MAX_VALIDATED
    ensures forall n: nat :: !Simulated(p, n)
  {
    StillRunning(p, i);
  }

  lemma {:induction false} NotSimulated(p: WhilePlan, i: nat)
    requires WellFormedWhile(p) && Simulating(p, i) && CheckedIterate(p, i).value[p.counter] < p.limit && CheckedIterate(p, i + 1).None?
    ensures forall n: nat :: !Simulated(p, n)
  {
    StillRunning(p, i);
    forall n: nat | n > i ensures !Simulated(p, n) {
      assert CheckedIterate(p, i + 1).None?;
    }
  }

  lemma {:induction false} Stuck(p: WhilePlan, i: nat)
    requires WellFormedWhile(p) && Simulating(p, i) && CheckedIterate(p, i).value[p.counter] < p.limit && CheckedIterate(p, i + 1).Some?
    requires CheckedIterate(p, i + 1).value[p.counter] < p.limit
    requires CheckedIterate(p, i + 1).value[p.counter] <= CheckedIterate(p, i).value[p.counter]
    ensures forall n: nat :: !Simulated(p, n)
  {
    StillRunning(p, i + 1);
    forall n: nat | n > i + 1 ensures !Simulated(p, n) {
      assert CheckedIterate(p, i + 1).value[p.counter] <= CheckedIterate(p, i + 1 - 1).value[p.counter];
    }
  }

  method ValidateWhilePlan(p: WhilePlan) returns (accepted: bool)
    requires WellFormedWhile(p)
    ensures accepted <==> WhileAccepted(p)
  {
    var step := StepOf(p);
    if step.Some? {
      var affine := ValidateAffineLoop(p.initial, p.counter, p.initial[p.counter], p.limit, step.value, false, p.body, p.methods, true);
      if affine != Unproven { return affine == Accepted; }
    }
    accepted := SimulateWhile(p);
  }

  // ---------------------------------------------------------------- execution

  /** A body the affine kernel recognizes: one counter step and one self-delta update of the printed local. */
  predicate KernelShape(p: WhilePlan) {
    && |p.body| == 2 && p.counter != p.result && StepOf(p).Some?
    && ((p.body[0].local == p.counter && p.body[1].local == p.result) ||
        (p.body[0].local == p.result && p.body[1].local == p.counter))
    && SelfDelta(p.body[ResultIndex(p)].expr, p.result).Some?
  }

  function ResultIndex(p: WhilePlan): (i: nat)
    requires |p.body| == 2
    ensures i < 2
  {
    if p.body[0].local == p.counter then 1 else 0
  }

  function Update(p: WhilePlan): Expr
    requires |p.body| == 2
  {
    p.body[ResultIndex(p)].expr
  }

  /** executeAffineWhilePlan; None when it leaves the plan to the loop. */
  function AffineWhile(p: WhilePlan): Option<int64>
    requires WellFormedWhile(p)
  {
    if !KernelShape(p) then None else
    var d := SelfDelta(Update(p), p.result).value;
    var start, step := p.initial[p.counter], StepOf(p).value;
    var count := IterationCount(start, p.limit, step, false);
    if count.None? then None
    else if count.value == 0 then Some(Start(p)[p.result])
    else
      var first := if ResultIndex(p) > 1 - ResultIndex(p) then Wrap(At(start, step, 1)) else start;
      var result := AccumulatorValue(Start(p)[p.result], d.expr, d.sign, p.counter, first, step, count.value, p.methods);
      if result.None? || !Fits(At(start, step, count.value)) then None else result
  }

  /** The kernel's scan of the body: one counter assignment and one self-delta of the printed local, in either order. */
  method MatchKernel(p: WhilePlan) returns (resultIndex: int, counterIndex: int, delta: Expr, sign: int)
    requires StepOf(p).Some? && |p.body| == 2
    ensures resultIndex >= 0 <==> KernelShape(p)
    ensures resultIndex >= 0 ==> resultIndex == ResultIndex(p) && counterIndex == 1 - resultIndex
                                 && SelfDelta(Update(p), p.result) == Some(Delta(delta, sign))
  {
    resultIndex, counterIndex, delta, sign := -1, -1, Const(0), 0;
    var i := 0;
    while i < 2
      invariant 0 <= i <= 2
      invariant counterIndex == -1 || (0 <= counterIndex < i && p.body[counterIndex].local == p.counter)
      invariant resultIndex == -1 || (0 <= resultIndex < i && p.body[resultIndex].local == p.result && p.result != p.counter
                                      && SelfDelta(p.body[resultIndex].expr, p.result) == Some(Delta(delta, sign)))
      invariant i >= 1 ==> (counterIndex == 0) != (resultIndex == 0)
      invariant i == 2 ==> counterIndex != -1 && resultIndex != -1
    {
      if p.body[i].local == p.counter {
        if counterIndex >= 0 { resultIndex := -1; return; }
        counterIndex := i;
      } else {
        if p.body[i].local != p.result || resultIndex >= 0 { resultIndex := -1; return; }
        var d := SelfDelta(p.body[i].expr, p.result);
        if d.None? { resultIndex := -1; return; }
        resultIndex, delta, sign := i, d.value.expr, d.value.sign;
      }
      i := i + 1;
    }
  }

  /** The same kernel as the source runs it, updating the frame in place. */
  method ExecuteAffineWhilePlan(p: WhilePlan, locals: array<int64>) returns (printed: Option<int64>)
    requires WellFormedWhile(p) && locals[..] == Start(p)
    modifies locals
    ensures printed == AffineWhile(p)
    ensures printed.None? ==> locals[..] == old(locals[..])
    ensures printed.Some? ==> locals.Length == p.locals && locals[p.result] == printed.value
  {
    if |p.body| != 2 { return None; }
    var counterStart: int64 := locals[p.counter];
    var step := StepOf(p);
    if step.None? { return None; }
    var resultIndex, counterIndex, delta, sign := MatchKernel(p);
    if resultIndex < 0 { return None; }
    var count := IterationCount(counterStart, p.limit, step.value, false);
    if count.None? { return None; }
    if count.value == 0 { return Some(locals[p.result]); }
    var first := if resultIndex > counterIndex then Wrap(At(counterStart, step.value, 1)) else counterStart;
    var result := AccumulatorValue(locals[p.result], delta, sign, p.counter, first, step.value, count.value, p.methods);
    if result.None? { return None; }
    var final := At(counterStart, step.value, count.value);
    if !Fits(final) { return None; }
    locals[p.counter] := final;
    locals[p.result] := result.value;
    printed := result;
  }

  method MachineBodyInPlace(p: WhilePlan, locals: array<int64>) returns (ok: bool)
    requires WellFormedWhile(p) && locals.Length == p.locals
    modifies locals
    ensures MachineBody(p.body, old(locals[..]), p.methods) == if ok then Some(locals[..]) else None
  {
    ghost var before := locals[..];
    for i := 0 to |p.body|
      invariant InFrame(p.body[i..], p.locals)
      invariant MachineBody(p.body, before, p.methods) == MachineBody(p.body[i..], locals[..], p.methods)
    {
      var value := Unchecked(p.body[i].expr, locals[..], p.methods);
      if value.None? { return false; }
      locals[p.body[i].local] := value.value;
      assert p.body[i..][1..] == p.body[i + 1..];
    }
    ok := true;
  }

  /** Iteration k advanced the counter. */
  ghost predicate Advanced(p: WhilePlan, k: nat)
    requires WellFormedWhile(p) && k > 0
  {
    MachineIterate(p, k).Some? && MachineIterate(p, k - 1).Some?
    && MachineIterate(p, k).value[p.counter] > MachineIterate(p, k - 1).value[p.counter]
  }

  /** The machine loop has come through n iterations, and goes on at least until iteration n. */
  ghost predicate Running(p: WhilePlan, n: nat)
    requires WellFormedWhile(p)
  {
    && (forall k: nat :: k <= n ==> MachineIterate(p, k).Some?)
    && (forall k: nat :: k < n ==> MachineIterate(p, k).value[p.counter] < p.limit)
    && (forall k: nat :: 0 < k < n ==> Advanced(p, k))
  }

  lemma {:induction false} RunningStep(p: WhilePlan, n: nat)
    requires WellFormedWhile(p) && Running(p, n) && MachineIterate(p, n).value[p.counter] < p.limit
    requires (n > 0 ==> Advanced(p, n)) && MachineIterate(p, n + 1).Some?
    ensures Running(p, n + 1)
  {
  }

  lemma {:induction false} RunningStops(p: WhilePlan, n: nat)
    requires WellFormedWhile(p) && Running(p, n) && MachineIterate(p, n).value[p.counter] >= p.limit
    ensures MachineStops(p, n)
  {
    forall k: nat | 0 < k < n ensures MachineIterate(p, k).value[p.counter] > MachineIterate(p, k - 1).value[p.counter] {
      assert Advanced(p, k);
    }
  }

  /** The default loop of executePlan; None when it panics or its counter stops advancing. */
  method ExecuteWhileLoop(p: WhilePlan, locals: array<int64>) returns (printed: Option<int64>, ghost n: nat)
    requires WellFormedWhile(p) && locals[..] == Start(p)
    modifies locals
    ensures printed.Some? ==> MachineStops(p, n) && printed == Some(MachineIterate(p, n).value[p.result])
    ensures printed.None? ==> forall m: nat :: !MachineStops(p, m)
  {
    n := 0;
    assert Running(p, 0);
    hide Running, MachineStops;
    while locals[p.counter] < p.limit
      invariant locals.Length == p.locals && MachineIterate(p, n) == Some(locals[..]) && Running(p, n)
      invariant locals[p.counter] < p.limit && n > 0 ==> Advanced(p, n)
      decreases p.limit - locals[p.counter]
    {
      var beforeCounter := locals[p.counter];
      var ok := MachineBodyInPlace(p, locals);
      if !ok || (locals[p.counter] <= beforeCounter && locals[p.counter] < p.limit) {
        assert MachineIterate(p, n + 1) == if ok then Some(locals[..]) else None;
        NeverStops(p, n);
        return None, n;
      }
      RunningStep(p, n);
      n := n + 1;
    }
    RunningStops(p, n);
    printed := Some(locals[p.result]);
  }

  lemma {:induction false} NeverStops(p: WhilePlan, i: nat)
    requires WellFormedWhile(p)
    requires Running(p, i) && MachineIterate(p, i).value[p.counter] < p.limit
    requires var next := MachineIterate(p, i + 1);
             next.None? || (next.value[p.counter] < p.limit && next.value[p.counter] <= MachineIterate(p, i).value[p.counter])
    ensures forall m: nat :: !MachineStops(p, m)
  {
    forall m: nat ensures !MachineStops(p, m) {
      if m <= i {
        assert MachineIterate(p, m).value[p.counter] < p.limit;
      } else if MachineIterate(p, i + 1).Some? {
        assert MachineIterate(p, i + 1).value[p.counter] <= MachineIterate(p, i + 1 - 1).value[p.counter];
        assert m == i + 1 ==> !(MachineIterate(p, m).value[p.counter] >= p.limit);
      }
    }
  }

  /** executePlan on a while plan: the closed form if it applies, else the loop. */
  method ExecuteWhilePlan(p: WhilePlan) returns (printed: Option<int64>)
    requires WellFormedWhile(p)
    ensures AffineWhile(p).Some? ==> printed == AffineWhile(p)
    ensures AffineWhile(p).None? && printed.Some? ==>
              exists n: nat :: MachineStops(p, n) && printed == Some(MachineIterate(p, n).value[p.result])
    ensures AffineWhile(p).None? && printed.None? ==> forall n: nat :: !MachineStops(p, n)
  {
    var locals := LoadFrame(p.initial, p.locals);
    printed := ExecuteAffineWhilePlan(p, locals);
    if printed.Some? { return; }
    ghost var n;
    printed, n := ExecuteWhileLoop(p, locals);
  }
}
