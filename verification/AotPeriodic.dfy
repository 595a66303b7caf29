/** Periodic deltas: i % m and i & (2^k - 1). */
module AotPeriodic {
  import opened Options
  import opened Int64
  import opened Bits
  import opened AotExpr
  import opened AotChecked
  import opened AotSelfDelta
  import opened AotLoops
  import opened AotCounted
  import opened AotValidate

  /** periodicCounterExpression. */
  function PeriodOf(e: Expr, counter: nat): Option<int64> {
    if !e.Bin? || (e.op != Mod && e.op != BitAnd) || !IsLocal(e.left, counter) || !e.right.Const? then None else
    var modulus := e.right.value;
    if modulus <= 0 || modulus > 1_000_000 then None
    else if e.op == Mod then Some(modulus)
    else if Word64(And, modulus + 1, modulus) != 0 then None
    else Some(modulus + 1)
  }

  lemma {:induction false} PeriodicOp(op: Op, modulus: int64, i: int64, period: int64)
    requires i >= 0 && PeriodOf(Bin(op, Local(0), Const(modulus)), 0) == Some(period)
    ensures 1 <= period <= 1_000_001 && 0 <= i % period < period && Fits(i % period)
    ensures LegalOperands(op, modulus) && RubyOp(op, i, modulus) == Some(i % period)
  {
    hide FloorMod, Word64, Bitwise;
    if op == Mod {
      FloorModIsMod(i, period);
    } else {
      Word64IsBitwise(And, period, period - 1);
      MaskIsMod(period, i);
    }
  }

  /** At a non-negative counter the delta is the counter modulo the period, in all three evaluators. */
  lemma {:induction false} DeltaValue(e: Expr, counter: nat, period: int64, locals: seq<int64>, ms: Methods)
    requires PeriodOf(e, counter) == Some(period) && counter < |locals| && locals[counter] >= 0
    ensures 1 <= period <= 1_000_001 && 0 <= locals[counter] % period < period
    ensures RubyEval(e, locals, ms) == Some(locals[counter] % period) && Safe(e, locals, ms)
    ensures Checked(e, locals, ms) == Unchecked(e, locals, ms) == Some(locals[counter] % period)
  {
    PeriodicOp(e.op, e.right.value, locals[counter], period);
    assert RubyEval(e.left, locals, ms) == Some(locals[counter]) && RubyEval(e.right, locals, ms) == Some(e.right.value);
    CheckedExact(e, locals, ms);
    UncheckedExact(e, locals, ms);
  }

  lemma {:induction false} FloorModIsMod(i: int, period: int)
    requires period > 0
    ensures FloorMod(i, period) == i % period
  {
    assert i == (i / period) * period + i % period;
  }

  /** The delta total of iterations 0 .. n-1. */
  function Prefix(period: int, n: nat): (t: int)
    requires period > 0
    ensures t >= 0
  {
    if n == 0 then 0 else Prefix(period, n - 1) + (n - 1) % period
  }

  lemma {:induction false} PrefixMonotone(period: int, m: nat, n: nat)
    requires period > 0 && m <= n
    ensures Prefix(period, m) <= Prefix(period, n)
    decreases n
  {
    if m < n { PrefixMonotone(period, m, n - 1); }
  }

  lemma {:induction false} ModShift(q: nat, period: int, r: nat)
    requires period > 0 && r < period
    ensures (q * period + r) % period == r
  {
    Unique(q * period + r, period, q, r, (q * period + r) / period, (q * period + r) % period);
  }

  /** Whole periods contribute equally, and the remainder repeats the first steps of a period. */
  lemma {:induction false} PrefixCycles(period: int, q: nat, r: nat)
    requires period > 0 && r <= period
    ensures q * period + r >= 0
    ensures Prefix(period, q * period + r) == q * Prefix(period, period) + Prefix(period, r)
    decreases q, r
  {
    AtLeast(q, period);
    if r > 0 {
      PrefixCycles(period, q, r - 1);
      ModShift(q, period, r - 1);
      ModShift(0, period, r - 1);
    } else if q > 0 {
      PrefixCycles(period, q - 1, period);
      assert (q - 1) * period + period == q * period;
      assert (q - 1) * Prefix(period, period) + Prefix(period, period) == q * Prefix(period, period);
    }
  }

  /** A times loop whose update adds or subtracts a periodic delta. */
  predicate PeriodicLoop(l: Loop) {
    && l.start == 0 && l.step == 1
    && SelfDelta(l.expr, l.sum).Some? && PeriodOf(SelfDelta(l.expr, l.sum).value.expr, l.counter).Some?
  }

  function LoopPeriod(l: Loop): (p: int64)
    requires PeriodicLoop(l)
    ensures 1 <= p <= 1_000_001
  {
    PeriodOf(SelfDelta(l.expr, l.sum).value.expr, l.counter).value
  }

  /** A periodic delta is an operator node, so nothing can be wrapped around the innermost subtraction. */
  lemma {:induction false} PeriodicIsFaithful(l: Loop)
    requires PeriodicLoop(l)
    ensures Faithful(l.expr, l.sum)
  {
  }

  lemma {:induction false} SignedSum(sign: int, a: int, b: int)
    requires sign == 1 || sign == -1
    ensures sign * (a + b) == sign * a + sign * b
  {
  }

  /** Ruby's accumulator after k iterations. */
  lemma {:induction false} PeriodicRun(l: Loop, locals: seq<int>, k: nat)
    requires PeriodicLoop(l) && l.sum < |locals| && l.counter < |locals| && l.sum != l.counter && k <= MAX
    ensures RubyRun(l, locals, k).Some?
    ensures RubyRun(l, locals, k).value[l.sum] ==
            locals[l.sum] + SelfDelta(l.expr, l.sum).value.sign * Prefix(LoopPeriod(l), k)
  {
    if k == 0 {
    } else {
      PeriodicRun(l, locals, k - 1);
      PeriodicIsFaithful(l);
      var frame := RubyRun(l, locals, k - 1).value[l.counter := At(l.start, l.step, k - 1)];
      PeriodicDelta(l, frame);
      FaithfulValue(l.expr, l.sum, frame, l.methods);
      SignedSum(SelfDelta(l.expr, l.sum).value.sign, Prefix(LoopPeriod(l), k - 1), (k - 1) % LoopPeriod(l));
    }
  }

  /** As long as every prefix fits, the machine loop computes the same. */
  lemma {:induction false} PeriodicMachineRun(l: Loop, locals: seq<int64>, k: nat)
    requires PeriodicLoop(l) && l.sum < |locals| && l.counter < |locals| && l.sum != l.counter && k <= MAX
    requires forall j: nat :: j <= k ==> Fits(locals[l.sum] + SelfDelta(l.expr, l.sum).value.sign * Prefix(LoopPeriod(l), j))
    ensures MachineRun(l, locals, k) == RubyRun(l, locals, k)
  {
    if k == 0 {
    } else {
      PeriodicMachineRun(l, locals, k - 1);
      PeriodicRun(l, locals, k);
      PeriodicRun(l, locals, k - 1);
      var machine := MachineRun(l, locals, k - 1).value[l.counter := Wrap(At(l.start, l.step, k - 1))];
      PeriodicDelta(l, machine);
      UncheckedSelfDelta(l.expr, l.sum, machine, l.methods);
    }
  }

  lemma {:induction false} PeriodicDelta(l: Loop, frame: seq<int>)
    requires PeriodicLoop(l) && l.counter < |frame| && 0 <= frame[l.counter] <= MAX
    ensures var d := SelfDelta(l.expr, l.sum).value.expr;
            && RubyEval(d, frame, l.methods) == Some(frame[l.counter] % LoopPeriod(l))
            && Safe(d, frame, l.methods)
  {
    var d := SelfDelta(l.expr, l.sum).value.expr;
    var zero: seq<int64> := seq(l.counter, _ => 0);
    DeltaValue(d, l.counter, LoopPeriod(l), zero + [frame[l.counter]], l.methods);
  }
}
