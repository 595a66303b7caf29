/** Accepted while plans print what Ruby prints. */
module AotWhileRuby {
  import opened Options
  import opened Int64
  import opened AotExpr
  import opened AotSelfDelta
  import opened AotLoops
  import opened AotValidate
  import opened AotCounted
  import opened AotAffine
  import opened AotWhile
  import opened AotWhileSound
  import opened AotWhileInterval
  import opened AotWhileValues

  /** What the plan prints: the closed form if it applies, else the local the machine's loop leaves. */
  ghost predicate PlanPrints(p: WhilePlan, v: int)
    requires WellFormedWhile(p)
  {
    if AffineWhile(p).Some? then v == AffineWhile(p).value
    else exists n: nat :: MachineStops(p, n) && MachineIterate(p, n).value[p.result] == v
  }

  ghost predicate PrintsSame(p: WhilePlan)
    requires WellFormedWhile(p)
  {
    exists v: int :: PlanPrints(p, v) && RubyPrints(p, v)
  }

  /** The premises: the limit does not move, and a running loop accepted from intervals is either answered by the closed form or
      made of accumulators that read no other written local, followed by the counter step. */
  predicate Covered(p: WhilePlan)
    requires WellFormedWhile(p)
  {
    && LimitFixed(p)
    && (WhileVerdict(p) == Accepted && p.initial[p.counter] < p.limit && AffineWhile(p).None? ==> IntervalShape(p))
  }

  /** When a plan whose loop runs n times prints what Ruby prints: only numbers are met; and the closed form lost no sign, or the
      loop accepted from intervals keeps its counter in int64. */
  ghost predicate WhilePrintsRight(p: WhilePlan, n: nat)
    requires WellFormedWhile(p) && Covered(p)
  {
    && NumbersOnly(p, n)
    && if AffineWhile(p).Some? then n == 0 || SelfDelta(Update(p), p.result).value.sign == 1 || KernelLost(p, n) == 0
       else WhileVerdict(p) == Accepted && n > 0 ==> Fits(At(p.initial[p.counter], StepOf(p).value, n))
  }

  /** The promise of the tier for while plans: the loop on integers stops after some n iterations, and plan and Ruby print the
      same number if and only if WhilePrintsRight. */
  lemma {:induction false} AcceptedWhilePlanIsRuby(p: WhilePlan) returns (n: nat)
    requires WellFormedWhile(p) && WhileAccepted(p) && Covered(p)
    ensures RubyStops(p, n)
    ensures PrintsSame(p) <==> WhilePrintsRight(p, n)
  {
    if AffineWhile(p).Some? {
      n := IterationCount(p.initial[p.counter], p.limit, StepOf(p).value, false).value;
      AffineWhileExactIff(p);
      NumbersOnlyIff(p, n);
      KernelPrints(p, n);
    } else if WhileVerdict(p) == Accepted {
      n := IntervalCount(p);
      NumbersOnlyIff(p, n);
      if n > 0 && !Fits(At(p.initial[p.counter], StepOf(p).value, n)) {
        assert forall m: nat :: !MachineStops(p, m);
      } else {
        LoopPrints(p, n);
      }
    } else {
      n :| Simulated(p, n);
      SimulatedPlanAgrees(p, n);
      NumbersOnlyIff(p, n);
      LoopPrints(p, n);
    }
  }

  lemma {:induction false} KernelPrints(p: WhilePlan, n: nat)
    requires WellFormedWhile(p) && AffineWhile(p).Some? && RubyStops(p, n)
    requires NumbersOnly(p, n) ==> RubyPrints(p, RubyIterate(p, n).value[p.result])
    requires forall v: int :: RubyPrints(p, v) ==> NumbersOnly(p, n) && v == RubyIterate(p, n).value[p.result]
    ensures PrintsSame(p) <==> NumbersOnly(p, n) && RubyIterate(p, n).value[p.result] == AffineWhile(p).value
  {
    assert RubyIterate(p, n).Some?;
    hide NumbersOnly, RubyPrints, AffineWhile, RubyIterate, RubyStops;
    if NumbersOnly(p, n) && RubyIterate(p, n).value[p.result] == AffineWhile(p).value {
      var v: int := AffineWhile(p).value;
      assert PlanPrints(p, v) && RubyPrints(p, v);
    }
  }

  lemma {:induction false} LoopPrints(p: WhilePlan, n: nat)
    requires WellFormedWhile(p) && AffineWhile(p).None? && RubyStops(p, n) && MachineStops(p, n) && MachineIterate(p, n) == RubyIterate(p, n)
    requires NumbersOnly(p, n) ==> RubyPrints(p, RubyIterate(p, n).value[p.result])
    requires forall v: int :: RubyPrints(p, v) ==> NumbersOnly(p, n) && v == RubyIterate(p, n).value[p.result]
    ensures PrintsSame(p) <==> NumbersOnly(p, n)
  {
    if NumbersOnly(p, n) {
      var v: int := RubyIterate(p, n).value[p.result];
      assert PlanPrints(p, v) && RubyPrints(p, v);
    }
  }

  /** The trip count of a plan accepted from intervals. */
  lemma {:induction false} IntervalCount(p: WhilePlan) returns (n: nat)
    requires WellFormedWhile(p) && Covered(p) && WhileVerdict(p) == Accepted && AffineWhile(p).None?
    ensures RubyStops(p, n)
    ensures n == 0 ==> MachineStops(p, 0)
    ensures n > 0 ==> ((exists m: nat :: MachineStops(p, m)) <==> Fits(At(p.initial[p.counter], StepOf(p).value, n)))
    ensures n > 0 && Fits(At(p.initial[p.counter], StepOf(p).value, n)) ==> MachineStops(p, n)
    ensures MachineStops(p, n) ==> MachineIterate(p, n) == RubyIterate(p, n)
  {
    n := IterationCount(p.initial[p.counter], p.limit, StepOf(p).value, false).value;
    if n > 0 {
      hide AffineWhile, RubyStops, MachineStops, MachineIterate, RubyIterate, StepOf;
      WhileIntervalSound(p, n);
    }
  }
}
