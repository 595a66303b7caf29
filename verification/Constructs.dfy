/** What each emission pattern does, given what its parts do: no syntax, only code and outcomes. The syntax-directed
    lemmas of CompileCorrect instantiate these. */
module Constructs {
  import opened Options
  import opened Bytecode
  import opened CodeGen
  import opened Machine
  import opened SimulationSteps

  /** One instruction that pushes a value. */
  lemma {:induction false} PushSim(p: Program, base: nat, i: Instr, env: Env, v: Value, fuel: nat)
    requires forall s: State :: s.Running? && s.pc == base && Match(p, s.locals, env) ==>
               Execute(i, p.tables.pool, s) == Replace(s, base + Width(i), 0, v)
    ensures Simulates(p, base, Last(i), env, Finished(v, env), true, fuel)
  {
    forall s: State | Ready(p, base, Last(i), s, env)
      ensures exists n: nat :: Completes(p, s, n, Finished(v, env), base, Last(i), true, fuel)
    {
      HoldsEmit(p.fetch, base, i, Nop);
      SizeEmit(i, Nop);
      var n := OneStep(p, s, 0, i);
      assert Completes(p, s, n, Finished(v, env), base, Last(i), true, fuel);
    }
  }

  lemma {:induction false} LoadSim(p: Program, base: nat, name: string, env: Env, fuel: nat)
    requires name in p.tables.names
    ensures Simulates(p, base, Last(GetLocal(IndexOf(p.tables.names, name))), env, Finished(Lookup(env, name), env), true, fuel)
  {
    var i := GetLocal(IndexOf(p.tables.names, name));
    forall s: State | s.Running? && s.pc == base && Match(p, s.locals, env)
      ensures Execute(i, p.tables.pool, s) == Replace(s, base + Width(i), 0, Lookup(env, name))
    {
      SlotHolds(p, name, s.locals, env);
    }
    PushSim(p, base, i, env, Lookup(env, name), fuel);
  }

  // ---------------------------------------------------------------- operators

  function InfixOutcome(op: BinOp, x: Outcome, y: Outcome): Outcome {
    if !x.Finished? then x else if !y.Finished? then y else OfOption(Operate(op, x.v, y.v), y.env)
  }

  lemma {:induction false} InfixParts(fetch: Fetch, base: nat, x: Code, y: Code, op: BinOp)
    ensures Size(Cat(x, Cat(y, Last(Binary(op))))) == Size(x) + Size(y) + 1
    ensures Holds(fetch, base, Cat(x, Cat(y, Last(Binary(op))))) ==>
      && Holds(fetch, base, x) && Holds(fetch, base + Size(x), y)
      && fetch(base + Size(x) + Size(y)) == Some(Binary(op))
  {
    var last := Last(Binary(op));
    SizeEmit(Binary(op), Nop);
    assert Size(Cat(y, last)) == Size(y) + 1;
    if Holds(fetch, base, Cat(x, Cat(y, last))) {
      assert Holds(fetch, base + Size(x), Cat(y, last));
      HoldsEmit(fetch, base + Size(x) + Size(y), Binary(op), Nop);
    }
  }

  lemma {:induction false} InfixSim(p: Program, base: nat, x: Code, y: Code, op: BinOp, env: Env, o: Outcome, o2: Outcome, fuel: nat)
    requires Simulates(p, base, x, env, o, true, fuel)
    requires o.Finished? ==> Simulates(p, base + Size(x), y, o.env, o2, true, fuel)
    ensures Simulates(p, base, Cat(x, Cat(y, Last(Binary(op)))), env, InfixOutcome(op, o, o2), true, fuel)
  {
    hide Match, Holds, Size, Run;
    var c, r := Cat(x, Cat(y, Last(Binary(op)))), InfixOutcome(op, o, o2);
    InfixParts(p.fetch, base, x, y, op);
    forall s: State | Ready(p, base, c, s, env)
      ensures exists n: nat :: Completes(p, s, n, r, base, c, true, fuel)
    {
      var n := Follow(p, base, x, env, o, true, fuel, s);
      if o.Finished? {
        n := Resume(p, base + Size(x), y, o.env, o2, true, fuel, s, n, s.stack + [o.v]);
        n := StepBinary(p, s, n, op, s.stack, o.v, o2, base + Size(x) + Size(y), fuel);
      }
      assert Completes(p, s, n, r, base, c, true, fuel);
    }
  }

  function UnaryOutcome(not: bool, x: Outcome): Outcome {
    if !x.Finished? then x
    else if not then Finished(BoolV(!Truthy(x.v)), x.env)
    else OfOption(if x.v.IntV? then Some(IntV(-x.v.n)) else None, x.env)
  }

  lemma {:induction false} UnarySim(p: Program, base: nat, x: Code, not: bool, env: Env, o: Outcome, fuel: nat)
    requires Simulates(p, base, x, env, o, true, fuel)
    ensures Simulates(p, base, Cat(x, Last(if not then Bang else Negate)), env, UnaryOutcome(not, o), true, fuel)
  {
    hide Match, Run;
    var i := if not then Bang else Negate;
    var c, r := Cat(x, Last(i)), UnaryOutcome(not, o);
    SizeEmit(i, Nop);
    forall s: State | Ready(p, base, c, s, env)
      ensures exists n: nat :: Completes(p, s, n, r, base, c, true, fuel)
    {
      HoldsEmit(p.fetch, base + Size(x), i, Nop);
      var n := Follow(p, base, x, env, o, true, fuel, s);
      if o.Finished? { n := OneStep(p, s, n, i); }
      assert Completes(p, s, n, r, base, c, true, fuel);
    }
  }

  // ---------------------------------------------------------------- short circuits

  function LogicalOutcome(isOr: bool, x: Outcome, y: Outcome): Outcome {
    if !x.Finished? || Truthy(x.v) == isOr then x else y
  }

  lemma {:induction false} ShortCircuitParts(p: Program, base: nat, x: Code, isOr: bool, end: nat, y: Code)
    ensures Size(Cat(x, ShortCircuit(isOr, end, y))) == Size(x) + 5 + Size(y)
    ensures var q := base + Size(x);
      Holds(p.fetch, base, Cat(x, ShortCircuit(isOr, end, y))) ==>
      && Holds(p.fetch, base, x) && p.fetch(q) == Some(Dup) && p.fetch(q + 1) == Some(BranchOp(isOr, end))
      && p.fetch(q + 4) == Some(Pop) && Holds(p.fetch, q + 5, y)
  {
    ShortCircuitSize(isOr, end, y);
    if Holds(p.fetch, base, Cat(x, ShortCircuit(isOr, end, y))) { HoldsShortCircuit(p.fetch, base + Size(x), isOr, end, y); }
  }

  /** After the test: at the end with the first value, or about to run the second operand. */
  lemma {:induction false} RestSteps(p: Program, q: nat, y: Code, stay: bool, o: Outcome, o2: Outcome, fuel: nat, s: State, m: nat) returns (n: nat)
    requires o.Finished? && s.Running? && Simulates(p, q, y, o.env, o2, true, fuel) && Holds(p.fetch, q, y)
    requires var r := Run(p.fetch, p.end, p.tables.pool, s, m);
             && r.Running? && Match(p, r.locals, o.env)
             && if stay then r.pc == q + Size(y) && r.stack == s.stack + [o.v] else r.pc == q && r.stack == s.stack
    ensures Lands(p, s, n, if stay then o else o2, q + Size(y), s.stack, true, fuel)
  {
    n := m;
    if !stay { n := Resume(p, q, y, o.env, o2, true, fuel, s, m, s.stack); }
  }

  lemma {:induction false} LogicalSim(p: Program, base: nat, x: Code, isOr: bool, y: Code, env: Env, o: Outcome, o2: Outcome, fuel: nat)
    requires Simulates(p, base, x, env, o, true, fuel)
    requires o.Finished? ==> Simulates(p, base + Size(x) + 5, y, o.env, o2, true, fuel)
    ensures Simulates(p, base, Cat(x, ShortCircuit(isOr, base + Size(x) + 5 + Size(y), y)), env, LogicalOutcome(isOr, o, o2), true, fuel)
  {
    hide Match, Holds, Size, Run;
    var q := base + Size(x);
    var end := q + 5 + Size(y);
    var c, r := Cat(x, ShortCircuit(isOr, end, y)), LogicalOutcome(isOr, o, o2);
    ShortCircuitParts(p, base, x, isOr, end, y);
    forall s: State | Ready(p, base, c, s, env)
      ensures exists n: nat :: Completes(p, s, n, r, base, c, true, fuel)
    {
      var n := Follow(p, base, x, env, o, true, fuel, s);
      if o.Finished? {
        n := StepShortCircuit(p, s, n, isOr, end, s.stack, o.v);
        var stay := Truthy(o.v) == isOr;
        n := RestSteps(p, q + 5, y, stay, o, o2, fuel, s, n);
        assert r == if stay then o else o2;
      }
      assert Completes(p, s, n, r, base, c, true, fuel);
    }
  }

  // ---------------------------------------------------------------- branches

  function BranchOutcome(onTrue: bool, test: Outcome, first: Outcome, second: Outcome): Outcome {
    if !test.Finished? then test else if Truthy(test.v) != onTrue then first else second
  }

  lemma {:induction false} BranchParts(p: Program, base: nat, x: Code, onTrue: bool, y: Code, end: nat, z: Code)
    ensures Size(Cat(x, Branch(onTrue, base + Size(x) + Size(y) + 6, y, end, z))) == Size(x) + Size(y) + 6 + Size(z)
    ensures var q := base + Size(x);
      Holds(p.fetch, base, Cat(x, Branch(onTrue, q + Size(y) + 6, y, end, z))) ==>
      && Holds(p.fetch, base, x) && p.fetch(q) == Some(BranchOp(onTrue, q + Size(y) + 6)) && Holds(p.fetch, q + 3, y)
      && p.fetch(q + 3 + Size(y)) == Some(Jump(end)) && Holds(p.fetch, q + Size(y) + 6, z)
  {
    var q := base + Size(x);
    BranchSize(onTrue, q + Size(y) + 6, y, end, z);
    if Holds(p.fetch, base, Cat(x, Branch(onTrue, q + Size(y) + 6, y, end, z))) {
      HoldsBranch(p.fetch, q, onTrue, q + Size(y) + 6, y, end, z);
    }
  }

  /** Where a finished test leaves the machine: after the jump, or at its target, with the value popped. */
  lemma {:induction false} TestStep(p: Program, base: nat, x: Code, onTrue: bool, other: nat, env: Env, o: Outcome, fuel: nat, s: State) returns (n: nat)
    requires Simulates(p, base, x, env, o, true, fuel) && Ready(p, base, x, s, env)
    requires p.fetch(base + Size(x)) == Some(BranchOp(onTrue, other))
    ensures var r := Run(p.fetch, p.end, p.tables.pool, s, n);
            if o.Finished? then
              && n > 0 && r.Running? && r.stack == s.stack && Match(p, r.locals, o.env)
              && (Truthy(o.v) == onTrue ==> r.pc == other) && (Truthy(o.v) != onTrue ==> r.pc == base + Size(x) + 3)
            else forall end, push :: Lands(p, s, n, o, end, s.stack, push, fuel)
  {
    n := Follow(p, base, x, env, o, true, fuel, s);
    if o.Finished? { n := StepBranch(p, s, n, onTrue, other, s.stack, o.v); }
  }

  /** The chosen arm: the first one jumps to the end, the second one runs up to it. */
  lemma {:induction false} ArmSteps(p: Program, q: nat, y: Code, end: nat, q2: nat, z: Code, taken: bool, env: Env, first: Outcome, second: Outcome,
                 fuel: nat, s: State, m: nat) returns (n: nat)
    requires s.Running? && end == q2 + Size(z) && p.fetch(q + Size(y)) == Some(Jump(end))
    requires taken ==> Simulates(p, q, y, env, first, true, fuel) && Ready(p, q, y, Run(p.fetch, p.end, p.tables.pool, s, m), env)
    requires !taken ==> Simulates(p, q2, z, env, second, true, fuel) && Ready(p, q2, z, Run(p.fetch, p.end, p.tables.pool, s, m), env)
    requires var r := Run(p.fetch, p.end, p.tables.pool, s, m); r.Running? && r.stack == s.stack
    ensures Lands(p, s, n, if taken then first else second, end, s.stack, true, fuel)
  {
    if taken {
      n := Resume(p, q, y, env, first, true, fuel, s, m, s.stack);
      n := StepJump(p, s, n, first, q + Size(y), end, s.stack, fuel);
    } else {
      n := Resume(p, q2, z, env, second, true, fuel, s, m, s.stack);
    }
  }

  /** A test and two arms that meet at `end`, which is where the second arm ends. */
  lemma {:induction false} BranchSim(p: Program, base: nat, x: Code, onTrue: bool, y: Code, end: nat, z: Code, env: Env,
                  o: Outcome, first: Outcome, second: Outcome, fuel: nat)
    requires end == base + Size(x) + Size(y) + 6 + Size(z)
    requires Simulates(p, base, x, env, o, true, fuel)
    requires o.Finished? ==> Simulates(p, base + Size(x) + 3, y, o.env, first, true, fuel)
    requires o.Finished? ==> Simulates(p, base + Size(x) + Size(y) + 6, z, o.env, second, true, fuel)
    ensures Simulates(p, base, Cat(x, Branch(onTrue, base + Size(x) + Size(y) + 6, y, end, z)), env,
                      BranchOutcome(onTrue, o, first, second), true, fuel)
  {
    hide Match, Holds, Size, Run;
    var q := base + Size(x);
    var q2 := q + Size(y) + 6;
    var c, r := Cat(x, Branch(onTrue, q2, y, end, z)), BranchOutcome(onTrue, o, first, second);
    BranchParts(p, base, x, onTrue, y, end, z);
    forall s: State | Ready(p, base, c, s, env)
      ensures exists n: nat :: Completes(p, s, n, r, base, c, true, fuel)
    {
      var n := TestStep(p, base, x, onTrue, q2, env, o, fuel, s);
      if o.Finished? {
        var taken := Truthy(o.v) != onTrue;
        n := ArmSteps(p, q + 3, y, end, q2, z, taken, o.env, first, second, fuel, s, n);
        assert r == if taken then first else second;
      }
      assert Completes(p, s, n, r, base, c, true, fuel);
    }
  }

  // ---------------------------------------------------------------- assignments

  lemma {:induction false} AssignSim(p: Program, base: nat, x: Code, name: string, env: Env, o: Outcome, fuel: nat)
    requires name in p.tables.names && Simulates(p, base, x, env, o, true, fuel)
    ensures Simulates(p, base, Cat(x, Last(SetLocal(IndexOf(p.tables.names, name)))), env, Stored(o, name), true, fuel)
  {
    hide Match, Run;
    var i := SetLocal(IndexOf(p.tables.names, name));
    var c, r := Cat(x, Last(i)), Stored(o, name);
    SizeEmit(i, Nop);
    forall s: State | Ready(p, base, c, s, env)
      ensures exists n: nat :: Completes(p, s, n, r, base, c, true, fuel)
    {
      HoldsEmit(p.fetch, base + Size(x), i, Nop);
      var n := Follow(p, base, x, env, o, true, fuel, s);
      n := StepStore(p, s, n, o, base + Size(x), name, s.stack, fuel);
      assert Completes(p, s, n, r, base, c, true, fuel);
    }
  }

  lemma {:induction false} OpAssignParts(fetch: Fetch, base: nat, k: nat, x: Code, op: BinOp)
    ensures Size(Emit(GetLocal(k), Cat(x, Emit(Binary(op), Last(SetLocal(k)))))) == Size(x) + 5
    ensures Holds(fetch, base, Emit(GetLocal(k), Cat(x, Emit(Binary(op), Last(SetLocal(k)))))) ==>
      && fetch(base) == Some(GetLocal(k)) && Holds(fetch, base + 2, x)
      && fetch(base + 2 + Size(x)) == Some(Binary(op)) && fetch(base + 3 + Size(x)) == Some(SetLocal(k))
  {
    var store := Emit(Binary(op), Last(SetLocal(k)));
    SizeEmit(SetLocal(k), Nop);
    SizeEmit(Binary(op), Last(SetLocal(k)));
    SizeEmit(GetLocal(k), Cat(x, store));
    if Holds(fetch, base, Emit(GetLocal(k), Cat(x, store))) {
      HoldsEmit(fetch, base, GetLocal(k), Cat(x, store));
      HoldsEmit(fetch, base + 2 + Size(x), Binary(op), Last(SetLocal(k)));
      HoldsEmit(fetch, base + 3 + Size(x), SetLocal(k), Nop);
    }
  }

  lemma {:induction false} OpAssignSim(p: Program, base: nat, x: Code, op: BinOp, name: string, env: Env, o: Outcome, fuel: nat)
    requires name in p.tables.names && Simulates(p, base + 2, x, env, o, true, fuel)
    ensures var k := IndexOf(p.tables.names, name);
            Simulates(p, base, Emit(GetLocal(k), Cat(x, Emit(Binary(op), Last(SetLocal(k))))), env,
                      Compound(op, Lookup(env, name), o, name), true, fuel)
  {
    hide Match, Holds, Size, Run;
    var k, now := IndexOf(p.tables.names, name), Lookup(env, name);
    var c, r := Emit(GetLocal(k), Cat(x, Emit(Binary(op), Last(SetLocal(k))))), Compound(op, now, o, name);
    OpAssignParts(p.fetch, base, k, x, op);
    forall s: State | Ready(p, base, c, s, env)
      ensures exists n: nat :: Completes(p, s, n, r, base, c, true, fuel)
    {
      var n := StepLoad(p, s, name, env);
      n := Resume(p, base + 2, x, env, o, true, fuel, s, n, s.stack + [now]);
      n := StepCompound(p, s, n, op, s.stack, now, o, base + 2 + Size(x), name, fuel);
      assert Completes(p, s, n, r, base, c, true, fuel);
    }
  }

  function LogicalAssignOutcome(isOr: bool, now: Value, env: Env, o: Outcome, name: string): Outcome {
    if Truthy(now) == isOr then Finished(now, env) else Stored(o, name)
  }

  lemma {:induction false} LogicalAssignParts(p: Program, base: nat, k: nat, isOr: bool, end: nat, x: Code)
    ensures Size(Emit(GetLocal(k), ShortCircuit(isOr, end, Cat(x, Emit(SetLocal(k), Last(Jump(end))))))) == Size(x) + 12
    ensures Holds(p.fetch, base, Emit(GetLocal(k), ShortCircuit(isOr, end, Cat(x, Emit(SetLocal(k), Last(Jump(end))))))) ==>
      && p.fetch(base) == Some(GetLocal(k)) && p.fetch(base + 2) == Some(Dup)
      && p.fetch(base + 3) == Some(BranchOp(isOr, end)) && p.fetch(base + 6) == Some(Pop) && Holds(p.fetch, base + 7, x)
      && p.fetch(base + 7 + Size(x)) == Some(SetLocal(k)) && p.fetch(base + 9 + Size(x)) == Some(Jump(end))
  {
    var store := Emit(SetLocal(k), Last(Jump(end)));
    SizeEmit(Jump(end), Nop);
    SizeEmit(SetLocal(k), Last(Jump(end)));
    ShortCircuitSize(isOr, end, Cat(x, store));
    SizeEmit(GetLocal(k), ShortCircuit(isOr, end, Cat(x, store)));
    if Holds(p.fetch, base, Emit(GetLocal(k), ShortCircuit(isOr, end, Cat(x, store)))) {
      HoldsEmit(p.fetch, base, GetLocal(k), ShortCircuit(isOr, end, Cat(x, store)));
      HoldsShortCircuit(p.fetch, base + 2, isOr, end, Cat(x, store));
      HoldsEmit(p.fetch, base + 7 + Size(x), SetLocal(k), Last(Jump(end)));
      HoldsEmit(p.fetch, base + 9 + Size(x), Jump(end), Nop);
    }
  }

  lemma {:induction false} LogicalAssignSim(p: Program, base: nat, x: Code, isOr: bool, name: string, env: Env, o: Outcome, fuel: nat)
    requires name in p.tables.names && Simulates(p, base + 7, x, env, o, true, fuel)
    ensures var k, end := IndexOf(p.tables.names, name), base + 7 + Size(x) + 5;
            Simulates(p, base, Emit(GetLocal(k), ShortCircuit(isOr, end, Cat(x, Emit(SetLocal(k), Last(Jump(end)))))), env,
                      LogicalAssignOutcome(isOr, Lookup(env, name), env, o, name), true, fuel)
  {
    hide Match, Holds, Size, Run;
    var k, end, now := IndexOf(p.tables.names, name), base + 7 + Size(x) + 5, Lookup(env, name);
    var c := Emit(GetLocal(k), ShortCircuit(isOr, end, Cat(x, Emit(SetLocal(k), Last(Jump(end))))));
    var r := LogicalAssignOutcome(isOr, now, env, o, name);
    LogicalAssignParts(p, base, k, isOr, end, x);
    forall s: State | Ready(p, base, c, s, env)
      ensures exists n: nat :: Completes(p, s, n, r, base, c, true, fuel)
    {
      var n := StepLoad(p, s, name, env);
      n := StepShortCircuit(p, s, n, isOr, end, s.stack, now);
      if Truthy(now) != isOr {
        n := Resume(p, base + 7, x, env, o, true, fuel, s, n, s.stack);
        n := StepStore(p, s, n, o, base + 7 + Size(x), name, s.stack, fuel);
        n := StepJump(p, s, n, Stored(o, name), base + 9 + Size(x), end, s.stack, fuel);
      }
      assert Completes(p, s, n, r, base, c, true, fuel);
    }
  }

  // ---------------------------------------------------------------- loops

  lemma {:induction false} LoopParts(p: Program, base: nat, x: Code, exit: nat, y: Code)
    requires exit == base + Size(x) + 6 + Size(y) + 3
    ensures Size(Cat(x, Loop(exit, y, base))) == Size(x) + Size(y) + 10
    ensures var q := base + Size(x);
      Holds(p.fetch, base, Cat(x, Loop(exit, y, base))) ==>
      && Holds(p.fetch, base, x) && p.fetch(q) == Some(BranchOp(false, exit)) && p.fetch(q + 3) == Some(SetWhileEnd(exit))
      && Holds(p.fetch, q + 6, y) && p.fetch(q + 6 + Size(y)) == Some(Jump(base)) && p.fetch(exit) == Some(PushNil)
  {
    var tail := Emit(Jump(base), Last(PushNil));
    SizeEmit(PushNil, Nop);
    SizeEmit(Jump(base), Last(PushNil));
    SizeEmit(SetWhileEnd(exit), Cat(y, tail));
    SizeEmit(JumpNotTruthy(exit), Emit(SetWhileEnd(exit), Cat(y, tail)));
    if Holds(p.fetch, base, Cat(x, Loop(exit, y, base))) {
      var q := base + Size(x);
      HoldsEmit(p.fetch, q, JumpNotTruthy(exit), Emit(SetWhileEnd(exit), Cat(y, tail)));
      HoldsEmit(p.fetch, q + 3, SetWhileEnd(exit), Cat(y, tail));
      HoldsEmit(p.fetch, q + 6 + Size(y), Jump(base), Last(PushNil));
      HoldsEmit(p.fetch, exit, PushNil, Nop);
    }
  }

  /** The outcome of a loop from its test, its body, and the loop run again on less fuel. */
  function LoopOutcome(test: Outcome, body: Outcome, again: Outcome, fuel: nat): Outcome {
    if !test.Finished? then test
    else if !Truthy(test.v) then Finished(NilV, test.env)
    else if !body.Finished? then body
    else if fuel == 0 then Timeout
    else again
  }

  /** A repeated loop spends at least one step per unit of fuel. */
  lemma {:induction false} Spend(p: Program, s: State, n: nat, k: nat, o: Outcome, end: nat, stack: seq<Value>, fuel: nat)
    requires fuel > 0 && n > 0 && Lands(p, Run(p.fetch, p.end, p.tables.pool, s, n), k, o, end, stack, true, fuel - 1)
    ensures Lands(p, s, n + k, o, end, stack, true, fuel)
  {
    RunAdd(p.fetch, p.end, p.tables.pool, s, n, k);
  }

  /** One iteration from the start of the body. */
  lemma {:induction false} IterationStep(p: Program, base: nat, x: Code, y: Code, exit: nat, test: Env, body: Outcome, again: Outcome, fuel: nat, s: State, m: nat)
    returns (n: nat)
    requires exit == base + Size(x) + 6 + Size(y) + 3 && m > 0 && s.Running?
    requires Simulates(p, base + Size(x) + 6, y, test, body, false, fuel)
    requires body.Finished? && fuel > 0 ==> Simulates(p, base, Cat(x, Loop(exit, y, base)), body.env, again, true, fuel - 1)
    requires Ready(p, base + Size(x) + 6, y, Run(p.fetch, p.end, p.tables.pool, s, m), test)
    requires Run(p.fetch, p.end, p.tables.pool, s, m).stack == s.stack && Holds(p.fetch, base, Cat(x, Loop(exit, y, base)))
    ensures Lands(p, s, n, if !body.Finished? then body else if fuel == 0 then Timeout else again, exit + 1, s.stack, true, fuel)
  {
    LoopParts(p, base, x, exit, y);
    n := Resume(p, base + Size(x) + 6, y, test, body, false, fuel, s, m, s.stack);
    if body.Finished? {
      n := OneStep(p, s, n, Jump(base));
      if fuel > 0 {
        var k := Follow(p, base, Cat(x, Loop(exit, y, base)), body.env, again, true, fuel - 1, Run(p.fetch, p.end, p.tables.pool, s, n));
        Spend(p, s, n, k, again, exit + 1, s.stack, fuel);
        n := n + k;
      }
    }
  }

  lemma {:induction false} LoopSim(p: Program, base: nat, x: Code, y: Code, env: Env, test: Outcome, body: Outcome, again: Outcome, fuel: nat)
    requires Simulates(p, base, x, env, test, true, fuel)
    requires test.Finished? ==> Simulates(p, base + Size(x) + 6, y, test.env, body, false, fuel)
    requires test.Finished? && body.Finished? && fuel > 0 ==>
               Simulates(p, base, Cat(x, Loop(base + Size(x) + 6 + Size(y) + 3, y, base)), body.env, again, true, fuel - 1)
    ensures Simulates(p, base, Cat(x, Loop(base + Size(x) + 6 + Size(y) + 3, y, base)), env, LoopOutcome(test, body, again, fuel), true, fuel)
  {
    hide Match, Holds, Size, Run;
    var q := base + Size(x);
    var exit := q + 6 + Size(y) + 3;
    var c, r := Cat(x, Loop(exit, y, base)), LoopOutcome(test, body, again, fuel);
    LoopParts(p, base, x, exit, y);
    forall s: State | Ready(p, base, c, s, env)
      ensures exists n: nat :: Completes(p, s, n, r, base, c, true, fuel)
    {
      var n := TestStep(p, base, x, false, exit, env, test, fuel, s);
      if test.Finished? {
        if Truthy(test.v) {
          n := OneStep(p, s, n, SetWhileEnd(exit));
          n := IterationStep(p, base, x, y, exit, test.env, body, again, fuel, s, n);
        } else {
          n := OneStep(p, s, n, PushNil);
        }
      }
      assert Completes(p, s, n, r, base, c, true, fuel);
    }
  }

  // ---------------------------------------------------------------- sequences

  lemma {:induction false} EmptySim(p: Program, base: nat, env: Env, v: Value, fuel: nat)
    ensures Simulates(p, base, Nop, env, Finished(v, env), false, fuel)
  {
    forall s: State | Ready(p, base, Nop, s, env)
      ensures exists n: nat :: Completes(p, s, n, Finished(v, env), base, Nop, false, fuel)
    {
      assert Completes(p, s, 0, Finished(v, env), base, Nop, false, fuel);
    }
  }

  lemma {:induction false} StatementParts(p: Program, base: nat, x: Code, y: Code)
    ensures Size(Cat(x, Emit(Pop, y))) == Size(x) + 1 + Size(y)
    ensures Holds(p.fetch, base, Cat(x, Emit(Pop, y))) ==>
      Holds(p.fetch, base, x) && p.fetch(base + Size(x)) == Some(Pop) && Holds(p.fetch, base + Size(x) + 1, y)
  {
    SizeEmit(Pop, y);
    if Holds(p.fetch, base, Cat(x, Emit(Pop, y))) { HoldsEmit(p.fetch, base + Size(x), Pop, y); }
  }

  /** A statement, its value popped, and what follows, which pushes a value or not. */
  lemma {:induction false} StatementSim(p: Program, base: nat, x: Code, y: Code, env: Env, o: Outcome, o2: Outcome, push: bool, fuel: nat)
    requires Simulates(p, base, x, env, o, true, fuel)
    requires o.Finished? ==> Simulates(p, base + Size(x) + 1, y, o.env, o2, push, fuel)
    ensures Simulates(p, base, Cat(x, Emit(Pop, y)), env, if o.Finished? then o2 else o, push, fuel)
  {
    hide Match, Holds, Size, Run;
    var c, r := Cat(x, Emit(Pop, y)), if o.Finished? then o2 else o;
    StatementParts(p, base, x, y);
    forall s: State | Ready(p, base, c, s, env)
      ensures exists n: nat :: Completes(p, s, n, r, base, c, push, fuel)
    {
      var n := Follow(p, base, x, env, o, true, fuel, s);
      if o.Finished? {
        n := StepPop(p, s, n, s.stack, o.v);
        n := Resume(p, base + Size(x) + 1, y, o.env, o2, push, fuel, s, n, s.stack);
      }
      assert Completes(p, s, n, r, base, c, push, fuel);
    }
  }
}
