/** Where the parts of an expression's code lie, and how machine runs compose: the steps the construct lemmas are built
    from, one per emission pattern. */
module SimulationSteps {
  import opened Options
  import opened Bytecode
  import opened CodeGen
  import opened Machine

  /** The finished program: what its positions hold, its length, and its tables. */
  datatype Program = Program(fetch: Fetch, end: nat, tables: Tables)

  /** The machine's locals hold the environment, slot by slot, and every name has one slot. */
  ghost predicate Match(p: Program, locals: seq<Value>, env: Env) {
    Distinct(p.tables.names) && |locals| == |p.tables.names| && forall i :: 0 <= i < |locals| ==> locals[i] == Lookup(env, p.tables.names[i])
  }

  /** The run from s follows the outcome: it ends at `end` with the value pushed (or not) on the old stack and matching
      locals, or it raises, or it is still running after at least `fuel` steps. */
  ghost predicate Lands(p: Program, s: State, n: nat, o: Outcome, end: nat, stack: seq<Value>, push: bool, fuel: nat) {
    var r := Run(p.fetch, p.end, p.tables.pool, s, n);
    match o
    case Finished(v, env) => r.Running? && r.pc == end && r.stack == (if push then stack + [v] else stack) && Match(p, r.locals, env)
    case Raises => r == Raised
    case Timeout => r.Running? && n >= fuel
  }

  lemma {:induction false} Compose(p: Program, s: State, m: nat, n: nat, o: Outcome, end: nat, stack: seq<Value>, push: bool, fuel: nat)
    requires Lands(p, Run(p.fetch, p.end, p.tables.pool, s, m), n, o, end, stack, push, fuel)
    ensures Lands(p, s, m + n, o, end, stack, push, fuel)
  {
    RunAdd(p.fetch, p.end, p.tables.pool, s, m, n);
  }

  /** One instruction. */
  lemma {:induction false} OneStep(p: Program, s: State, m: nat, i: Instr) returns (n: nat)
    requires var r := Run(p.fetch, p.end, p.tables.pool, s, m); r.Running? && p.fetch(r.pc) == Some(i)
    ensures n == m + 1 && Run(p.fetch, p.end, p.tables.pool, s, n) == Execute(i, p.tables.pool, Run(p.fetch, p.end, p.tables.pool, s, m))
  {
    RunAdd(p.fetch, p.end, p.tables.pool, s, m, 1);
    n := m + 1;
  }

  /** A conditional jump pops its test and chooses. */
  lemma {:induction false} StepBranch(p: Program, s: State, m: nat, onTrue: bool, target: nat, stack: seq<Value>, v: Value) returns (n: nat)
    requires var r := Run(p.fetch, p.end, p.tables.pool, s, m);
             r.Running? && r.stack == stack + [v] && p.fetch(r.pc) == Some(BranchOp(onTrue, target))
    ensures var r := Run(p.fetch, p.end, p.tables.pool, s, m);
            n == m + 1 && Run(p.fetch, p.end, p.tables.pool, s, n) == Running(if Truthy(v) == onTrue then target else r.pc + 3, stack, r.locals)
  {
    n := OneStep(p, s, m, BranchOp(onTrue, target));
  }

  /** Duplicate, test, and either keep the value and jump or drop it and go on. */
  lemma {:induction false} StepShortCircuit(p: Program, s: State, m: nat, onTrue: bool, target: nat, stack: seq<Value>, v: Value) returns (n: nat)
    requires var r := Run(p.fetch, p.end, p.tables.pool, s, m);
             && r.Running? && r.stack == stack + [v] && p.fetch(r.pc) == Some(Dup)
             && p.fetch(r.pc + 1) == Some(BranchOp(onTrue, target)) && p.fetch(r.pc + 4) == Some(Pop)
    ensures var r := Run(p.fetch, p.end, p.tables.pool, s, m);
            n > m && Run(p.fetch, p.end, p.tables.pool, s, n) ==
              Running(if Truthy(v) == onTrue then target else r.pc + 5, if Truthy(v) == onTrue then stack + [v] else stack, r.locals)
  {
    n := OneStep(p, s, m, Dup);
    n := StepBranch(p, s, n, onTrue, target, stack + [v], v);
    if Truthy(v) != onTrue { n := OneStep(p, s, n, Pop); }
  }

  /** The second operand, then the operator. */
  lemma {:induction false} StepBinary(p: Program, s: State, m: nat, op: BinOp, stack: seq<Value>, x: Value, o: Outcome, pos: nat, fuel: nat) returns (n: nat)
    requires Lands(p, s, m, o, pos, stack + [x], true, fuel) && p.fetch(pos) == Some(Binary(op))
    ensures Lands(p, s, n, if o.Finished? then OfOption(Operate(op, x, o.v), o.env) else o, pos + 1, stack, true, fuel)
  {
    n := m;
    if o.Finished? {
      n := OneStep(p, s, m, Binary(op));
      assert (stack + [x] + [o.v])[..|stack|] == stack;
    }
  }

  /** A statement's value is dropped. */
  lemma {:induction false} StepPop(p: Program, s: State, m: nat, stack: seq<Value>, v: Value) returns (n: nat)
    requires var r := Run(p.fetch, p.end, p.tables.pool, s, m); r.Running? && r.stack == stack + [v] && p.fetch(r.pc) == Some(Pop)
    ensures var r := Run(p.fetch, p.end, p.tables.pool, s, m);
            n > m && Run(p.fetch, p.end, p.tables.pool, s, n) == Running(r.pc + 1, stack, r.locals)
  {
    n := OneStep(p, s, m, Pop);
  }

  /** A finished branch jumps to the common end. */
  lemma {:induction false} StepJump(p: Program, s: State, m: nat, o: Outcome, pos: nat, end: nat, stack: seq<Value>, fuel: nat) returns (n: nat)
    requires Lands(p, s, m, o, pos, stack, true, fuel) && p.fetch(pos) == Some(Jump(end))
    ensures Lands(p, s, n, o, end, stack, true, fuel)
  {
    n := m;
    if o.Finished? { n := OneStep(p, s, m, Jump(end)); }
  }

  // ---------------------------------------------------------------- locating the parts

  lemma {:induction false} HoldsEmit(fetch: Fetch, pos: nat, i: Instr, rest: Code)
    requires Holds(fetch, pos, Emit(i, rest))
    ensures fetch(pos) == Some(i) && Holds(fetch, pos + Width(i), rest)
  {
    assert Holds(fetch, pos, One(i));
  }

  lemma {:induction false} HoldsBranch(fetch: Fetch, pos: nat, onTrue: bool, q: nat, body: Code, end: nat, other: Code)
    requires Holds(fetch, pos, Branch(onTrue, q, body, end, other))
    ensures fetch(pos) == Some(BranchOp(onTrue, q)) && Holds(fetch, pos + 3, body)
    ensures fetch(pos + 3 + Size(body)) == Some(Jump(end)) && Holds(fetch, pos + 6 + Size(body), other)
  {
    HoldsEmit(fetch, pos, BranchOp(onTrue, q), Cat(body, Emit(Jump(end), other)));
    HoldsEmit(fetch, pos + 3 + Size(body), Jump(end), other);
  }

  lemma {:induction false} HoldsShortCircuit(fetch: Fetch, pos: nat, onTrue: bool, end: nat, rest: Code)
    requires Holds(fetch, pos, ShortCircuit(onTrue, end, rest))
    ensures fetch(pos) == Some(Dup) && fetch(pos + 1) == Some(BranchOp(onTrue, end))
    ensures fetch(pos + 4) == Some(Pop) && Holds(fetch, pos + 5, rest)
  {
    HoldsEmit(fetch, pos, Dup, Emit(BranchOp(onTrue, end), Emit(Pop, rest)));
    HoldsEmit(fetch, pos + 1, BranchOp(onTrue, end), Emit(Pop, rest));
    HoldsEmit(fetch, pos + 4, Pop, rest);
  }

  // ---------------------------------------------------------------- slots

  /** Reading the slot of a known name reads the environment. */
  lemma {:induction false} SlotHolds(p: Program, name: string, locals: seq<Value>, env: Env)
    requires name in p.tables.names && Match(p, locals, env)
    ensures var k := IndexOf(p.tables.names, name); k < |locals| && locals[k] == Lookup(env, name)
  {
  }

  /** Writing it updates the environment. */
  lemma {:induction false} SlotUpdates(p: Program, name: string, locals: seq<Value>, env: Env, v: Value)
    requires name in p.tables.names && Match(p, locals, env)
    ensures var k := IndexOf(p.tables.names, name); k < |locals| && Match(p, locals[k := v], env[name := v])
  {
  }

  /** A finished value is stored in its slot and stays on the stack. */
  function Stored(o: Outcome, name: string): Outcome {
    if o.Finished? then Finished(o.v, o.env[name := o.v]) else o
  }

  lemma {:induction false} StepStore(p: Program, s: State, m: nat, o: Outcome, pos: nat, name: string, stack: seq<Value>, fuel: nat) returns (n: nat)
    requires Lands(p, s, m, o, pos, stack, true, fuel) && name in p.tables.names
    requires p.fetch(pos) == Some(SetLocal(IndexOf(p.tables.names, name)))
    ensures Lands(p, s, n, Stored(o, name), pos + 2, stack, true, fuel)
  {
    n := m;
    if o.Finished? {
      SlotUpdates(p, name, Run(p.fetch, p.end, p.tables.pool, s, m).locals, o.env, o.v);
      n := OneStep(p, s, m, SetLocal(IndexOf(p.tables.names, name)));
    }
  }

  /** The slot of a known name is pushed. */
  lemma {:induction false} StepLoad(p: Program, s: State, name: string, env: Env) returns (n: nat)
    requires s.Running? && Match(p, s.locals, env) && name in p.tables.names
    requires p.fetch(s.pc) == Some(GetLocal(IndexOf(p.tables.names, name)))
    ensures n == 1 && Run(p.fetch, p.end, p.tables.pool, s, n) == Running(s.pc + 2, s.stack + [Lookup(env, name)], s.locals)
  {
    SlotHolds(p, name, s.locals, env);
    n := OneStep(p, s, 0, GetLocal(IndexOf(p.tables.names, name)));
  }

  /** A compound assignment: operate on the old value and the operand, then store. */
  function Compound(op: BinOp, x: Value, o: Outcome, name: string): Outcome {
    if !o.Finished? then o else
    var v := Operate(op, x, o.v);
    if v.None? then Raises else Finished(v.value, o.env[name := v.value])
  }

  lemma {:induction false} StepCompound(p: Program, s: State, m: nat, op: BinOp, stack: seq<Value>, x: Value, o: Outcome, pos: nat, name: string, fuel: nat)
    returns (n: nat)
    requires Lands(p, s, m, o, pos, stack + [x], true, fuel) && name in p.tables.names
    requires p.fetch(pos) == Some(Binary(op)) && p.fetch(pos + 1) == Some(SetLocal(IndexOf(p.tables.names, name)))
    ensures Lands(p, s, n, Compound(op, x, o, name), pos + 3, stack, true, fuel)
  {
    n := StepBinary(p, s, m, op, stack, x, o, pos, fuel);
    var r := if o.Finished? then OfOption(Operate(op, x, o.v), o.env) else o;
    n := StepStore(p, s, n, r, pos + 1, name, stack, fuel);
  }

  // ---------------------------------------------------------------- what a piece of code does

  /** The machine is about to run this code in this environment. */
  ghost predicate Ready(p: Program, base: nat, c: Code, s: State, env: Env) {
    s.Running? && s.pc == base && Match(p, s.locals, env) && Holds(p.fetch, base, c)
  }

  /** From every such state the code lands on the outcome, with exactly one value pushed, or none. */
  ghost predicate Simulates(p: Program, base: nat, c: Code, env: Env, o: Outcome, push: bool, fuel: nat) {
    forall s: State :: Ready(p, base, c, s, env) ==> exists n: nat :: Completes(p, s, n, o, base, c, push, fuel)
  }

  ghost predicate Completes(p: Program, s: State, n: nat, o: Outcome, base: nat, c: Code, push: bool, fuel: nat) {
    s.Running? && Lands(p, s, n, o, base + Size(c), s.stack, push, fuel)
  }

  lemma {:induction false} Follow(p: Program, base: nat, c: Code, env: Env, o: Outcome, push: bool, fuel: nat, s: State) returns (n: nat)
    requires Simulates(p, base, c, env, o, push, fuel) && Ready(p, base, c, s, env)
    ensures Lands(p, s, n, o, base + Size(c), s.stack, push, fuel)
  {
    n :| Completes(p, s, n, o, base, c, push, fuel);
  }

  /** Go on after m steps. */
  lemma {:induction false} Resume(p: Program, base: nat, c: Code, env: Env, o: Outcome, push: bool, fuel: nat, s: State, m: nat, stack: seq<Value>) returns (n: nat)
    requires Simulates(p, base, c, env, o, push, fuel)
    requires Ready(p, base, c, Run(p.fetch, p.end, p.tables.pool, s, m), env)
    requires Run(p.fetch, p.end, p.tables.pool, s, m).stack == stack
    ensures n >= m && Lands(p, s, n, o, base + Size(c), stack, push, fuel)
  {
    var k := Follow(p, base, c, env, o, push, fuel, Run(p.fetch, p.end, p.tables.pool, s, m));
    Compose(p, s, m, k, o, base + Size(c), stack, push, fuel);
    n := m + k;
  }
}
