/** Whole programs: compilation preserves meaning. */
module CompileProgram {
  // The bytes the compiler emits, run from the start, do exactly what direct evaluation does.

  import opened Options
  import opened Bytecode
  import opened CodeGen
  import opened Scopes
  import opened Machine
  import opened SimulationSteps
  import opened CompileCorrect
  import opened Landing
  import opened Patching
  import Emitter

  function NoTables(): Tables {
    Tables([], [])
  }

  /** A program is a list of expression statements, each value popped. */
  function Compiled(b: Block): Gen {
    GenBlock(b, 0, NoTables())
  }

  /** The program fits the operand widths, and reads no name before the text assigns it. */
  ghost predicate Compilable(b: Block) {
    && ScopedBlock(b, {})
    && Size(Compiled(b).code) < 65536 && |Compiled(b).tables.names| <= 256 && |Compiled(b).tables.pool| <= 65536
  }

  /** The machine after n steps on the emitted bytes, started with every local nil. */
  function RunBytes(b: Block, n: nat): State {
    var g := Compiled(b);
    Run(Reader(Flatten(g.code)), Size(g.code), g.tables.pool, Running(0, [], seq(|g.tables.names|, _ => NilV)), n)
  }

  function Load(b: Block): Program {
    Program(Reader(Flatten(Compiled(b).code)), Size(Compiled(b).code), Compiled(b).tables)
  }

  /** A fresh compiler emits exactly these bytes and this constant pool. */
  method CompileProgram(b: Block) returns (bytes: seq<byte>, pool: seq<int>)
    ensures bytes == Flatten(Compiled(b).code) && pool == Compiled(b).tables.pool
  {
    var c := new Emitter.Compiler();
    c.CompileBlock(b);
    bytes, pool := c.instructions, c.constants;
    assert bytes == [] + Flatten(Compiled(b).code);
    assert c.Tab() == Compiled(b).tables;
  }

  lemma {:induction false} WholeLinked(b: Block)
    requires ScopedBlock(b, {})
    ensures LinkedBlock(Compiled(b).tables, b, 0, NoTables()) && Distinct(Compiled(b).tables.names)
  {
    assert Names(NoTables()) == {};
    GenBlockGrows(b, 0, NoTables());
  }

  /** Every jump of a program lands on the start of one of its instructions or just past the last one. */
  lemma {:induction false} JumpsLand(b: Block)
    requires ScopedBlock(b, {})
    ensures var c := Compiled(b).code; Fine(c, Starts(c, 0) + {Size(c)}, Compiled(b).tables)
  {
    WholeLinked(b);
    var c := Compiled(b).code;
    BlockLands(Compiled(b).tables, b, 0, NoTables());
    assert Starts(c, 0) + {0 + Size(c)} + {} == Starts(c, 0) + {Size(c)};
  }

  lemma {:induction false} BytesHold(b: Block)
    requires Compilable(b)
    ensures Holds(Load(b).fetch, 0, Compiled(b).code) && Load(b).fetch(Size(Compiled(b).code)) == None
  {
    var c := Compiled(b).code;
    WholeLinked(b);
    BlockLands(Compiled(b).tables, b, 0, NoTables());
    ClosedEncodable(c, 0, Compiled(b).tables);
    FlattenHolds([], c, []);
    assert [] + Flatten(c) + [] == Flatten(c);
  }

  /** What the machine has reached. */
  ghost predicate Reaches(b: Block, n: nat, o: Outcome, fuel: nat) {
    match o
    case Finished(_, env) => RunBytes(b, n).Done? && RunBytes(b, n).stack == [] && Match(Load(b), RunBytes(b, n).locals, env)
    case Raises => RunBytes(b, n) == Raised
    case Timeout => RunBytes(b, n).Running? && n >= fuel
  }

  /** From evaluation to the machine: it finishes with the same locals and an empty stack, raises, or is still running. */
  lemma {:induction false} EvaluationIsRun(b: Block, fuel: nat) returns (n: nat)
    requires Compilable(b)
    ensures Reaches(b, n, EvalBlock(b, map[], fuel), fuel)
  {
    var p, g := Load(b), Compiled(b);
    WholeLinked(b);
    BytesHold(b);
    SimBlock(p, b, 0, NoTables(), map[], fuel);
    var s := Running(0, [], seq(|g.tables.names|, _ => NilV));
    assert Ready(p, 0, g.code, s, map[]);
    n := Follow(p, 0, g.code, map[], EvalBlock(b, map[], fuel), false, fuel, s);
    if EvalBlock(b, map[], fuel).Finished? {
      RunAdd(p.fetch, p.end, p.tables.pool, s, n, 1);
      n := n + 1;
    }
  }

  /** A run that has stopped stays as it is. */
  lemma {:induction false} StoppedRun(b: Block, m: nat, n: nat)
    requires !RunBytes(b, m).Running? && m <= n
    ensures RunBytes(b, n) == RunBytes(b, m)
  {
    var g := Compiled(b);
    var s := Running(0, [], seq(|g.tables.names|, _ => NilV));
    RunAdd(Reader(Flatten(g.code)), Size(g.code), g.tables.pool, s, m, n - m);
    RunStops(Reader(Flatten(g.code)), Size(g.code), g.tables.pool, RunBytes(b, m), n - m);
  }

  /** From the machine to evaluation: a run that stops stops as evaluation does, and never in a stuck state. */
  lemma {:induction false} RunIsEvaluation(b: Block, n: nat)
    requires Compilable(b) && !RunBytes(b, n).Running?
    ensures match EvalBlock(b, map[], n + 1)
            case Finished(_, env) => RunBytes(b, n).Done? && RunBytes(b, n).stack == [] && Match(Load(b), RunBytes(b, n).locals, env)
            case Raises => RunBytes(b, n) == Raised
            case Timeout => false
  {
    var m := EvaluationIsRun(b, n + 1);
    if m <= n {
      if !RunBytes(b, m).Running? { StoppedRun(b, m, n); }
    } else {
      StoppedRun(b, n, m);
    }
  }

  /** The machine has stopped after n steps. */
  ghost predicate Stops(b: Block, n: nat) {
    !RunBytes(b, n).Running?
  }

  /** This much fuel is enough to evaluate the program to its end. */
  ghost predicate Ends(b: Block, fuel: nat) {
    EvalBlock(b, map[], fuel) != Timeout
  }

  /** Compilation preserves meaning, both ways: the machine stops after some number of steps if and only if evaluation
      ends for some fuel. */
  lemma {:induction false} StopsIff(b: Block)
    requires Compilable(b)
    ensures (exists n: nat :: Stops(b, n)) <==> (exists fuel: nat :: Ends(b, fuel))
  {
    if exists n: nat :: Stops(b, n) {
      var n: nat :| Stops(b, n);
      RunIsEvaluation(b, n);
      assert Ends(b, n + 1);
    }
    if exists fuel: nat :: Ends(b, fuel) {
      var fuel: nat :| Ends(b, fuel);
      var n := EvaluationIsRun(b, fuel);
      assert Stops(b, n);
    }
  }
}
