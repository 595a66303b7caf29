/** Decompiling inverts compiling. */
module DecompileCorrect {
  import opened Options
  import opened Int64
  import opened Bytecode
  import opened CodeGen
  import opened Scopes
  import opened Machine
  import opened SimulationSteps
  import opened CompileCorrect
  import A = AotExpr
  import R = AotValues
  import V = AotValidate
  import W = AotWhile
  import opened Decompile

  /** The loops of the ahead-of-time tier, run on Ruby's values, operate on them as the compiled code does. */
  lemma {:induction false} ValuesOperate(op: BinOp, x: Value, y: Value)
    requires OpOf(op).Some?
    ensures Operate(op, x, y) == R.ValueOp(OpOf(op).value, x, y)
  {
  }

  /** Decompiling inverts compiling: wherever the bytes of a straight-line body stand, the parser returns the body's
      assignments, in order, with their slots and expression trees. */
  lemma {:induction false} ParseInvertsCompile(before: seq<byte>, b: Block, t: Tables, u: Tables, after: seq<byte>)
    requires StraightLine(b) && LinkedBlock(u, b, |before|, t) && AllEncodable(GenBlock(b, |before|, t).code)
    ensures var c := GenBlock(b, |before|, t).code;
            ParseFrom(before + Flatten(c) + after, u.pool, |before| + Size(c), Parse(|before|, [], [])) == Some(Trees(b, u.names))
  {
    var c := GenBlock(b, |before|, t).code;
    FlattenHolds(before, c, after);
    ParseBlock(before + Flatten(c) + after, u, |before| + Size(c), b, |before|, t, []);
    assert [] + Trees(b, u.names) == Trees(b, u.names);
  }

  // ---------------------------------------------------------------- running the parsed list

  /** Every name holds an integer, slot by slot. */
  ghost predicate IntFrame(env: Env, names: seq<string>, frame: seq<int>) {
    |frame| == |names| && forall i :: 0 <= i < |names| ==> Lookup(env, names[i]) == IntV(frame[i])
  }

  /** The outcome of an expression as the value of its tree. */
  ghost predicate SameValue(o: Outcome, env: Env, v: Option<int>) {
    o == if v.Some? then Finished(IntV(v.value), env) else Raises
  }

  lemma {:induction false} ArithmeticIsRubyOp(op: BinOp, x: int, y: int)
    requires OpOf(op).Some?
    ensures Operate(op, IntV(x), IntV(y)) ==
            var v := A.RubyOp(OpOf(op).value, x, y); if v.Some? then Some(IntV(v.value)) else None
  {
  }

  lemma {:induction false} SimpleValue(e: Expr, env: Env, names: seq<string>, frame: seq<int>, fuel: nat)
    requires Simple(e) && IntFrame(env, names, frame) && ReadsFrom(e, names)
    ensures SameValue(Eval(e, env, fuel), env, A.RubyEval(Tree(e, names), frame, map[]))
    decreases e
  {
    match e
    case Int(_) =>
    case Var(name) => assert names[IndexOf(names, name)] == name;
    case Infix(op, l, r) =>
      EvalUnfolds(e, env, fuel);
      SimpleValue(l, env, names, frame, fuel);
      SimpleValue(r, env, names, frame, fuel);
      var x, y := A.RubyEval(Tree(l, names), frame, map[]), A.RubyEval(Tree(r, names), frame, map[]);
      if x.Some? && y.Some? { ArithmeticIsRubyOp(op, x.value, y.value); }
    case Minus(x) =>
      EvalUnfolds(e, env, fuel);
      SimpleValue(x, env, names, frame, fuel);
  }

  /** Every name an expression reads is one of these. */
  predicate ReadsFrom(e: Expr, names: seq<string>)
    requires Simple(e)
  {
    match e
    case Var(name) => name in names
    case Infix(_, l, r) => ReadsFrom(l, names) && ReadsFrom(r, names)
    case Minus(x) => ReadsFrom(x, names)
    case _ => true
  }

  predicate BlockReadsFrom(b: Block, names: seq<string>)
    requires StraightLine(b)
  {
    b.Stmt? ==> b.first.name in names && ReadsFrom(b.first.value, names) && BlockReadsFrom(b.rest, names)
  }

  lemma {:induction false} StatementValue(e: Expr, env: Env, names: seq<string>, frame: seq<int>, fuel: nat)
    requires SimpleAssignment(e) && IntFrame(env, names, frame) && e.name in names && ReadsFrom(e.value, names) && Distinct(names)
    ensures var a := TreeOf(e, names);
            var v := A.RubyEval(a.expr, frame, map[]);
            && a.local < |frame|
            && (v.None? ==> Eval(e, env, fuel) == Raises)
            && (v.Some? ==> Eval(e, env, fuel) == Finished(IntV(v.value), env[e.name := IntV(v.value)])
                            && IntFrame(env[e.name := IntV(v.value)], names, frame[a.local := v.value]))
  {
    SimpleValue(e.value, env, names, frame, fuel);
    var x, k := A.RubyEval(Tree(e.value, names), frame, map[]), IndexOf(names, e.name);
    if e.Assign? {
      EvalUnfolds(e, env, fuel);
    } else {
      EvalUnfolds(e, env, fuel);
      assert A.RubyEval(A.Local(k), frame, map[]) == Some(frame[k]);
      assert Lookup(env, names[k]) == IntV(frame[k]);
      if x.Some? { ArithmeticIsRubyOp(e.op, frame[k], x.value); }
    }
  }

  /** Running the parsed list on the unbounded integers is evaluating the body. */
  lemma {:induction false} ParsedBodyRuns(b: Block, env: Env, names: seq<string>, frame: seq<int>, fuel: nat)
    requires StraightLine(b) && BlockReadsFrom(b, names) && IntFrame(env, names, frame) && Distinct(names)
    ensures W.InFrame(Trees(b, names), |frame|)
    ensures var r, o := W.RubyBody(Trees(b, names), frame, map[]), EvalBlock(b, env, fuel);
            if r.Some? then o.Finished? && IntFrame(o.env, names, r.value) else o == Raises
    decreases b
  {
    if b.Stmt? {
      StatementValue(b.first, env, names, frame, fuel);
      BlockOutcome(b, env, fuel);
      var a := TreeOf(b.first, names);
      var v := A.RubyEval(a.expr, frame, map[]);
      var rest := Trees(b.rest, names);
      assert Trees(b, names)[0] == a && Trees(b, names)[1..] == rest;
      InFrameRest(b, names, frame);
      if v.Some? {
        ParsedBodyRuns(b.rest, env[b.first.name := IntV(v.value)], names, frame[a.local := v.value], fuel);
      }
    }
  }

  lemma {:induction false} InFrameRest(b: Block, names: seq<string>, frame: seq<int>)
    requires StraightLine(b) && BlockReadsFrom(b, names) && |frame| == |names|
    ensures W.InFrame(Trees(b, names), |frame|)
    decreases b
  {
    if b.Stmt? {
      InFrameRest(b.rest, names, frame);
      assert forall i :: 0 < i < |Trees(b, names)| ==> Trees(b, names)[i] == Trees(b.rest, names)[i - 1];
    }
  }

  /** A linked body reads and writes only names of the program. */
  lemma {:induction false} LinkedReads(u: Tables, e: Expr, base: nat, t: Tables)
    requires Simple(e) && Linked(u, e, base, t)
    ensures ReadsFrom(e, u.names)
    decreases e
  {
    match e
    case Var(name) => SameSlot(name, t, u);
    case Infix(_, l, r) =>
      PairLinked(u, e, base, t);
      LinkedReads(u, l, base, t);
      LinkedReads(u, r, base + Size(GenExpr(l, base, t).code), GenExpr(l, base, t).tables);
    case Minus(x) =>
      NodeUnfolds(e, base, t);
      LinkedReads(u, x, base, t);
    case _ =>
  }

  lemma {:induction false} LinkedTarget(u: Tables, e: Expr, base: nat, t: Tables)
    requires SimpleAssignment(e) && Linked(u, e, base, t)
    ensures e.name in u.names && ReadsFrom(e.value, u.names)
  {
    var q := if e.Assign? then base else base + 2;
    NodeUnfolds(e, base, t);
    DefinedSlot(u, e.value, q, t, e.name);
    LinkedReads(u, e.value, q, WithLocal(t, e.name));
  }

  lemma {:induction false} LinkedBlockReads(u: Tables, b: Block, base: nat, t: Tables)
    requires StraightLine(b) && LinkedBlock(u, b, base, t)
    ensures BlockReadsFrom(b, u.names)
    decreases b
  {
    if b.Stmt? {
      BlockLinked(u, b, base, t);
      LinkedTarget(u, b.first, base, t);
      LinkedBlockReads(u, b.rest, base + Size(GenExpr(b.first, base, t).code) + 1, GenExpr(b.first, base, t).tables);
    }
  }

  /** Running the parsed list is running the stack code: from any state whose locals are the frame, the body's bytecode
      ends with the frame the list computes, or raises when the list does. */
  lemma {:induction false} ParsedBodyIsStackCode(p: Program, b: Block, base: nat, t: Tables, env: Env, frame: seq<int>, fuel: nat)
    returns (o: Outcome)
    requires StraightLine(b) && LinkedBlock(p.tables, b, base, t) && Distinct(p.tables.names)
    requires IntFrame(env, p.tables.names, frame)
    ensures Simulates(p, base, GenBlock(b, base, t).code, env, o, false, fuel)
    ensures W.InFrame(Trees(b, p.tables.names), |frame|)
    ensures var r := W.RubyBody(Trees(b, p.tables.names), frame, map[]);
            if r.Some? then o.Finished? && IntFrame(o.env, p.tables.names, r.value) else o == Raises
  {
    LinkedBlockReads(p.tables, b, base, t);
    SimBlock(p, b, base, t, env, fuel);
    ParsedBodyRuns(b, env, p.tables.names, frame, fuel);
    o := EvalBlock(b, env, fuel);
  }
}
