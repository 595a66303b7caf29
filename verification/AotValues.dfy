/** Ruby's run of a plan: locals may be nil or unknown. */
module AotValues {
  // The machine's frame has a zero wherever a local has no initial value. Ruby has nil there once the name has been assigned
  // to further up in the text, and otherwise no such local at all: reading it raises.

  import opened Options
  import opened Int64
  import opened AotExpr
  import opened AotLoops
  import opened AotValidate
  import opened AotCounted
  import M = Machine

  type Value = M.Value

  function OfInt(v: Option<int>): Option<Value> {
    if v.None? then None else Some(M.IntV(v.value))
  }

  /** Operators on Ruby values: nil and booleans know only &, | and ^. */
  function ValueOp(op: Op, x: Value, y: Value): Option<Value> {
    if x.IntV? then (if y.IntV? then OfInt(RubyOp(op, x.n, y.n)) else None)
    else
      match op
      case BitAnd => Some(M.BoolV(M.Truthy(x) && M.Truthy(y)))
      case BitOr => Some(M.BoolV(M.Truthy(x) || M.Truthy(y)))
      case BitXor => Some(M.BoolV(M.Truthy(x) != M.Truthy(y)))
      case _ => None
  }

  /** What Ruby computes when only these locals are known; None when it raises. */
  function ValueOf(e: Expr, env: seq<Value>, known: set<nat>, ms: Methods): Option<Value>
    decreases !CallFree(e), e
  {
    match e
    case Const(v) => Some(M.IntV(v))
    case Local(s) => if s in known && s < |env| then Some(env[s]) else None
    case Call(name, arg) =>
      if name !in ms then None else
      var a := ValueOf(arg, env, known, ms);
      if a.None? then None else ValueOf(ms[name], [a.value], {0}, ms)
    case Neg(x) =>
      var v := ValueOf(x, env, known, ms);
      if v.None? || !v.value.IntV? then None else Some(M.IntV(-v.value.n))
    case Bin(op, l, r) =>
      var x := ValueOf(l, env, known, ms);
      if x.None? then None else
      var y := ValueOf(r, env, known, ms);
      if y.None? then None else ValueOp(op, x.value, y.value)
  }

  /** Every local that e reads is one of these. */
  predicate ReadsOnly(e: Expr, known: set<nat>) {
    match e
    case Const(_) => true
    case Local(s) => s in known
    case Call(_, arg) => ReadsOnly(arg, known)
    case Neg(x) => ReadsOnly(x, known)
    case Bin(_, l, r) => ReadsOnly(l, known) && ReadsOnly(r, known)
  }

  /** Expressions evaluate all their parts, so an unknown local raises wherever it stands. */
  lemma {:induction false} UnknownRaises(e: Expr, env: seq<Value>, known: set<nat>, ms: Methods)
    requires !ReadsOnly(e, known)
    ensures ValueOf(e, env, known, ms) == None
  {
    match e
    case Call(_, arg) => UnknownRaises(arg, env, known, ms);
    case Neg(x) => UnknownRaises(x, env, known, ms);
    case Bin(_, l, r) => if !ReadsOnly(l, known) { UnknownRaises(l, env, known, ms); } else { UnknownRaises(r, env, known, ms); }
    case _ =>
  }

  /** The known locals hold these integers. */
  predicate KnownFrame(env: seq<Value>, known: set<nat>, locals: seq<int>) {
    |env| == |locals| && forall s :: s in known && s < |env| ==> env[s] == M.IntV(locals[s])
  }

  lemma {:induction false} KnownValue(e: Expr, env: seq<Value>, known: set<nat>, locals: seq<int>, ms: Methods)
    requires ReadsOnly(e, known) && KnownFrame(env, known, locals)
    ensures ValueOf(e, env, known, ms) == OfInt(RubyEval(e, locals, ms))
    decreases !CallFree(e), e
  {
    match e
    case Const(_) =>
    case Local(_) =>
    case Call(name, arg) =>
      KnownValue(arg, env, known, locals, ms);
      var a := RubyEval(arg, locals, ms);
      if name in ms && a.Some? { ParameterValue(ms[name], a.value, ms); }
    case Neg(x) => KnownValue(x, env, known, locals, ms);
    case Bin(_, l, r) =>
      KnownValue(l, env, known, locals, ms);
      KnownValue(r, env, known, locals, ms);
  }

  /** A method body knows its parameter only, and has no other slot. */
  lemma {:induction false} ParameterValue(body: Expr, a: int, ms: Methods)
    requires CallFree(body)
    ensures ValueOf(body, [M.IntV(a)], {0}, ms) == OfInt(RubyEval(body, [a], ms))
  {
    match body
    case Const(_) =>
    case Local(_) =>
    case Neg(x) => ParameterValue(x, a, ms);
    case Bin(_, l, r) =>
      ParameterValue(l, a, ms);
      ParameterValue(r, a, ms);
  }

  // ---------------------------------------------------------------- counted loops

  /** The initial values; every other slot is nil. */
  function ValueFrame(initial: Initials, locals: nat): (env: seq<Value>)
    ensures |env| == locals
    ensures forall s :: s in initial && s < locals ==> env[s] == M.IntV(initial[s])
    ensures forall s :: 0 <= s < locals && s !in initial ==> env[s] == M.NilV
  {
    seq(locals, i requires 0 <= i => if i in initial then M.IntV(initial[i]) else M.NilV)
  }

  /** Ruby's locals after k iterations of a block with these names in sight. */
  function ValueRun(l: Loop, env: seq<Value>, known: set<nat>, k: nat): (r: Option<seq<Value>>)
    requires l.sum < |env| && l.counter < |env|
    ensures r.Some? ==> |r.value| == |env|
  {
    if k == 0 then Some(env) else
    var before := ValueRun(l, env, known, k - 1);
    if before.None? then None else
    var frame := before.value[l.counter := M.IntV(At(l.start, l.step, k - 1))];
    var v := ValueOf(l.expr, frame, known, l.methods);
    if v.None? then None else Some(frame[l.sum := v.value])
  }

  /** A block that reads only known locals runs as on integers. */
  lemma {:induction false} KnownRun(l: Loop, env: seq<Value>, known: set<nat>, locals: seq<int>, k: nat)
    requires l.sum < |env| && l.counter < |env| && ReadsOnly(l.expr, known) && KnownFrame(env, known - {l.counter}, locals)
    ensures RubyRun(l, locals, k).Some? <==> ValueRun(l, env, known, k).Some?
    ensures RubyRun(l, locals, k).Some? ==>
              KnownFrame(ValueRun(l, env, known, k).value, if k == 0 then known - {l.counter} else known, RubyRun(l, locals, k).value)
  {
    if k > 0 {
      KnownRun(l, env, known, locals, k - 1);
      if RubyRun(l, locals, k - 1).Some? {
        var c := At(l.start, l.step, k - 1);
        KnownValue(l.expr, ValueRun(l, env, known, k - 1).value[l.counter := M.IntV(c)], known,
                   RubyRun(l, locals, k - 1).value[l.counter := c], l.methods);
      }
    }
  }

  /** A block that reads any other local raises in its first iteration. */
  lemma {:induction false} UnknownRun(l: Loop, env: seq<Value>, known: set<nat>, k: nat)
    requires l.sum < |env| && l.counter < |env| && !ReadsOnly(l.expr, known) && k > 0
    ensures ValueRun(l, env, known, k) == None
  {
    if k == 1 {
      UnknownRaises(l.expr, env[l.counter := M.IntV(At(l.start, l.step, 0))], known, l.methods);
      assert ValueRun(l, env, known, 0) == Some(env);
    } else {
      UnknownRun(l, env, known, k - 1);
    }
  }
}
