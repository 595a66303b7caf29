/** Ruby's run of a while plan, and which plans stay with integers. */
module AotWhileValues {
  // A body reads its own target's name, the names assigned above it, and the locals assigned before the loop. A target without
  // initial value is nil at first; any other name is unknown and raises. Whether a slot holds an integer does not depend on
  // the integers: it can be followed without running the loop.

  import opened Options
  import opened Int64
  import opened AotExpr
  import opened AotValidate
  import opened AotTimes
  import opened AotValues
  import opened AotWhile
  import M = Machine

  // ---------------------------------------------------------------- Ruby's run

  function ValueBody(body: seq<Assignment>, env: seq<Value>, known: set<nat>, ms: Methods): (r: Option<seq<Value>>)
    requires InFrame(body, |env|)
    ensures r.Some? ==> |r.value| == |env|
    decreases |body|
  {
    if body == [] then Some(env) else
    var names := known + {body[0].local};
    var v := ValueOf(body[0].expr, env, names, ms);
    if v.None? then None else ValueBody(body[1..], env[body[0].local := v.value], names, ms)
  }

  function ValueIterate(p: WhilePlan, k: nat): (r: Option<seq<Value>>)
    requires WellFormedWhile(p)
    ensures r.Some? ==> |r.value| == p.locals
  {
    if k == 0 then Some(ValueFrame(p.initial, p.locals)) else
    var before := ValueIterate(p, k - 1);
    if before.None? then None else ValueBody(p.body, before.value, p.initial.Keys, p.methods)
  }

  /** counter < limit, with the limit's own local if it has one; None when the comparison raises. */
  function ValueTest(p: WhilePlan, env: seq<Value>): Option<bool>
    requires WellFormedWhile(p) && |env| == p.locals
  {
    var bound := if p.limitLocal.Some? then env[p.limitLocal.value] else M.IntV(p.limit);
    if env[p.counter].IntV? && bound.IntV? then Some(env[p.counter].n < bound.n) else None
  }

  /** Ruby's loop ends after exactly n iterations. */
  ghost predicate ValueStops(p: WhilePlan, n: nat)
    requires WellFormedWhile(p)
  {
    forall k: nat :: k <= n ==> ValueIterate(p, k).Some? && ValueTest(p, ValueIterate(p, k).value) == Some(k < n)
  }

  ghost predicate RubyPrints(p: WhilePlan, v: int)
    requires WellFormedWhile(p)
  {
    exists n: nat :: ValueStops(p, n) && ValueIterate(p, n).value[p.result] == M.IntV(v)
  }

  // ---------------------------------------------------------------- following which slots hold integers

  /** Is the value an integer, when these locals hold integers and these names are known? None when evaluation raises. */
  function Numeric(e: Expr, ints: set<nat>, known: set<nat>, ms: Methods): Option<bool>
    decreases !CallFree(e), e
  {
    match e
    case Const(_) => Some(true)
    case Local(s) => if s in known then Some(s in ints) else None
    case Call(name, arg) =>
      if name !in ms then None else
      var a := Numeric(arg, ints, known, ms);
      if a.None? then None else Numeric(ms[name], if a.value then {0} else {}, {0}, ms)
    case Neg(x) => if Numeric(x, ints, known, ms) == Some(true) then Some(true) else None
    case Bin(op, l, r) =>
      var x, y := Numeric(l, ints, known, ms), Numeric(r, ints, known, ms);
      if x.None? || y.None? then None
      else if x.value && y.value then Some(true)
      else if !x.value && (op == BitAnd || op == BitOr || op == BitXor) then Some(false)
      else None
  }

  function NumericBody(body: seq<Assignment>, ints: set<nat>, known: set<nat>, ms: Methods): Option<set<nat>>
    decreases |body|
  {
    if body == [] then Some(ints) else
    var names := known + {body[0].local};
    var v := Numeric(body[0].expr, ints, names, ms);
    if v.None? then None
    else NumericBody(body[1..], if v.value then ints + {body[0].local} else ints - {body[0].local}, names, ms)
  }

  function NumericIterate(p: WhilePlan, k: nat): Option<set<nat>> {
    if k == 0 then Some(p.initial.Keys) else
    var before := NumericIterate(p, k - 1);
    if before.None? then None else NumericBody(p.body, before.value, p.initial.Keys, p.methods)
  }

  /** n iterations raise nothing, the counter stays an integer, and so is the printed local at the end. */
  ghost predicate NumbersOnly(p: WhilePlan, n: nat) {
    && (forall k: nat :: k <= n ==> NumericIterate(p, k).Some? && p.counter in NumericIterate(p, k).value)
    && p.result in NumericIterate(p, n).value
  }

  /** Which slots hold integers settles: once an iteration changes nothing, no later one does. There are finitely many sets of
      slots, so NumbersOnly is decided without running the loop. */
  lemma {:induction false} NumericSettles(p: WhilePlan, k: nat, n: nat)
    requires k <= n && NumericIterate(p, k + 1) == NumericIterate(p, k)
    ensures NumericIterate(p, n) == NumericIterate(p, k)
  {
    if n > k { NumericSettles(p, k, n - 1); }
  }

  /** Ruby's values and the integers of the machine's frame, where they agree. */
  predicate Represents(env: seq<Value>, ints: set<nat>, locals: seq<int>) {
    && |env| == |locals|
    && (forall s :: 0 <= s < |env| && s in ints ==> env[s] == M.IntV(locals[s]))
    && (forall s :: 0 <= s < |env| && s !in ints ==> !env[s].IntV?)
  }

  predicate Follows(v: Option<Value>, numeric: Option<bool>, x: int) {
    match numeric
    case None => v == None
    case Some(true) => v == Some(M.IntV(x))
    case Some(false) => v.Some? && !v.value.IntV?
  }

  lemma {:induction false} NumericFollows(e: Expr, env: seq<Value>, ints: set<nat>, known: set<nat>, locals: seq<int>, ms: Methods)
    requires Represents(env, ints, locals) && RubyEval(e, locals, ms).Some?
    ensures Follows(ValueOf(e, env, known, ms), Numeric(e, ints, known, ms), RubyEval(e, locals, ms).value)
    decreases !CallFree(e), e
  {
    match e
    case Const(_) =>
    case Local(_) =>
    case Call(name, arg) =>
      NumericFollows(arg, env, ints, known, locals, ms);
      var a, v := Numeric(arg, ints, known, ms), ValueOf(arg, env, known, ms);
      if a.Some? {
        NumericFollows(ms[name], [v.value], if a.value then {0} else {}, {0}, [RubyEval(arg, locals, ms).value], ms);
      }
    case Neg(x) => NumericFollows(x, env, ints, known, locals, ms);
    case Bin(op, l, r) =>
      NumericFollows(l, env, ints, known, locals, ms);
      NumericFollows(r, env, ints, known, locals, ms);
  }

  lemma {:induction false} BodyFollows(body: seq<Assignment>, env: seq<Value>, ints: set<nat>, known: set<nat>, locals: seq<int>, ms: Methods)
    requires InFrame(body, |env|) && Represents(env, ints, locals) && RubyBody(body, locals, ms).Some?
    ensures var r, v := NumericBody(body, ints, known, ms), ValueBody(body, env, known, ms);
            && (r.None? ==> v == None)
            && (r.Some? ==> v.Some? && Represents(v.value, r.value, RubyBody(body, locals, ms).value))
    decreases |body|
  {
    if body != [] {
      var names, s := known + {body[0].local}, body[0].local;
      NumericFollows(body[0].expr, env, ints, names, locals, ms);
      var x, v := Numeric(body[0].expr, ints, names, ms), ValueOf(body[0].expr, env, names, ms);
      if x.Some? {
        BodyFollows(body[1..], env[s := v.value], if x.value then ints + {s} else ints - {s}, names,
                    locals[s := RubyEval(body[0].expr, locals, ms).value], ms);
      }
    }
  }

  /** Ruby's state after k iterations, known from the machine's integers and the slots that hold integers. */
  lemma {:induction false} IterateFollows(p: WhilePlan, k: nat)
    requires WellFormedWhile(p) && RubyIterate(p, k).Some?
    ensures var r, v := NumericIterate(p, k), ValueIterate(p, k);
            && (r.None? ==> v == None)
            && (r.Some? ==> v.Some? && Represents(v.value, r.value, RubyIterate(p, k).value))
  {
    if k > 0 {
      IterateFollows(p, k - 1);
      if NumericIterate(p, k - 1).Some? {
        BodyFollows(p.body, ValueIterate(p, k - 1).value, NumericIterate(p, k - 1).value, p.initial.Keys, RubyIterate(p, k - 1).value, p.methods);
      }
    }
  }

  // ---------------------------------------------------------------- the limit

  /** The limit does not move. The bytecode builder checks it, the source builder does not. */
  predicate LimitFixed(p: WhilePlan) {
    p.limitLocal.Some? ==> p.limitLocal.value !in Writes(p.body)
  }

  lemma {:induction false} Unwritten(body: seq<Assignment>, ints: set<nat>, known: set<nat>, locals: seq<int>, ms: Methods, s: nat)
    requires InFrame(body, |locals|) && s < |locals| && forall i :: 0 <= i < |body| ==> body[i].local != s
    ensures RubyBody(body, locals, ms).Some? ==> RubyBody(body, locals, ms).value[s] == locals[s]
    ensures NumericBody(body, ints, known, ms).Some? ==> (s in NumericBody(body, ints, known, ms).value <==> s in ints)
    decreases |body|
  {
    if body != [] {
      var names, t := known + {body[0].local}, body[0].local;
      var v, x := RubyEval(body[0].expr, locals, ms), Numeric(body[0].expr, ints, names, ms);
      var next := if x == Some(true) then ints + {t} else ints - {t};
      Unwritten(body[1..], next, names, if v.Some? then locals[t := v.value] else locals, ms, s);
    }
  }

  lemma {:induction false} LimitStays(p: WhilePlan, k: nat)
    requires WellFormedWhile(p) && LimitFixed(p) && p.limitLocal.Some? && RubyIterate(p, k).Some?
    ensures RubyIterate(p, k).value[p.limitLocal.value] == p.limit
    ensures NumericIterate(p, k).Some? ==> p.limitLocal.value in NumericIterate(p, k).value
  {
    if k > 0 {
      LimitStays(p, k - 1);
      var ints := if NumericIterate(p, k - 1).Some? then NumericIterate(p, k - 1).value else {};
      assert forall i :: 0 <= i < |p.body| ==> p.body[i].local in Writes(p.body);
      Unwritten(p.body, ints, p.initial.Keys, RubyIterate(p, k - 1).value, p.methods, p.limitLocal.value);
    }
  }

  /** Ruby's test, where the counter is an integer and where it is not. */
  lemma {:induction false} TestFollows(p: WhilePlan, k: nat)
    requires WellFormedWhile(p) && LimitFixed(p) && RubyIterate(p, k).Some? && NumericIterate(p, k).Some?
    ensures ValueIterate(p, k).Some?
    ensures ValueTest(p, ValueIterate(p, k).value) ==
            if p.counter in NumericIterate(p, k).value then Some(RubyIterate(p, k).value[p.counter] < p.limit) else None
  {
    IterateFollows(p, k);
    if p.limitLocal.Some? { LimitStays(p, k); }
  }

  // ---------------------------------------------------------------- what Ruby prints

  /** Where the loop on integers stops after n iterations, Ruby prints an integer if and only if only numbers are met, and then
      the same integer. */
  lemma {:induction false} NumbersOnlyIff(p: WhilePlan, n: nat)
    requires WellFormedWhile(p) && LimitFixed(p) && RubyStops(p, n)
    ensures NumbersOnly(p, n) ==> RubyPrints(p, RubyIterate(p, n).value[p.result])
    ensures forall v: int :: RubyPrints(p, v) ==> NumbersOnly(p, n) && v == RubyIterate(p, n).value[p.result]
  {
    if NumbersOnly(p, n) {
      forall k: nat | k <= n ensures ValueIterate(p, k).Some? && ValueTest(p, ValueIterate(p, k).value) == Some(k < n) {
        TestFollows(p, k);
      }
      assert ValueStops(p, n);
      IterateFollows(p, n);
    }
    forall v: int | RubyPrints(p, v) ensures NumbersOnly(p, n) && v == RubyIterate(p, n).value[p.result] {
      var m: nat :| ValueStops(p, m) && ValueIterate(p, m).value[p.result] == M.IntV(v);
      PrintedAfter(p, n, m);
      IterateFollows(p, n);
    }
  }

  /** Ruby's loop can only stop where the loop on integers does. */
  lemma {:induction false} PrintedAfter(p: WhilePlan, n: nat, m: nat)
    requires WellFormedWhile(p) && LimitFixed(p) && RubyStops(p, n) && ValueStops(p, m)
    ensures m == n
    ensures forall k: nat :: k <= n ==> NumericIterate(p, k).Some? && p.counter in NumericIterate(p, k).value
  {
    forall k: nat | k <= n && k <= m
      ensures NumericIterate(p, k).Some? && p.counter in NumericIterate(p, k).value && (k < n <==> k < m)
    {
      IterateFollows(p, k);
      assert ValueIterate(p, k).Some? && ValueTest(p, ValueIterate(p, k).value) == Some(k < m);
      TestFollows(p, k);
    }
    var k := if m < n then m else n;
    assert NumericIterate(p, k).Some?;
  }

  // ---------------------------------------------------------------- a condition on the text alone

  /** Every local a statement reads has an initial value or was assigned above it. */
  predicate AssignedFirst(body: seq<Assignment>, known: set<nat>)
    decreases |body|
  {
    body != [] ==> ReadsOnly(body[0].expr, known) && AssignedFirst(body[1..], known + {body[0].local})
  }

  lemma {:induction false} ReadsOnlyNumeric(e: Expr, ints: set<nat>, known: set<nat>, locals: seq<int>, ms: Methods)
    requires ReadsOnly(e, ints) && ints <= known && RubyEval(e, locals, ms).Some?
    ensures Numeric(e, ints, known, ms) == Some(true)
    decreases !CallFree(e), e
  {
    match e
    case Const(_) =>
    case Local(_) =>
    case Call(name, arg) =>
      ReadsOnlyNumeric(arg, ints, known, locals, ms);
      var a := RubyEval(arg, locals, ms).value;
      ParameterOnly(ms[name], a, ms);
      ReadsOnlyNumeric(ms[name], {0}, {0}, [a], ms);
    case Neg(x) => ReadsOnlyNumeric(x, ints, known, locals, ms);
    case Bin(op, l, r) =>
      ReadsOnlyNumeric(l, ints, known, locals, ms);
      ReadsOnlyNumeric(r, ints, known, locals, ms);
  }

  lemma {:induction false} ParameterOnly(body: Expr, a: int, ms: Methods)
    requires CallFree(body) && RubyEval(body, [a], ms).Some?
    ensures ReadsOnly(body, {0})
  {
    match body
    case Neg(x) => ParameterOnly(x, a, ms);
    case Bin(_, l, r) =>
      ParameterOnly(l, a, ms);
      ParameterOnly(r, a, ms);
    case _ =>
  }

  lemma {:induction false} AssignedFirstBody(body: seq<Assignment>, ints: set<nat>, known: set<nat>, locals: seq<int>, ms: Methods)
    requires InFrame(body, |locals|) && AssignedFirst(body, known) && known <= ints && RubyBody(body, locals, ms).Some?
    ensures NumericBody(body, ints, known, ms) == Some(ints + Writes(body))
    decreases |body|
  {
    if body == [] {
      assert ints + Writes(body) == ints;
    } else {
      var s := body[0].local;
      ReadsOnlyNumeric(body[0].expr, known, known + {s}, locals, ms);
      MoreInts(body[0].expr, known, ints, known + {s}, ms);
      AssignedFirstBody(body[1..], ints + {s}, known + {s}, locals[s := RubyEval(body[0].expr, locals, ms).value], ms);
      WritesTail(body);
      assert ints + {s} + Writes(body[1..]) == ints + Writes(body);
    }
  }

  lemma {:induction false} WritesTail(body: seq<Assignment>)
    requires body != []
    ensures Writes(body) == {body[0].local} + Writes(body[1..])
  {
    forall s | s in Writes(body) ensures s in {body[0].local} + Writes(body[1..]) {
      var i :| 0 <= i < |body| && body[i].local == s;
      if i > 0 { assert body[1..][i - 1].local == s; }
    }
    forall s | s in Writes(body[1..]) ensures s in Writes(body) {
      var i :| 0 <= i < |body[1..]| && body[1..][i].local == s;
      assert body[i + 1].local == s;
    }
  }

  /** An expression of known integers stays one when more slots hold integers. */
  lemma {:induction false} MoreInts(e: Expr, ints: set<nat>, more: set<nat>, known: set<nat>, ms: Methods)
    requires ReadsOnly(e, ints) && ints <= more && Numeric(e, ints, known, ms) == Some(true)
    ensures Numeric(e, more, known, ms) == Some(true)
  {
    SameNumeric(e, ints, more, known, ms);
  }

  lemma {:induction false} SameNumeric(e: Expr, ints: set<nat>, more: set<nat>, known: set<nat>, ms: Methods)
    requires ReadsOnly(e, ints) && ints <= more
    ensures Numeric(e, more, known, ms) == Numeric(e, ints, known, ms)
  {
    match e
    case Const(_) =>
    case Local(_) =>
    case Call(_, arg) => SameNumeric(arg, ints, more, known, ms);
    case Neg(x) => SameNumeric(x, ints, more, known, ms);
    case Bin(_, l, r) =>
      SameNumeric(l, ints, more, known, ms);
      SameNumeric(r, ints, more, known, ms);
  }

  /** If every local is assigned before it is read, only numbers are met; a loop that does not run needs an initial value for the
      printed local. */
  lemma {:induction false} AssignedFirstIsNumeric(p: WhilePlan, n: nat)
    requires WellFormedWhile(p) && RubyStops(p, n) && AssignedFirst(p.body, p.initial.Keys)
    ensures NumbersOnly(p, n) <==> n > 0 || p.result in p.initial
  {
    forall k: nat | k <= n ensures NumericIterate(p, k) == Some(if k == 0 then p.initial.Keys else p.initial.Keys + Writes(p.body)) {
      AssignedFirstIterate(p, n, k);
    }
  }

  lemma {:induction false} AssignedFirstIterate(p: WhilePlan, n: nat, k: nat)
    requires WellFormedWhile(p) && RubyStops(p, n) && AssignedFirst(p.body, p.initial.Keys) && k <= n
    ensures NumericIterate(p, k) == Some(if k == 0 then p.initial.Keys else p.initial.Keys + Writes(p.body))
  {
    if k > 0 {
      AssignedFirstIterate(p, n, k - 1);
      assert RubyIterate(p, k - 1).Some? && RubyIterate(p, k).Some?;
      AssignedFirstBody(p.body, NumericIterate(p, k - 1).value, p.initial.Keys, RubyIterate(p, k - 1).value, p.methods);
      assert p.initial.Keys + Writes(p.body) + Writes(p.body) == p.initial.Keys + Writes(p.body);
    }
  }

  /** Arithmetic that raises on anything but integers, and is not a bare copy of its own target. */
  predicate Strict(a: Assignment) {
    StrictExpr(a.expr) && a.expr != Local(a.local)
  }

  predicate StrictExpr(e: Expr) {
    match e
    case Const(_) => true
    case Local(_) => true
    case Call(_, _) => false
    case Neg(x) => StrictExpr(x)
    case Bin(op, l, r) => op != BitAnd && op != BitOr && op != BitXor && StrictExpr(l) && StrictExpr(r)
  }

  lemma {:induction false} StrictNumeric(e: Expr, ints: set<nat>, known: set<nat>, ms: Methods)
    requires StrictExpr(e) && Numeric(e, ints, known, ms).Some?
    ensures Numeric(e, ints, known, ms) == Some(true) ==> ReadsOnly(e, ints)
    ensures Numeric(e, ints, known, ms) == Some(false) ==> e.Local? && e.slot in known && e.slot !in ints
  {
    match e
    case Neg(x) => StrictNumeric(x, ints, known, ms);
    case Bin(_, l, r) =>
      StrictNumeric(l, ints, known, ms);
      StrictNumeric(r, ints, known, ms);
    case _ =>
  }

  lemma {:induction false} StrictBody(body: seq<Assignment>, known: set<nat>, ms: Methods)
    requires (forall i :: 0 <= i < |body| ==> Strict(body[i])) && NumericBody(body, known, known, ms).Some?
    ensures AssignedFirst(body, known)
    decreases |body|
  {
    if body != [] {
      StrictNumeric(body[0].expr, known, known + {body[0].local}, ms);
      StrictBody(body[1..], known + {body[0].local}, ms);
    }
  }

  /** For plain arithmetic the condition on the text is exact: a loop that runs meets only numbers if and only if every local is
      assigned before it is read. */
  lemma {:induction false} StrictIff(p: WhilePlan, n: nat)
    requires WellFormedWhile(p) && RubyStops(p, n) && n > 0 && forall i :: 0 <= i < |p.body| ==> Strict(p.body[i])
    ensures NumbersOnly(p, n) <==> AssignedFirst(p.body, p.initial.Keys)
  {
    if NumbersOnly(p, n) {
      assert NumericIterate(p, 1).Some? && NumericIterate(p, 0) == Some(p.initial.Keys);
      StrictBody(p.body, p.initial.Keys, p.methods);
    }
    if AssignedFirst(p.body, p.initial.Keys) { AssignedFirstIsNumeric(p, n); }
  }
}
