/** Laws of the operators. */
module Operators {
  // The operators that evaluation and the machine share. Each law is between operators, so that none is its own definition.

  import opened Options
  import opened Int64
  import opened Bits
  import opened Bytecode
  import opened Machine

  /** The operator answers true. */
  predicate Holds(op: BinOp, x: Value, y: Value) {
    Operate(op, x, y) == Some(BoolV(true))
  }

  predicate Fails(op: BinOp, x: Value, y: Value) {
    Operate(op, x, y) == Some(BoolV(false))
  }

  /** Nil and false. */
  predicate Untrue(v: Value) {
    Holds(OpEqual, v, NilV) || Holds(OpEqual, v, BoolV(false))
  }

  /** The integers are ordered by addition: a number is below another exactly when a positive one leads from it to the other. */
  lemma {:induction false} OrderIsAddition(x: int, y: int, k: nat)
    ensures Holds(OpLess, IntV(x), Operate(OpAdd, IntV(x), IntV(k + 1)).value)
    ensures Fails(OpLess, IntV(x), IntV(x)) && (Holds(OpLess, IntV(x), IntV(y)) ==> Fails(OpLess, IntV(y), IntV(x)))
    ensures Holds(OpLess, IntV(x), IntV(y)) || Holds(OpEqual, IntV(x), IntV(y)) || Holds(OpLess, IntV(y), IntV(x))
  {
    if x < y { } else if x == y { } else { assert y < x; }
  }

  /** The other comparisons follow from that one. */
  lemma {:induction false} Comparisons(x: int, y: int)
    ensures Operate(OpGreater, IntV(x), IntV(y)) == Operate(OpLess, IntV(y), IntV(x))
    ensures Holds(OpLessEqual, IntV(x), IntV(y)) <==> Fails(OpGreater, IntV(x), IntV(y))
    ensures Holds(OpGreaterEqual, IntV(x), IntV(y)) <==> Fails(OpLess, IntV(x), IntV(y))
    ensures Fails(OpLessEqual, IntV(x), IntV(y)) <==> Holds(OpGreater, IntV(x), IntV(y))
    ensures Fails(OpGreaterEqual, IntV(x), IntV(y)) <==> Holds(OpLess, IntV(x), IntV(y))
  {
  }

  /** Equality never raises, is an equivalence that tells the kinds of values apart, and inequality is its negation. */
  lemma {:induction false} Equality(x: Value, y: Value, z: Value)
    ensures Holds(OpEqual, x, x) && (Holds(OpEqual, x, y) || Fails(OpEqual, x, y))
    ensures (Holds(OpEqual, x, y) ==> Holds(OpEqual, y, x)) && (Holds(OpEqual, x, y) && Holds(OpEqual, y, z) ==> Holds(OpEqual, x, z))
    ensures Holds(OpEqual, x, y) ==> (x.IntV? <==> y.IntV?) && (x.NilV? <==> y.NilV?)
    ensures x.IntV? && y.IntV? && Holds(OpEqual, x, y) ==> Operate(OpSub, x, y) == Some(IntV(0))
    ensures Holds(OpNotEqual, x, y) <==> Fails(OpEqual, x, y)
  {
  }

  /** Quotient and remainder put the dividend together again; the remainder lies between zero and the divisor, on the divisor's side.
      Both raise on zero. */
  lemma {:induction false} Division(x: int, y: int)
    ensures y == 0 ==> Operate(OpDiv, IntV(x), IntV(y)) == None == Operate(OpMod, IntV(x), IntV(y))
    ensures y != 0 ==>
              var q, r := Operate(OpDiv, IntV(x), IntV(y)), Operate(OpMod, IntV(x), IntV(y));
              && q.Some? && r.Some? && q.value.IntV? && r.value.IntV?
              && x == q.value.n * y + r.value.n && (if y > 0 then 0 <= r.value.n < y else y < r.value.n <= 0)
  {
    if y != 0 { FloorParts(x, y); }
  }

  lemma {:induction false} FloorParts(x: int, y: int)
    requires y != 0
    ensures x == FloorDiv(x, y) * y + FloorMod(x, y) && (if y > 0 then 0 <= FloorMod(x, y) < y else y < FloorMod(x, y) <= 0)
  {
  }

  /** On anything but integers the bit operators work on truth: conjunction, disjunction and their difference. */
  lemma {:induction false} LogicalBits(x: Value, y: Value)
    requires !x.IntV?
    ensures Holds(OpBitAnd, x, y) <==> !Untrue(x) && !Untrue(y)
    ensures Fails(OpBitOr, x, y) <==> Untrue(x) && Untrue(y)
    ensures Holds(OpBitXor, x, y) <==> Holds(OpBitOr, x, y) && Fails(OpBitAnd, x, y)
  {
  }

  /** An operator raises exactly on a division by zero, and on operands of the wrong kind. */
  lemma {:induction false} RaisesIff(op: BinOp, x: Value, y: Value)
    ensures Operate(op, x, y).None? <==>
            && op != OpEqual && op != OpNotEqual
            && if x.IntV? then !y.IntV? || ((op == OpDiv || op == OpMod) && y == IntV(0))
               else op != OpBitAnd && op != OpBitOr && op != OpBitXor
  {
  }

  /** Ruby's truth: the branch of an if is taken on every value that is neither nil nor false. */
  lemma {:induction false} BranchTaken(pc: nat, target: nat, v: Value, stack: seq<Value>, locals: seq<Value>)
    ensures var s := Running(pc, stack + [v], locals);
            Execute(JumpNotTruthy(target), [], s) == Running(if Untrue(v) then target else pc + 3, stack, locals)
  {
    UntrueIff(v);
    hide Operate, Truthy, Untrue;
    assert (stack + [v])[..|stack|] == stack && (stack + [v])[|stack|] == v;
  }

  lemma {:induction false} UntrueIff(v: Value)
    ensures Untrue(v) <==> !Truthy(v)
  {
  }
}
