/** The checked evaluator is exact. */
module AotChecked {
  // It accepts exactly the expressions that never leave int64, and then all evaluators agree.

  import opened Options
  import opened Int64
  import opened Bits
  import opened AotExpr

  lemma {:induction false} TruncBelow(m: int, y: int, x: int)
    requires m >= 0 && y > 0
    ensures x > TruncDiv(m, y) <==> x * y > m
  {
    var q := m / y;
    assert m == q * y + m % y;
    AtLeast(x - q, y);
    AtLeast(q - x + 1, y);
    assert (x - q) * y == x * y - q * y;
    assert (q - x + 1) * y == q * y - x * y + y;
  }

  lemma {:induction false} AtLeast(k: int, y: int)
    requires y >= 0
    ensures k >= 1 ==> k * y >= y
  {
    if k >= 1 { assert k * y == (k - 1) * y + y; }
  }

  /** The division guards are exact: they fire if and only if the product leaves int64. */
  lemma {:induction false} MulGuardExact(x: int64, y: int64)
    requires x != 0 && y != 0 && !(x == -1 && y == MIN) && !(y == -1 && x == MIN)
    ensures MulGuard(x, y) <==> !Fits(x * y)
  {
    var a: int, b: int := x, y;
    assert (-a) * b == -(a * b) && a * (-b) == -(a * b) && (-a) * (-b) == a * b;
    if a > 0 && b > 0 {
      TruncBelow(MAX, b, a);
      AtLeast(a, b);
    } else if a > 0 {
      TruncBelow(-MIN, a, -b);
      AtLeast(a, -b);
    } else if b > 0 {
      TruncBelow(-MIN, b, -a);
      AtLeast(-a, b);
    } else {
      TruncBelow(MAX, -b, -a);
      AtLeast(-a, -b);
    }
  }

  lemma {:induction false} FloorShiftFits(x: int64, p: int)
    requires p >= 1
    ensures Fits(FloorDiv(x, p))
  {
    var k := x / p;
    assert x == k * p + x % p;
    AtLeast(k, p);
    AtLeast(-k, p);
    AtLeast(k, p - 1);
    AtLeast(-k, p - 1);
    assert (-k) * p == -(k * p) && k * (p - 1) == k * p - k && (-k) * (p - 1) == k - k * p;
  }

  /** Shifting left and back recovers the operand exactly when nothing was lost. */
  lemma {:induction false} ShiftGuardExact(x: int64, y: nat)
    requires y < 64
    ensures FloorDiv(Wrap(x * Pow2(y)), Pow2(y)) == x <==> Fits(x * Pow2(y))
  {
    var p := Pow2(y);
    WrapSame(x * p);
    var q := SameQuotient(Wrap(x * p), x * p);
    Pow2Product(y, WORD);
    var m := Pow2(WORD - y);
    LostBits(x, p, m, q);
  }

  lemma {:induction false} LostBits(x: int, p: int, m: int, q: int)
    requires p >= 1 && m >= 1 && MODULUS == m * p
    requires Wrap(x * p) == x * p + q * MODULUS
    ensures FloorDiv(Wrap(x * p), p) == x <==> Wrap(x * p) == x * p
  {
    assert q * (m * p) == (q * m) * p;
    assert (x + q * m) * p == x * p + (q * m) * p;
    ExactQuotient(x + q * m, p);
    NonZeroProduct(q, m);
  }

  lemma {:induction false} Pow2Product(y: nat, w: nat)
    requires w == 64 && y < w
    ensures MODULUS == Pow2(w - y) * Pow2(y)
  {
    Pow2Is64(w);
    Pow2Add(w - y, y);
  }

  lemma {:induction false} NonZeroProduct(q: int, m: int)
    requires m >= 1
    ensures q * m == 0 <==> q == 0
  {
    AtLeast(q, m);
    AtLeast(-q, m);
    assert (-q) * m == -(q * m);
  }

  lemma {:induction false} ExactQuotient(a: int, p: int)
    requires p >= 1
    ensures FloorDiv(a * p, p) == a
  {
    Unique(a * p, p, (a * p) / p, (a * p) % p, a, 0);
  }

  lemma {:induction false} FloorModFits(x: int64, y: int64)
    requires y != 0
    ensures Fits(FloorMod(x, y))
  {
    FloorModRange(x, y);
  }

  lemma {:induction false} CheckedMulExact(x: int64, y: int64)
    ensures CheckedOp(Mul, x, y) == if Fits(x * y) then RubyOp(Mul, x, y) else None
  {
    if x != 0 && y != 0 && !(x == -1 && y == MIN) && !(y == -1 && x == MIN) { MulGuardExact(x, y); }
  }

  /** One operator: the checked form answers iff the Ruby value exists, is legal and fits, and then with that value. */
  lemma {:induction false} CheckedOpExact(op: Op, x: int64, y: int64)
    ensures CheckedOp(op, x, y) ==
            if LegalOperands(op, y) && Fits(RubyOp(op, x, y).value) then RubyOp(op, x, y) else None
  {
    match op
    case Add =>
    case Sub =>
    case Mul => CheckedMulExact(x, y);
    case Mod => if y != 0 { CorrectedRemainder(x, y); FloorModFits(x, y); }
    case BitAnd | BitOr | BitXor => Word64IsBitwise(BitOpOf(op), x, y);
    case ShiftRight => if 0 <= y < 64 { FloorShiftFits(x, Pow2(y)); }
    case ShiftLeft => if 0 <= y < 64 { ShiftGuardExact(x, y); }
    case Other =>
  }

  /** The unchecked form agrees wherever the checked one answers. */
  lemma {:induction false} UncheckedOpAgrees(op: Op, x: int64, y: int64)
    requires CheckedOp(op, x, y).Some?
    ensures UncheckedOp(op, x, y) == CheckedOp(op, x, y)
  {
    CheckedOpExact(op, x, y);
  }

  /** evaluateExpressionWithMethods succeeds if and only if every node's unbounded value fits int64 (with a nonzero
      modulus and legal shifts), and then returns the Ruby value. */
  lemma {:induction false} CheckedExact(e: Expr, locals: seq<int64>, ms: Methods)
    ensures Checked(e, locals, ms) == if Safe(e, locals, ms) then RubyEval(e, locals, ms) else None
    decreases !CallFree(e), e
  {
    match e
    case Const(_) =>
    case Local(_) =>
    case Call(name, arg) =>
      CheckedExact(arg, locals, ms);
      if name in ms && Checked(arg, locals, ms).Some? {
        CheckedExact(ms[name], [Checked(arg, locals, ms).value], ms);
      }
    case Neg(x) => CheckedExact(x, locals, ms);
    case Bin(op, l, r) =>
      CheckedExact(l, locals, ms);
      CheckedExact(r, locals, ms);
      if Checked(l, locals, ms).Some? && Checked(r, locals, ms).Some? {
        CheckedOpExact(op, Checked(l, locals, ms).value, Checked(r, locals, ms).value);
      }
  }

  /** Removing the checks is invisible on safe expressions: wrap-around never happens. */
  lemma {:induction false} UncheckedExact(e: Expr, locals: seq<int64>, ms: Methods)
    requires Safe(e, locals, ms)
    ensures Unchecked(e, locals, ms) == RubyEval(e, locals, ms)
    decreases !CallFree(e), e
  {
    match e
    case Const(_) =>
    case Local(_) =>
    case Call(name, arg) =>
      UncheckedExact(arg, locals, ms);
      UncheckedExact(ms[name], [RubyEval(arg, locals, ms).value], ms);
    case Neg(x) => UncheckedExact(x, locals, ms);
    case Bin(op, l, r) =>
      UncheckedExact(l, locals, ms);
      UncheckedExact(r, locals, ms);
      var x, y := RubyEval(l, locals, ms).value, RubyEval(r, locals, ms).value;
      CheckedOpExact(op, x, y);
      UncheckedOpAgrees(op, x, y);
  }
}
