/** Decimals: canonical form, comparison and hashing. */
module Decimals {
  import opened Options
  import opened Int64
  import opened Digits

  /** A finite value is coefficient times ten to the exponent; a zero remembers its sign. */
  datatype Decimal = NaN | Infinity(negative: bool) | Finite(coefficient: int, exponent: int, negativeZero: bool)

  /** The canonical form: no trailing zero digit, and exponent zero for zero. */
  predicate Normal(d: Decimal) {
    d.Finite? ==> if d.coefficient == 0 then d.exponent == 0 else d.coefficient % 10 != 0 && !d.negativeZero
  }

  function Strip(c: int, e: int): (r: (int, int))
    requires c != 0
    decreases Abs(c)
  {
    if c % 10 == 0 then Strip(c / 10, e + 1) else (c, e)
  }

  function Normalize(c: int, e: int, negativeZero: bool): Decimal {
    if c == 0 then Finite(0, 0, negativeZero) else
    var r := Strip(c, e);
    Finite(r.0, r.1, false)
  }

  /** normalizeBigDecimal: factors of ten are divided out one at a time. */
  method NormalizeLoop(coefficient: int, exponent: int, negativeZero: bool) returns (d: Decimal)
    ensures d == Normalize(coefficient, exponent, negativeZero)
  {
    if coefficient == 0 { return Finite(0, 0, negativeZero); }
    var c, e := coefficient, exponent;
    while c % 10 == 0
      invariant c != 0 && Strip(c, e) == Strip(coefficient, exponent)
      decreases Abs(c)
    {
      c, e := c / 10, e + 1;
    }
    d := Finite(c, e, false);
  }

  // ---------------------------------------------------------------- values

  /** Ten to an integer power. */
  function TenTo(e: int): (r: real)
    ensures r > 0.0
    decreases Abs(e)
  {
    if e == 0 then 1.0 else if e > 0 then 10.0 * TenTo(e - 1) else TenTo(e + 1) / 10.0
  }

  /** c times t. */
  function Scale(c: int, t: real): real {
    (c as real) * t
  }

  /** The rational number a finite decimal stands for. */
  function Value(d: Decimal): real
    requires d.Finite?
  {
    Scale(d.coefficient, TenTo(d.exponent))
  }

  lemma {:induction false} ScaleOrder(x: int, y: int, t: real)
    requires t > 0.0
    ensures x < y <==> Scale(x, t) < Scale(y, t)
    ensures x == y <==> Scale(x, t) == Scale(y, t)
  {
    var d := (y as real) - (x as real);
    assert d * t == (y as real) * t - (x as real) * t;
    if x < y { assert d * t > 0.0; } else if x > y { assert (-d) * t > 0.0; assert (-d) * t == -(d * t); }
  }

  lemma {:induction false} ScaleSmall(c: int, t: real)
    ensures Scale(0, t) == 0.0 && Scale(1, t) == t && Scale(-c, t) == -Scale(c, t)
  {
    assert (-c) as real == -(c as real);
  }

  lemma {:induction false} ScaleTen(c: int, t: real)
    ensures Scale(10 * c, t) == Scale(c, 10.0 * t)
  {
    assert (10 * c) as real == 10.0 * (c as real);
  }

  lemma {:induction false} TenStep(e: int)
    ensures TenTo(e + 1) == 10.0 * TenTo(e)
  {
    if e < 0 { assert TenTo(e) == TenTo(e + 1) / 10.0; }
  }

  /** A power of ten in the coefficient can move into the exponent. */
  lemma {:induction false} Move(c: int, e: int, k: nat)
    ensures Scale(c * Pow10(k), TenTo(e)) == Scale(c, TenTo(e + k))
    decreases k
  {
    if k > 0 {
      Exchange(c, 10, Pow10(k - 1));
      hide Scale, Pow10;
      ScaleTen(c * Pow10(k - 1), TenTo(e));
      TenStep(e);
      Move(c, e + 1, k - 1);
    }
  }

  lemma {:induction false} StripIsNormal(c: int, e: int)
    requires c != 0
    ensures Strip(c, e).0 % 10 != 0 && Strip(c, e).0 != 0
    ensures Strip(c, e).1 >= e && c == Strip(c, e).0 * Pow10(Strip(c, e).1 - e)
    decreases Abs(c)
  {
    if c % 10 == 0 {
      StripIsNormal(c / 10, e + 1);
      var r := Strip(c / 10, e + 1);
      assert c == 10 * (c / 10);
      Regroup(10, r.0, Pow10(r.1 - e - 1));
      assert 10 * (r.0 * Pow10(r.1 - e - 1)) == r.0 * (10 * Pow10(r.1 - e - 1)) by { Exchange(10, r.0, Pow10(r.1 - e - 1)); }
    }
  }

  lemma {:induction false} Exchange(x: int, y: int, z: int)
    ensures x * (y * z) == y * (x * z)
  {
  }

  /** Normalizing keeps the value and gives the canonical form. */
  lemma {:induction false} NormalizeKeepsValue(c: int, e: int, negativeZero: bool)
    ensures var d := Normalize(c, e, negativeZero);
            && Normal(d) && Value(d) == Value(Finite(c, e, negativeZero))
            && (c < 0 <==> d.coefficient < 0) && (c == 0 <==> d.coefficient == 0)
  {
    hide Scale, Pow10;
    ScaleSmall(0, TenTo(e));
    ScaleSmall(0, TenTo(0));
    if c != 0 {
      StripIsNormal(c, e);
      var r := Strip(c, e);
      hide Strip, TenTo;
      Move(r.0, e, r.1 - e);
      SignOfProduct(r.0, Pow10(r.1 - e));
    }
  }

  lemma {:induction false} SignOfProduct(x: int, p: int)
    requires p > 0
    ensures (x * p < 0 <==> x < 0) && (x * p == 0 <==> x == 0)
  {
    if x > 0 { assert x * p > 0; } else if x < 0 { assert (-x) * p > 0; assert (-x) * p == -(x * p); }
  }

  /** A canonical coefficient with zeros appended strips back to itself. */
  lemma {:induction false} StripPower(c: int, e: int, k: nat)
    requires c % 10 != 0
    ensures c * Pow10(k) != 0 && Strip(c * Pow10(k), e) == (c, e + k)
    decreases k
  {
    SignOfProduct(c, Pow10(k));
    if k > 0 {
      StripPower(c, e + 1, k - 1);
      Exchange(c, 10, Pow10(k - 1));
      TenTimes(c * Pow10(k - 1));
    }
  }

  lemma {:induction false} TenTimes(x: int)
    ensures (10 * x) % 10 == 0 && (10 * x) / 10 == x
  {
  }

  /** The canonical form is unique. */
  lemma {:induction false} CanonicalUnique(c: int, e: int, d: int, f: int)
    requires c % 10 != 0 && d % 10 != 0 && Scale(c, TenTo(e)) == Scale(d, TenTo(f))
    ensures c == d && e == f
  {
    hide Scale, TenTo;
    if e <= f { SameCanonical(d, f, c, e); } else { SameCanonical(c, e, d, f); }
  }

  lemma {:induction false} SameCanonical(c: int, e: int, d: int, f: int)
    requires c % 10 != 0 && d % 10 != 0 && Scale(c, TenTo(e)) == Scale(d, TenTo(f)) && e >= f
    ensures c == d && e == f
  {
    assert Strip(d, f) == (d, f);
    hide Scale, TenTo, Pow10, Strip;
    Move(c, f, e - f);
    ScaleOrder(c * Pow10(e - f), d, TenTo(f));
    StripPower(c, f, e - f);
  }

  // ---------------------------------------------------------------- comparison

  function MagnitudeCompare(l: Decimal, r: Decimal): int
    requires l.Finite? && r.Finite?
  {
    var a, b := DigitsOf(Abs(l.coefficient)), DigitsOf(Abs(r.coefficient));
    if |a| + l.exponent < |b| + r.exponent then -1
    else if |a| + l.exponent > |b| + r.exponent then 1
    else
      var width := if |b| > |a| then |b| else |a|;
      Compare(a + Zeros(width - |a|), b + Zeros(width - |b|))
  }

  function Rank(d: Decimal): int {
    if d.Infinity? then (if d.negative then -1 else 1) else 0
  }

  /** bigDecimalCmpData. */
  function Cmp(l: Decimal, r: Decimal): int {
    if !l.Finite? || !r.Finite? then Sign(Rank(l) - Rank(r))
    else if Sign(l.coefficient) < Sign(r.coefficient) then -1
    else if Sign(l.coefficient) > Sign(r.coefficient) then 1
    else if l.coefficient == 0 then 0
    else if l.coefficient < 0 then -MagnitudeCompare(l, r)
    else MagnitudeCompare(l, r)
  }

  function RealSign(x: real): int {
    if x < 0.0 then -1 else if x > 0.0 then 1 else 0
  }

  lemma {:induction false} TenMonotone(a: int, b: int)
    requires a <= b
    ensures TenTo(a) <= TenTo(b)
    decreases b - a
  {
    if a < b { TenMonotone(a, b - 1); TenStep(b - 1); }
  }

  /** The value lies between the powers of ten that its magnitude names. */
  lemma {:induction false} MagnitudeBounds(n: nat, e: int)
    requires n > 0
    ensures var m := |DigitsOf(n)| + e; TenTo(m - 1) <= Scale(n, TenTo(e)) < TenTo(m)
  {
    var k := |DigitsOf(n)|;
    DigitsLength(n);
    hide Scale, TenTo, Pow10, DigitsOf;
    PowerIsTen(e, k);
    PowerIsTen(e, k - 1);
    ScaleOrder(Pow10(k - 1), n, TenTo(e));
    ScaleOrder(n, Pow10(k), TenTo(e));
  }

  lemma {:induction false} PowerIsTen(e: int, k: nat)
    ensures Scale(Pow10(k), TenTo(e)) == TenTo(e + k)
  {
    hide Scale, TenTo, Pow10;
    Move(1, e, k);
    ScaleSmall(1, TenTo(e + k));
  }

  /** Comparing positive magnitudes as strings compares their values. */
  lemma {:induction false} MagnitudeIsNumeric(l: Decimal, r: Decimal)
    requires l.Finite? && r.Finite? && l.coefficient != 0 && r.coefficient != 0
    ensures MagnitudeCompare(l, r)
            == RealSign(Scale(Abs(l.coefficient), TenTo(l.exponent)) - Scale(Abs(r.coefficient), TenTo(r.exponent)))
  {
    var x, y := Abs(l.coefficient), Abs(r.coefficient);
    var a, b := DigitsOf(x), DigitsOf(y);
    hide Scale, TenTo, DigitsOf, Compare;
    MagnitudeBounds(x, l.exponent);
    MagnitudeBounds(y, r.exponent);
    if |a| + l.exponent < |b| + r.exponent {
      TenMonotone(|a| + l.exponent, |b| + r.exponent - 1);
    } else if |a| + l.exponent > |b| + r.exponent {
      TenMonotone(|b| + r.exponent, |a| + l.exponent - 1);
    } else {
      AlignedCompare(x, l.exponent, y, r.exponent, if |b| > |a| then |b| else |a|);
    }
  }

  /** Equal magnitudes: both numbers scaled to the same exponent. */
  lemma {:induction false} AlignedCompare(x: nat, e: int, y: nat, f: int, width: nat)
    requires |DigitsOf(x)| + e == |DigitsOf(y)| + f && |DigitsOf(x)| <= width && |DigitsOf(y)| <= width
    ensures Compare(DigitsOf(x) + Zeros(width - |DigitsOf(x)|), DigitsOf(y) + Zeros(width - |DigitsOf(y)|))
            == RealSign(Scale(x, TenTo(e)) - Scale(y, TenTo(f)))
  {
    hide Scale, TenTo, DigitsOf, Compare, ValueOf, Zeros, Pow10;
    var a, b := DigitsOf(x), DigitsOf(y);
    var j, k := width - |a|, width - |b|;
    Padded(a, j);
    Padded(b, k);
    DigitsValue(x);
    DigitsValue(y);
    CompareIsNumeric(a + Zeros(j), b + Zeros(k));
    Move(x, e - j, j);
    Move(y, f - k, k);
    assert e - j == f - k;
    SignScale(x * Pow10(j), y * Pow10(k), TenTo(e - j));
  }

  lemma {:induction false} SignScale(x: int, y: int, t: real)
    requires t > 0.0
    ensures Sign(x - y) == RealSign(Scale(x, t) - Scale(y, t))
  {
    hide Scale;
    ScaleOrder(x, y, t);
  }

  /** Digit-string comparison is numeric comparison, on finite values of either sign. */
  lemma {:induction false} CmpIsNumeric(l: Decimal, r: Decimal)
    requires l.Finite? && r.Finite?
    ensures Cmp(l, r) == RealSign(Value(l) - Value(r))
  {
    hide Scale, TenTo, MagnitudeCompare;
    ValueSign(l.coefficient, TenTo(l.exponent));
    ValueSign(r.coefficient, TenTo(r.exponent));
    if Sign(l.coefficient) == Sign(r.coefficient) && l.coefficient != 0 {
      MagnitudeIsNumeric(l, r);
      ScaleSmall(l.coefficient, TenTo(l.exponent));
      ScaleSmall(r.coefficient, TenTo(r.exponent));
    }
  }

  /** The order of the numbers with the two infinities at its ends. */
  predicate Less(l: Decimal, r: Decimal) {
    match l
    case NaN => false
    case Infinity(negative) => negative && (r.Finite? || r == Infinity(false))
    case Finite(_, _, _) => if r.Finite? then Value(l) < Value(r) else r == Infinity(false)
  }

  /** Comparison is that order on everything but NaN, which its callers answer before they compare. */
  lemma {:induction false} CmpIsOrder(l: Decimal, r: Decimal)
    requires !l.NaN? && !r.NaN?
    ensures (Cmp(l, r) == -1 <==> Less(l, r)) && (Cmp(l, r) == 1 <==> Less(r, l))
    ensures Cmp(l, r) == 0 <==> (if l.Finite? && r.Finite? then Value(l) == Value(r) else l == r)
  {
    if l.Finite? && r.Finite? {
      hide Cmp, Value;
      CmpIsNumeric(l, r);
    }
  }

  lemma {:induction false} ValueSign(c: int, t: real)
    requires t > 0.0
    ensures RealSign(Scale(c, t)) == Sign(c)
  {
    hide Scale;
    ScaleOrder(c, 0, t);
    ScaleSmall(0, t);
  }

  // ---------------------------------------------------------------- hashing

  function Itoa(x: int): string {
    if x < 0 then "-" + DigitsOf(-x) else DigitsOf(x)
  }

  /** The bytes that are hashed; infinities and NaN feed their marker. */
  function HashText(d: Decimal): string {
    match d
    case NaN => "1"
    case Infinity(negative) => if negative then "3" else "2"
    case Finite(c, e, _) => if c == 0 then "0" else Itoa(c) + "e" + Itoa(e)
  }

  /** Values that compare equal are identical up to the sign of zero, and feed the same bytes to the hash. */
  lemma {:induction false} EqualFeedsSameHash(l: Decimal, r: Decimal)
    requires Normal(l) && Normal(r) && !l.NaN? && !r.NaN? && Cmp(l, r) == 0
    ensures l.Finite? <==> r.Finite?
    ensures l.Finite? ==> l.coefficient == r.coefficient && l.exponent == r.exponent
    ensures HashText(l) == HashText(r)
  {
    hide Scale, TenTo, Cmp;
    FiniteOrNot(l, r);
    if l.Finite? && r.Finite? {
      CmpIsNumeric(l, r);
      ValueSign(l.coefficient, TenTo(l.exponent));
      ValueSign(r.coefficient, TenTo(r.exponent));
      if l.coefficient != 0 { CanonicalUnique(l.coefficient, l.exponent, r.coefficient, r.exponent); }
    }
  }

  /** A finite value never compares equal to an infinity. */
  lemma {:induction false} FiniteOrNot(l: Decimal, r: Decimal)
    requires !l.NaN? && !r.NaN? && Cmp(l, r) == 0
    ensures l.Finite? <==> r.Finite?
    ensures !l.Finite? ==> l == r
  {
  }
}
