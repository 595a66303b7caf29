/** Machine integers: Go's int64 with its wrap-around, and Go's truncating division, against the floored division and
    the unbounded integers of Ruby. */
module Int64 {

  const MIN: int := -0x8000_0000_0000_0000
  const MAX: int := 0x7fff_ffff_ffff_ffff
  const MODULUS: int := 0x1_0000_0000_0000_0000

  predicate Fits(x: int) {
    MIN <= x <= MAX
  }

  type int64 = x: int | MIN <= x <= MAX

  function Min(a: int, b: int): int { if b < a then b else a }
  function Max(a: int, b: int): int { if b > a then b else a }
  function Abs(x: int): nat { if x < 0 then -x else x }

  /** The int64 that Go's arithmetic leaves when the exact result is x. */
  function Wrap(x: int): (r: int64)
    ensures Fits(x) ==> r == x
  {
    (x - MIN) % MODULUS + MIN
  }

  /** x and y have the same low 64 bits. */
  predicate Same(x: int, y: int) {
    (x - y) % MODULUS == 0
  }

  lemma {:induction false} WrapSame(x: int)
    ensures Same(Wrap(x), x)
  {
    var q := (x - MIN) / MODULUS;
    assert Wrap(x) - x == -q * MODULUS;
    MultipleMod(-q);
  }

  lemma {:induction false} MultipleMod(q: int)
    ensures (q * MODULUS) % MODULUS == 0
  {
  }

  lemma {:induction false} SameQuotient(x: int, y: int) returns (q: int)
    requires Same(x, y)
    ensures x == y + q * MODULUS
  {
    q := (x - y) / MODULUS;
  }

  lemma {:induction false} SameWrap(x: int, y: int)
    requires Same(x, y)
    ensures Wrap(x) == Wrap(y)
  {
    var q := SameQuotient(x, y);
    assert x - MIN == (y - MIN) + q * MODULUS;
  }

  lemma {:induction false} SameBy(x: int, y: int, q: int)
    requires x == y + q * MODULUS
    ensures Same(x, y)
  {
    MultipleMod(q);
  }

  /** Wrapping is a ring homomorphism: operands may be wrapped before a +, - or * without changing the outcome. */
  lemma {:induction false} WrapAdd(x: int, y: int)
    ensures Wrap(Wrap(x) + Wrap(y)) == Wrap(x + y)
  {
    WrapSame(x); WrapSame(y);
    var q := SameQuotient(Wrap(x), x);
    var p := SameQuotient(Wrap(y), y);
    SameBy(Wrap(x) + Wrap(y), x + y, q + p);
    SameWrap(Wrap(x) + Wrap(y), x + y);
  }

  lemma {:induction false} WrapSub(x: int, y: int)
    ensures Wrap(Wrap(x) - Wrap(y)) == Wrap(x - y)
  {
    WrapSame(x); WrapSame(y);
    var q := SameQuotient(Wrap(x), x);
    var p := SameQuotient(Wrap(y), y);
    SameBy(Wrap(x) - Wrap(y), x - y, q - p);
    SameWrap(Wrap(x) - Wrap(y), x - y);
  }

  /** Go's `/` on integers: the quotient truncated toward zero. */
  function TruncDiv(a: int, b: int): int
    requires b != 0
  {
    if a >= 0 then (if b > 0 then a / b else -(a / -b))
    else (if b > 0 then -(-a / b) else -a / -b)
  }

  /** Go's `%`: the remainder of the truncating division, with the sign of the dividend. */
  function TruncMod(a: int, b: int): int
    requires b != 0
  {
    a - TruncDiv(a, b) * b
  }

  /** Ruby's Integer division and `%`: the quotient is floored, so the remainder has the sign of the divisor. */
  function FloorDiv(a: int, b: int): int
    requires b != 0
  {
    if b > 0 then a / b else (-a) / (-b)
  }

  function FloorMod(a: int, b: int): (r: int)
    requires b != 0
  {
    a - FloorDiv(a, b) * b
  }

  lemma {:induction false} FloorModRange(a: int, b: int)
    requires b != 0
    ensures b > 0 ==> 0 <= FloorMod(a, b) < b
    ensures b < 0 ==> b < FloorMod(a, b) <= 0
  {
    if b > 0 {
      assert a == (a / b) * b + a % b;
    } else {
      assert -a == ((-a) / (-b)) * (-b) + (-a) % (-b);
      assert FloorDiv(a, b) * b == -(((-a) / (-b)) * (-b));
    }
  }

  /** The sign correction Go code applies to `%` turns the truncated remainder into the floored one. */
  lemma {:induction false} CorrectedRemainder(a: int, b: int)
    requires b != 0
    ensures var r := TruncMod(a, b);
            FloorMod(a, b) == (if r != 0 && (r < 0) != (b < 0) then r + b else r)
  {
    var r := TruncMod(a, b);
    TruncModRange(a, b);
    FloorModRange(a, b);
    var t, f := TruncDiv(a, b), FloorDiv(a, b);
    var r' := if r != 0 && (r < 0) != (b < 0) then r + b else r;
    var d := if r' == r then 0 else 1;
    assert r' == a - (t - d) * b by { assert (t - d) * b == t * b - d * b; }
    if b > 0 { Unique(a, b, t - d, r', f, FloorMod(a, b)); }
    else { UniqueNeg(a, b, t - d, r', f, FloorMod(a, b)); }
  }

  lemma {:induction false} TruncModRange(a: int, b: int)
    requires b != 0
    ensures var r := TruncMod(a, b);
            && (a >= 0 ==> 0 <= r) && (a <= 0 ==> r <= 0)
            && (b > 0 ==> -b < r < b) && (b < 0 ==> b < r < -b)
  {
    var n, d := if a >= 0 then a else -a, if b > 0 then b else -b;
    var q := n / d;
    assert n == q * d + n % d;
    assert (-q) * (-d) == q * d && (-q) * d == -(q * d) && q * (-d) == -(q * d);
  }

  lemma {:induction false} Unique(a: int, b: int, q: int, r: int, q': int, r': int)
    requires b > 0 && 0 <= r < b && 0 <= r' < b
    requires a == q * b + r == q' * b + r'
    ensures q == q' && r == r'
  {
    AtLeastFactor(q' - q, b);
    AtLeastFactor(q - q', b);
    assert (q' - q) * b == q' * b - q * b;
    assert (q - q') * b == q * b - q' * b;
  }

  lemma {:induction false} AtLeastFactor(x: int, b: int)
    requires b > 0
    ensures x >= 1 ==> x * b >= b
  {
    if x >= 1 { assert x * b == (x - 1) * b + b; }
  }

  lemma {:induction false} UniqueNeg(a: int, b: int, q: int, r: int, q': int, r': int)
    requires b < 0 && b < r <= 0 && b < r' <= 0
    requires a == q * b + r == q' * b + r'
    ensures q == q' && r == r'
  {
    assert -a == q * -b + -r == q' * -b + -r';
    Unique(-a, -b, q, -r, q', -r');
  }
}
