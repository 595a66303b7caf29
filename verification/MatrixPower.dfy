/** Integer powers of a matrix by repeated squaring. */
module MatrixPower {
  import opened Options
  import opened Int64
  import opened Matrices
  import opened GaussJordan

  /** Repeated multiplication. */
  function Pow(a: Matrix, n: nat, k: nat): (p: Matrix)
    requires Shape(a, n, n)
    ensures Shape(p, n, n)
  {
    if k == 0 then Identity(n) else Product(Pow(a, n, k - 1), a, n, n, n)
  }

  lemma {:induction false} PowAdd(a: Matrix, n: nat, j: nat, k: nat)
    requires Shape(a, n, n)
    ensures Pow(a, n, j + k) == Product(Pow(a, n, j), Pow(a, n, k), n, n, n)
    decreases k
  {
    if k == 0 {
      RightIdentity(Pow(a, n, j), n, n);
    } else {
      PowAdd(a, n, j, k - 1);
      Associative(Pow(a, n, j), Pow(a, n, k - 1), a, n, n, n, n);
    }
  }

  lemma {:induction false} PowOne(a: Matrix, n: nat)
    requires Shape(a, n, n)
    ensures Pow(a, n, 1) == a
  {
    LeftIdentity(a, n, n);
    assert Pow(a, n, 0) == Identity(n);
  }

  /** Powers of the square are even powers. */
  lemma {:induction false} PowSquare(a: Matrix, n: nat, k: nat)
    requires Shape(a, n, n)
    ensures Pow(Product(a, a, n, n, n), n, k) == Pow(a, n, 2 * k)
  {
    if k > 0 {
      PowSquare(a, n, k - 1);
      PowAdd(a, n, 2 * (k - 1), 2);
      PowAdd(a, n, 1, 1);
      PowOne(a, n);
    }
  }

  /** One bit of the exponent. */
  lemma {:induction false} PowBit(result: Matrix, base: Matrix, n: nat, k: nat)
    requires Shape(result, n, n) && Shape(base, n, n) && k > 0
    ensures var next := if k % 2 == 1 then Product(result, base, n, n, n) else result;
            Product(result, Pow(base, n, k), n, n, n) == Product(next, Pow(Product(base, base, n, n, n), n, k / 2), n, n, n)
  {
    PowSquare(base, n, k / 2);
    if k % 2 == 1 {
      PowAdd(base, n, 1, 2 * (k / 2));
      PowOne(base, n);
      Associative(result, base, Pow(base, n, 2 * (k / 2)), n, n, n, n);
    }
  }

  /** The squaring loop computes repeated multiplication. */
  method PowerLoop(a: Matrix, n: nat, exponent: int64) returns (result: Matrix)
    requires Shape(a, n, n)
    ensures result == Pow(a, n, if exponent < 0 then 0 else exponent)
  {
    var base, power := a, exponent;
    result := Identity(n);
    ghost var k: nat := if exponent < 0 then 0 else exponent;
    LeftIdentity(Pow(a, n, k), n, n);
    while power > 0
      invariant Shape(base, n, n) && Shape(result, n, n)
      invariant power <= exponent && (exponent >= 0 ==> power >= 0)
      invariant Product(result, Pow(base, n, if power < 0 then 0 else power), n, n, n) == Pow(a, n, k)
      decreases power
    {
      PowBit(result, base, n, power);
      if power % 2 == 1 {
        var product := Multiply(result, base, n, n, n, n);
        result := product.value;
      }
      power := power / 2;
      if power > 0 {
        var square := Multiply(base, base, n, n, n, n);
        base := square.value;
      } else {
        NoFactor(result, base, n);
      }
    }
    RightIdentity(result, n, n);
  }

  /** The last squaring is skipped: the zeroth power does not look at the base. */
  lemma {:induction false} NoFactor(result: Matrix, base: Matrix, n: nat)
    requires Shape(result, n, n) && Shape(base, n, n)
    ensures Pow(base, n, 0) == Pow(Product(base, base, n, n, n), n, 0)
  {
  }

  /** Powers of an inverse are inverses of powers. */
  lemma {:induction false} PowInverse(a: Matrix, x: Matrix, n: nat, k: nat)
    requires Shape(a, n, n) && Shape(x, n, n) && Product(x, a, n, n, n) == Identity(n)
    ensures Product(Pow(x, n, k), Pow(a, n, k), n, n, n) == Identity(n)
  {
    if k == 0 {
      LeftIdentity(Identity(n), n, n);
    } else {
      PowInverse(a, x, n, k - 1);
      var px, pa := Pow(x, n, k - 1), Pow(a, n, k - 1);
      PowAdd(a, n, 1, k - 1);
      PowOne(a, n);
      Associative(px, x, Product(a, pa, n, n, n), n, n, n, n);
      Associative(x, a, pa, n, n, n, n);
      LeftIdentity(pa, n, n);
    }
  }

  /** matrixPowerGeneric for an integer exponent. A non-negative exponent gives repeated multiplication; a negative one
      gives the inverse of the power with the opposite exponent, on both sides, when the matrix is regular. The one
      exponent whose opposite is not a machine integer leaves the identity. */
  method Power(a: Matrix, m: nat, n: nat, exponent: int64) returns (r: Inverted)
    requires Shape(a, m, n)
    ensures r == DimensionError <==> m != n
    ensures r.Inverse? ==> Shape(r.x, n, n)
    ensures r.Inverse? && exponent >= 0 ==> r.x == Pow(a, n, exponent)
    ensures r.Inverse? && MIN < exponent < 0 ==>
              && Product(r.x, Pow(a, n, 0 - exponent), n, n, n) == Identity(n)
              && Product(Pow(a, n, 0 - exponent), r.x, n, n, n) == Identity(n)
    ensures r.Inverse? && exponent == MIN ==> r.x == Identity(n)
    ensures r == NotRegular <==> m == n && exponent < 0 && exists x :: Shape(x, n, 1) && Kernel(a, x, n)
  {
    if m != n { return DimensionError; }
    if exponent >= 0 {
      var result := PowerLoop(a, n, exponent);
      return Inverse(result);
    }
    var inverse := InvertSquare(a, n);
    if inverse.None? { return NotRegular; }
    var x := inverse.value;
    var power := Wrap(0 - exponent);
    var result := PowerLoop(x, n, power);
    if exponent > MIN {
      PowInverse(a, x, n, 0 - exponent);
      PowInverse(x, a, n, 0 - exponent);
    }
    r := Inverse(result);
  }
}
