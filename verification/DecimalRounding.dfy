/** Rounding in the seven modes. */
module DecimalRounding {
  // To a number of places, or of significant digits.

  import opened Int64
  import opened Digits
  import opened Decimals

  /** The modes 1 to 7. */
  datatype Mode = Up | Down | HalfUp | HalfDown | Ceiling | Floor | HalfEven

  predicate Increments(mode: Mode, negative: bool, twiceRemainder: int, divisor: int, quotient: int) {
    match mode
    case Up => true
    case Down => false
    case HalfUp => twiceRemainder >= divisor
    case HalfDown => twiceRemainder > divisor
    case Ceiling => !negative
    case Floor => negative
    case HalfEven => twiceRemainder > divisor || (twiceRemainder == divisor && quotient % 2 == 1)
  }

  /** The truncated quotient, one further from zero when the mode says so. */
  function RoundQuotient(c: int, divisor: int, mode: Mode): int
    requires divisor > 0
  {
    var q, r := TruncDiv(c, divisor), TruncMod(c, divisor);
    if r == 0 || !Increments(mode, c < 0, 2 * Abs(r), divisor, q) then q else if c < 0 then q - 1 else q + 1
  }

  /** bigDecimalRoundPlaces; a result of zero remembers the sign of what was rounded. */
  function RoundPlaces(d: Decimal, places: int, mode: Mode): Decimal {
    if !d.Finite? || d.exponent >= -places then d else
    var divisor := Pow10(-places - d.exponent);
    var q := RoundQuotient(d.coefficient, divisor, mode);
    Normalize(q, -places, if TruncMod(d.coefficient, divisor) == 0 then d.negativeZero else d.coefficient < 0 && q == 0)
  }

  /** bigDecimalRoundSignificant. */
  function RoundSignificant(d: Decimal, precision: int, mode: Mode): Decimal {
    if precision <= 0 || !d.Finite? || d.coefficient == 0 then d
    else RoundPlaces(d, precision - (|DigitsOf(Abs(d.coefficient))| + d.exponent), mode)
  }

  // ---------------------------------------------------------------- what rounding means

  /** p is the multiple of the unit that the mode asks for, next to c. */
  predicate Rounds(mode: Mode, c: int, p: int, unit: int, even: bool) {
    var twice := 2 * Abs(p - c);
    match mode
    case Up => Abs(p - c) < unit && Abs(p) >= Abs(c)
    case Down => Abs(p - c) < unit && Abs(p) <= Abs(c)
    case Ceiling => c <= p < c + unit
    case Floor => c - unit < p <= c
    case HalfUp => twice <= unit && (twice == unit ==> Abs(p) > Abs(c))
    case HalfDown => twice <= unit && (twice == unit ==> Abs(p) < Abs(c))
    case HalfEven => twice <= unit && (twice == unit ==> even)
  }

  lemma {:induction false} Parts(c: int, unit: int)
    requires unit > 0
    ensures var q, r := TruncDiv(c, unit), TruncMod(c, unit);
            && c == q * unit + r && Abs(r) < unit && (c >= 0 ==> r >= 0 && q >= 0) && (c < 0 ==> r <= 0 && q <= 0)
            && (q - 1) * unit == q * unit - unit && (q + 1) * unit == q * unit + unit
  {
    TruncParts(c, unit);
  }

  lemma {:induction false} EuclidParts(a: int, unit: int)
    requires a >= 0 && unit > 0
    ensures a == (a / unit) * unit + a % unit && 0 <= a % unit < unit && a / unit >= 0
  {
    assert a == (a / unit) * unit + a % unit;
  }

  lemma {:induction false} TruncParts(c: int, unit: int)
    requires unit > 0
    ensures var q, r := TruncDiv(c, unit), TruncMod(c, unit);
            c == q * unit + r && Abs(r) < unit && (c >= 0 ==> r >= 0 && q >= 0) && (c < 0 ==> r <= 0 && q <= 0)
  {
    var a := Abs(c);
    EuclidParts(a, unit);
    Opposite(a / unit, unit);
    assert TruncDiv(c, unit) == if c >= 0 then a / unit else -(a / unit);
  }

  lemma {:induction false} Opposite(q: int, unit: int)
    ensures (-q) * unit == -(q * unit)
  {
  }

  lemma {:induction false} SideOfZero(q: int, unit: int)
    requires unit > 0
    ensures (q >= 0 ==> q * unit >= 0) && (q <= 0 ==> q * unit <= 0)
  {
    if q >= 0 { } else { assert (-q) * unit >= 0; assert (-q) * unit == -(q * unit); }
  }

  /** The rounded quotient names the multiple the mode asks for. */
  lemma {:induction false} RoundQuotientRounds(c: int, unit: int, mode: Mode)
    requires unit > 0
    ensures var q := RoundQuotient(c, unit, mode); Rounds(mode, c, q * unit, unit, q % 2 == 0)
  {
    Parts(c, unit);
    SideOfZero(TruncDiv(c, unit), unit);
    hide TruncDiv, TruncMod;
    var q, r := TruncDiv(c, unit), TruncMod(c, unit);
    Step(mode, c, q, q * unit, r, unit);
  }

  /** The same on the product q * unit, with no multiplication left. */
  lemma {:induction false} Step(mode: Mode, c: int, q: int, p: int, r: int, unit: int)
    requires unit > 0 && c == p + r && Abs(r) < unit && (c >= 0 ==> r >= 0 && p >= 0) && (c < 0 ==> r <= 0 && p <= 0)
    ensures if r == 0 || !Increments(mode, c < 0, 2 * Abs(r), unit, q) then Rounds(mode, c, p, unit, q % 2 == 0)
            else if c < 0 then Rounds(mode, c, p - unit, unit, (q - 1) % 2 == 0) else Rounds(mode, c, p + unit, unit, (q + 1) % 2 == 0)
  {
  }

  lemma {:induction false} MultiplesApart(q: int, k: int, unit: int)
    requires unit > 0 && q < k
    ensures q * unit + unit <= k * unit
    ensures q % 2 == k % 2 ==> q * unit + 2 * unit <= k * unit
  {
    var d := k - q;
    assert k * unit == q * unit + d * unit;
    assert (d - 1) * unit >= 0;
    if q % 2 == k % 2 { assert d >= 2; assert (d - 2) * unit >= 0; }
  }

  /** No other multiple does: the meaning determines the result. */
  lemma {:induction false} RoundsUnique(mode: Mode, c: int, q: int, k: int, unit: int)
    requires unit > 0 && Rounds(mode, c, q * unit, unit, q % 2 == 0) && Rounds(mode, c, k * unit, unit, k % 2 == 0)
    ensures q == k
  {
    hide Rounds;
    if q < k { NotBoth(mode, c, q, k, unit); } else if k < q { NotBoth(mode, c, k, q, unit); }
  }

  lemma {:induction false} NotBoth(mode: Mode, c: int, q: int, k: int, unit: int)
    requires unit > 0 && q < k
    ensures !(Rounds(mode, c, q * unit, unit, q % 2 == 0) && Rounds(mode, c, k * unit, unit, k % 2 == 0))
  {
    hide Rounds;
    var p, s, a, b := q * unit, k * unit, q % 2 == 0, k % 2 == 0;
    MultiplesApart(q, k, unit);
    if q < 0 { MultiplesApart(q, 0, unit); } else { SideOfZero(q, unit); }
    if k > 0 { MultiplesApart(0, k, unit); } else { SideOfZero(k, unit); }
    if Rounds(mode, c, p, unit, a) && Rounds(mode, c, s, unit, b) { Apart(mode, c, p, s, unit, a, b); }
  }

  /** Two roundings of the same number are less than a unit apart, or a unit apart at a tie between two even ones, or on
      the two sides of zero, and then not both a unit away from it. */
  lemma {:induction false} Apart(mode: Mode, c: int, p: int, s: int, unit: int, a: bool, b: bool)
    requires unit > 0 && Rounds(mode, c, p, unit, a) && Rounds(mode, c, s, unit, b)
    ensures mode != HalfEven ==> Abs(p - s) < unit || (p > 0 && s < 0) || (p < 0 && s > 0)
    ensures mode == HalfEven ==> Abs(p - s) < unit || (Abs(p - s) == unit && a && b)
    ensures Abs(p - s) < 2 * unit && !(p >= unit && s <= -unit) && !(p <= -unit && s >= unit)
  {
  }

  // ---------------------------------------------------------------- in terms of values

  /** The same meaning on the rational values. */
  predicate RoundsValue(mode: Mode, x: real, y: real, unit: real, even: bool) {
    var err := if y < x then x - y else y - x;
    var ax, ay := if x < 0.0 then -x else x, if y < 0.0 then -y else y;
    match mode
    case Up => err < unit && ay >= ax
    case Down => err < unit && ay <= ax
    case Ceiling => x <= y < x + unit
    case Floor => x - unit < y <= x
    case HalfUp => 2.0 * err <= unit && (2.0 * err == unit ==> ay > ax)
    case HalfDown => 2.0 * err <= unit && (2.0 * err == unit ==> ay < ax)
    case HalfEven => 2.0 * err <= unit && (2.0 * err == unit ==> even)
  }

  /** Scaling by a power of ten turns the integer meaning into the rational one. */
  lemma {:induction false} ScaleRounds(mode: Mode, c: int, p: int, unit: int, even: bool, t: real)
    requires t > 0.0 && Rounds(mode, c, p, unit, even)
    ensures RoundsValue(mode, Scale(c, t), Scale(p, t), Scale(unit, t), even)
  {
    var err := Abs(p - c);
    ScaleDifference(p, c, t);
    ScaleDifference(c, p, t);
    ScaleAbs(c, t);
    ScaleAbs(p, t);
    ScaleAbs(p - c, t);
    ScaleOrder(err, unit, t);
    ScaleOrder(2 * err, unit, t);
    ScaleOrder(unit, 2 * err, t);
    ScaleDouble(err, t);
    ScaleOrder(Abs(p), Abs(c), t);
    ScaleOrder(Abs(c), Abs(p), t);
    ScaleOrder(c, p, t);
    ScaleOrder(p, c, t);
    ScaleBounds(c, p, unit, t);
    hide Scale;
  }

  lemma {:induction false} ScaleDifference(x: int, y: int, t: real)
    ensures Scale(x - y, t) == Scale(x, t) - Scale(y, t)
  {
    assert (x - y) as real == (x as real) - (y as real);
    Distribute(x as real, y as real, t);
  }

  lemma {:induction false} Distribute(x: real, y: real, t: real)
    ensures (x - y) * t == x * t - y * t
  {
  }

  lemma {:induction false} ScaleDouble(x: int, t: real)
    ensures Scale(2 * x, t) == 2.0 * Scale(x, t)
  {
    assert (2 * x) as real == 2.0 * (x as real);
  }

  lemma {:induction false} ScaleAbs(x: int, t: real)
    requires t > 0.0
    ensures Scale(Abs(x), t) == if Scale(x, t) < 0.0 then -Scale(x, t) else Scale(x, t)
  {
    ScaleSmall(x, t);
    ScaleOrder(x, 0, t);
    hide Scale;
  }

  lemma {:induction false} ScaleBounds(c: int, p: int, unit: int, t: real)
    requires t > 0.0
    ensures p < c + unit ==> Scale(p, t) < Scale(c, t) + Scale(unit, t)
    ensures c - unit < p ==> Scale(c, t) - Scale(unit, t) < Scale(p, t)
  {
    ScaleDifference(c, unit, t);
    ScaleDifference(p, unit, t);
    ScaleOrder(p - unit, c, t);
    ScaleOrder(c - unit, p, t);
    hide Scale;
  }

  /** Rounding to places gives a multiple of the unit 10^(-places), on the side and within the distance its mode names,
      with ties broken as named. */
  lemma {:induction false} RoundPlacesIsCorrect(d: Decimal, places: int, mode: Mode) returns (q: int)
    requires d.Finite?
    ensures var r := RoundPlaces(d, places, mode);
            r.Finite? && Value(r) == Scale(q, TenTo(-places)) && RoundsValue(mode, Value(d), Value(r), TenTo(-places), q % 2 == 0)
  {
    var e, t := d.exponent, -places;
    if e >= t {
      q := d.coefficient * Pow10(e - t);
      hide Scale, TenTo, Pow10;
      Move(d.coefficient, t, e - t);
      Unmoved(mode, Value(d), TenTo(t), q % 2 == 0);
    } else {
      var k: nat := t - e;
      q := RoundQuotient(d.coefficient, Pow10(k), mode);
      hide Scale, TenTo, Pow10, RoundQuotient, Rounds, RoundsValue, TruncMod, Normalize;
      RoundQuotientRounds(d.coefficient, Pow10(k), mode);
      ScaleRounds(mode, d.coefficient, q * Pow10(k), Pow10(k), q % 2 == 0, TenTo(e));
      Move(q, e, k);
      PowerIsTen(e, k);
      NormalizeFinite(q, t, if TruncMod(d.coefficient, Pow10(k)) == 0 then d.negativeZero else d.coefficient < 0 && q == 0);
    }
  }

  lemma {:induction false} NormalizeFinite(c: int, e: int, negativeZero: bool)
    ensures Normalize(c, e, negativeZero).Finite? && Value(Normalize(c, e, negativeZero)) == Scale(c, TenTo(e))
  {
    NormalizeKeepsValue(c, e, negativeZero);
  }

  lemma {:induction false} Unmoved(mode: Mode, x: real, unit: real, even: bool)
    requires unit > 0.0
    ensures RoundsValue(mode, x, x, unit, even)
  {
  }

  /** Rounding keeps the canonical form, and a negative value that rounds to zero gives negative zero. */
  lemma {:induction false} RoundPlacesIsNormal(d: Decimal, places: int, mode: Mode)
    requires Normal(d)
    ensures Normal(RoundPlaces(d, places, mode))
    ensures d.Finite? && d.coefficient < 0 && RoundPlaces(d, places, mode).coefficient == 0 ==> RoundPlaces(d, places, mode).negativeZero
  {
    if d.Finite? && d.exponent < -places {
      var divisor := Pow10(-places - d.exponent);
      var q := RoundQuotient(d.coefficient, divisor, mode);
      Parts(d.coefficient, divisor);
      hide Pow10, TruncMod, TruncDiv;
      NormalizeKeepsValue(q, -places, if TruncMod(d.coefficient, divisor) == 0 then d.negativeZero else d.coefficient < 0 && q == 0);
    }
  }

  // ---------------------------------------------------------------- significant digits

  /** Stripping zeros never makes a number longer. */
  lemma {:induction false} StripShorter(c: int, e: int)
    requires c != 0
    ensures Abs(Strip(c, e).0) <= Abs(c)
    decreases Abs(c)
  {
    if c % 10 == 0 { StripShorter(c / 10, e + 1); }
  }

  /** A power of ten strips to one. */
  lemma {:induction false} StripOne(k: nat, e: int, negative: bool)
    ensures var c: int := if negative then 0 - Pow10(k) else Pow10(k); c != 0 && Abs(Strip(c, e).0) == 1
  {
    StripPower(1, e, k);
    StripPower(-1, e, k);
    assert 1 * Pow10(k) == Pow10(k) && (-1) * Pow10(k) == 0 - Pow10(k);
  }

  lemma {:induction false} NormalizeDigits(q: int, e: int, negativeZero: bool, n: nat)
    requires n >= 1 && Abs(q) <= Pow10(n)
    ensures |DigitsOf(Abs(Normalize(q, e, negativeZero).coefficient))| <= n
  {
    if q == 0 {
    } else if Abs(q) == Pow10(n) {
      StripOne(n, e, q < 0);
    } else {
      StripShorter(q, e);
      DigitsBound(Abs(Strip(q, e).0), n);
    }
  }

  lemma {:induction false} QuotientBound(c: int, k: nat, n: nat, mode: Mode)
    requires Abs(c) < Pow10(n + k)
    ensures Abs(RoundQuotient(c, Pow10(k), mode)) <= Pow10(n)
  {
    var unit := Pow10(k);
    Parts(c, unit);
    PowAdd(n, k);
    var q := TruncDiv(c, unit);
    hide TruncDiv, TruncMod, Pow10;
    if Abs(q) >= Pow10(n) { BigQuotient(q, unit, Pow10(n), c, TruncMod(c, unit)); }
  }

  lemma {:induction false} BigQuotient(q: int, unit: int, p: int, c: int, r: int)
    requires unit > 0 && p > 0 && Abs(q) >= p && c == q * unit + r && (q > 0 ==> r >= 0) && (q < 0 ==> r <= 0)
    ensures Abs(c) >= p * unit
  {
    if q > 0 {
      assert (q - p) * unit >= 0;
      assert (q - p) * unit == q * unit - p * unit;
    } else {
      assert (-q - p) * unit >= 0;
      assert (-q - p) * unit == -(q * unit) - p * unit;
    }
  }

  /** Rounding to n significant digits leaves at most n of them, even when a carry ripples through all nines. */
  lemma {:induction false} RoundSignificantDigits(d: Decimal, n: nat, mode: Mode)
    requires d.Finite? && n >= 1
    ensures var r := RoundSignificant(d, n, mode); r.Finite? && |DigitsOf(Abs(r.coefficient))| <= n
  {
    if d.coefficient != 0 {
      var length := |DigitsOf(Abs(d.coefficient))|;
      if length > n {
        var k := length - n;
        DigitsLength(Abs(d.coefficient));
        hide DigitsOf, Pow10, RoundQuotient, Normalize, TruncMod;
        QuotientBound(d.coefficient, k, n, mode);
        var q := RoundQuotient(d.coefficient, Pow10(k), mode);
        var nz := if TruncMod(d.coefficient, Pow10(k)) == 0 then d.negativeZero else d.coefficient < 0 && q == 0;
        NormalizeDigits(q, d.exponent + k, nz, n);
        NormalizeFinite(q, d.exponent + k, nz);
        assert RoundSignificant(d, n, mode) == Normalize(q, d.exponent + k, nz);
      }
    }
  }

  /** A nonzero number has one magnitude. */
  lemma {:induction false} OneMagnitude(x: real, m: int, k: int)
    requires TenTo(m - 1) <= x < TenTo(m) && TenTo(k - 1) <= x < TenTo(k)
    ensures m == k
  {
    hide TenTo;
    if m < k { TenMonotone(m, k - 1); } else if k < m { TenMonotone(k, m - 1); }
  }

  /** Rounding to n significant digits rounds a number of magnitude m, as its mode asks, to a multiple of the n-th digit's unit. */
  lemma {:induction false} RoundSignificantRounds(d: Decimal, n: nat, mode: Mode, m: int) returns (q: int)
    requires d.Finite? && d.coefficient != 0 && n >= 1
    requires TenTo(m - 1) <= (if Value(d) < 0.0 then -Value(d) else Value(d)) < TenTo(m)
    ensures var r := RoundSignificant(d, n, mode);
            r.Finite? && Value(r) == Scale(q, TenTo(m - n)) && RoundsValue(mode, Value(d), Value(r), TenTo(m - n), q % 2 == 0)
  {
    var size, t := Abs(d.coefficient), TenTo(d.exponent);
    var k := |DigitsOf(size)| + d.exponent;
    ScaleAbs(d.coefficient, t);
    MagnitudeBounds(size, d.exponent);
    hide Scale, TenTo, DigitsOf, RoundPlaces, RoundsValue;
    OneMagnitude(Scale(size, t), m, k);
    q := RoundPlacesIsCorrect(d, n - k, mode);
  }
}
