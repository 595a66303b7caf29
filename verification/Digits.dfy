/** Decimal digit strings and the numbers they stand for. */
module Digits {
  function Pow10(n: nat): (p: nat)
    ensures p >= 1
  {
    if n == 0 then 1 else 10 * Pow10(n - 1)
  }

  lemma {:induction false} PowAdd(a: nat, b: nat)
    ensures Pow10(a + b) == Pow10(a) * Pow10(b)
  {
    if a > 0 { PowAdd(a - 1, b); Regroup(10, Pow10(a - 1), Pow10(b)); }
  }

  lemma {:induction false} Regroup(x: int, y: int, z: int)
    ensures (x * y) * z == x * (y * z)
  {
  }

  lemma {:induction false} PowMonotone(a: nat, b: nat)
    requires a <= b
    ensures Pow10(a) <= Pow10(b)
  {
    if a < b { PowMonotone(a, b - 1); }
  }

  predicate IsDigit(c: char) { '0' <= c <= '9' }

  function DigitValue(c: char): (d: nat)
    requires IsDigit(c)
    ensures d <= 9
  {
    (c as int) - ('0' as int)
  }

  function DigitChar(d: nat): (c: char)
    requires d <= 9
    ensures IsDigit(c) && DigitValue(c) == d
  {
    (d + ('0' as int)) as char
  }

  predicate AllDigits(s: string) {
    forall i :: 0 <= i < |s| ==> IsDigit(s[i])
  }

  /** The number a digit string stands for, read from the left. */
  function ValueOf(s: string): nat
    requires AllDigits(s)
  {
    if s == "" then 0 else ValueOf(s[..|s| - 1]) * 10 + DigitValue(s[|s| - 1])
  }

  /** The decimal digits of a number, without leading zeros. */
  function DigitsOf(n: nat): (s: string)
    ensures s != "" && AllDigits(s)
  {
    if n < 10 then [DigitChar(n)] else DigitsOf(n / 10) + [DigitChar(n % 10)]
  }

  lemma {:induction false} DigitsValue(n: nat)
    ensures ValueOf(DigitsOf(n)) == n
  {
    var s := DigitsOf(n);
    if n >= 10 {
      DigitsValue(n / 10);
      assert s[..|s| - 1] == DigitsOf(n / 10);
    } else {
      assert s[..0] == "";
    }
  }

  /** The number of digits is the magnitude. */
  lemma {:induction false} DigitsLength(n: nat)
    requires n > 0
    ensures Pow10(|DigitsOf(n)| - 1) <= n < Pow10(|DigitsOf(n)|)
  {
    if n >= 10 { DigitsLength(n / 10); }
  }

  /** A bound on the number is a bound on its digits. */
  lemma {:induction false} DigitsBound(n: nat, k: nat)
    requires n < Pow10(k) && k >= 1
    ensures |DigitsOf(n)| <= k
  {
    if n > 0 {
      DigitsLength(n);
      if |DigitsOf(n)| > k { PowMonotone(k, |DigitsOf(n)| - 1); }
    }
  }

  lemma {:induction false} ValueConcat(s: string, t: string)
    requires AllDigits(s) && AllDigits(t)
    ensures AllDigits(s + t) && ValueOf(s + t) == ValueOf(s) * Pow10(|t|) + ValueOf(t)
    decreases |t|
  {
    if t == "" {
      assert s + t == s;
    } else {
      var u := t[..|t| - 1];
      ValueConcat(s, u);
      assert (s + t)[..|s + t| - 1] == s + u;
      Shift(ValueOf(s), Pow10(|u|), ValueOf(u), DigitValue(t[|t| - 1]));
    }
  }

  lemma {:induction false} Shift(v: int, p: int, u: int, d: int)
    ensures (v * p + u) * 10 + d == v * (10 * p) + (u * 10 + d)
  {
  }

  lemma {:induction false} ValueBelow(s: string)
    requires AllDigits(s)
    ensures ValueOf(s) < Pow10(|s|)
  {
    if s != "" { ValueBelow(s[..|s| - 1]); }
  }

  function Zeros(n: nat): (s: string)
    ensures |s| == n && AllDigits(s)
  {
    if n == 0 then "" else Zeros(n - 1) + "0"
  }

  lemma {:induction false} ZerosValue(n: nat)
    ensures ValueOf(Zeros(n)) == 0
  {
    if n > 0 {
      ZerosValue(n - 1);
      assert Zeros(n)[..n - 1] == Zeros(n - 1);
    }
  }

  /** Padding on the right multiplies, padding on the left changes nothing. */
  lemma {:induction false} Padded(s: string, n: nat)
    requires AllDigits(s)
    ensures AllDigits(s + Zeros(n)) && ValueOf(s + Zeros(n)) == ValueOf(s) * Pow10(n)
    ensures AllDigits(Zeros(n) + s) && ValueOf(Zeros(n) + s) == ValueOf(s)
  {
    ValueConcat(s, Zeros(n));
    ValueConcat(Zeros(n), s);
    ZerosValue(n);
  }

  // ---------------------------------------------------------------- string order

  /** strings.Compare: -1, 0 or 1 in lexicographic order. */
  function Compare(a: string, b: string): int {
    if a == "" then (if b == "" then 0 else -1)
    else if b == "" then 1
    else if a[0] < b[0] then -1
    else if a[0] > b[0] then 1
    else Compare(a[1..], b[1..])
  }

  function Sign(x: int): int {
    if x < 0 then -1 else if x > 0 then 1 else 0
  }

  lemma {:induction false} HeadValue(s: string)
    requires s != "" && AllDigits(s)
    ensures AllDigits(s[1..]) && ValueOf(s) == DigitValue(s[0]) * Pow10(|s| - 1) + ValueOf(s[1..])
  {
    ValueConcat([s[0]], s[1..]);
    assert [s[0]] + s[1..] == s;
    assert [s[0]][..0] == "";
    assert ValueOf([s[0]]) == DigitValue(s[0]);
  }

  /** On digit strings of equal length the lexicographic order is the numeric one. */
  lemma {:induction false} CompareIsNumeric(a: string, b: string)
    requires |a| == |b| && AllDigits(a) && AllDigits(b)
    ensures Compare(a, b) == Sign(ValueOf(a) - ValueOf(b))
  {
    if a != "" {
      HeadValue(a);
      HeadValue(b);
      ValueBelow(a[1..]);
      ValueBelow(b[1..]);
      if a[0] == b[0] {
        CompareIsNumeric(a[1..], b[1..]);
      } else {
        LeadingDigit(DigitValue(a[0]), DigitValue(b[0]), Pow10(|a| - 1), ValueOf(a[1..]), ValueOf(b[1..]));
      }
    }
  }

  lemma {:induction false} LeadingDigit(x: nat, y: nat, p: nat, u: nat, v: nat)
    requires x != y && u < p && v < p
    ensures Sign((x * p + u) - (y * p + v)) == Sign(x - y)
  {
    if x < y { Gap(x, y, p); } else { Gap(y, x, p); }
  }

  lemma {:induction false} Gap(x: nat, y: nat, p: nat)
    requires x < y
    ensures x * p + p <= y * p
  {
    var k: nat := y - x - 1;
    assert y * p == x * p + p + k * p by { assert y == x + 1 + k; }
    assert k * p >= 0;
  }
}
