/** Printed and hashed decimals. */
module DecimalForms {
  // With the round trips, the shapes determine the printed texts.

  import opened Options
  import opened Int64
  import opened Digits
  import opened Decimals
  import opened DecimalText

  /** The digits of a number: no leading zero, and the last one is its remainder by ten. */
  lemma {:induction false} EndDigits(n: nat)
    requires n > 0
    ensures var s := DigitsOf(n); AllDigits(s) && s != "" && s[0] != '0' && DigitValue(s[|s| - 1]) == n % 10
  {
    if n >= 10 { EndDigits(n / 10); }
  }

  lemma {:induction false} LastIsZero(c: int, s: string)
    requires c % 10 != 0 && s != "" && AllDigits(s) && DigitValue(s[|s| - 1]) == Abs(c) % 10
    ensures s[|s| - 1] != '0'
  {
  }

  /** The default form of a nonzero number is 0.digits and an exponent, with no zero at either end of the digits: the number is
      between the powers of ten that the exponent names. */
  lemma {:induction false} ToSShape(d: Decimal) returns (digits: string, exponent: int)
    requires d.Finite? && Normal(d) && d.coefficient != 0
    ensures ToS(d) == SignText(d.coefficient < 0) + "0." + digits + "e" + Itoa(exponent)
    ensures digits != "" && AllDigits(digits) && digits[0] != '0' && digits[|digits| - 1] != '0'
    ensures TenTo(exponent - 1) <= Scale(Abs(d.coefficient), TenTo(d.exponent)) < TenTo(exponent)
  {
    digits := DigitsOf(Abs(d.coefficient));
    exponent := |digits| + d.exponent;
    EndDigits(Abs(d.coefficient));
    LastIsZero(d.coefficient, digits);
    hide DigitsOf, Scale, TenTo, Itoa;
    MagnitudeBounds(Abs(d.coefficient), d.exponent);
  }

  /** The fixed form is digits, a point and digits, with no zero that could be left out on either side. */
  lemma {:induction false} FixedShape(d: Decimal) returns (whole: string, fraction: string)
    requires d.Finite? && Normal(d)
    ensures FixedString(d) == SignOf(d) + whole + "." + fraction
    ensures whole != "" && AllDigits(whole) && (whole == "0" || whole[0] != '0')
    ensures fraction != "" && AllDigits(fraction) && (fraction == "0" || fraction[|fraction| - 1] != '0')
  {
    var digits := DigitsOf(Abs(d.coefficient));
    if d.coefficient == 0 {
      whole, fraction := "0", "0";
      assert Zeros(0) == "";
    } else {
      EndDigits(Abs(d.coefficient));
      LastIsZero(d.coefficient, digits);
      whole, fraction := FixedParts(SignOf(d), digits, |digits| + d.exponent);
    }
  }

  lemma {:induction false} FixedParts(sign: string, digits: string, position: int) returns (whole: string, fraction: string)
    requires digits != "" && AllDigits(digits) && digits[0] != '0' && digits[|digits| - 1] != '0'
    ensures sign + whole + "." + fraction == if position <= 0 then FixedSmall(sign, digits, -position)
                                             else if position >= |digits| then FixedLarge(sign, digits, position - |digits|)
                                             else FixedMiddle(sign, digits, position)
    ensures whole != "" && AllDigits(whole) && (whole == "0" || whole[0] != '0')
    ensures fraction != "" && AllDigits(fraction) && (fraction == "0" || fraction[|fraction| - 1] != '0')
  {
    if position <= 0 {
      whole, fraction := "0", Zeros(-position) + digits;
      assert sign + "0" + "." + fraction == sign + "0." + Zeros(-position) + digits;
    } else if position >= |digits| {
      whole, fraction := digits + Zeros(position - |digits|), "0";
      assert sign + whole + "." + "0" == sign + digits + Zeros(position - |digits|) + ".0";
    } else {
      whole, fraction := digits[..position], digits[position..];
    }
  }

  // ---------------------------------------------------------------- hashing

  lemma {:induction false} MarkedText(c: int, e: int)
    ensures IndexOfMark(Itoa(c) + "e" + Itoa(e)) == |Itoa(c)| && Itoa(c) != ""
    ensures ParseInt((Itoa(c) + "e" + Itoa(e))[..|Itoa(c)|]) == Some(c)
    ensures ParseInt((Itoa(c) + "e" + Itoa(e))[|Itoa(c)| + 1..]) == Some(e)
  {
    ItoaParses(c);
    ItoaParses(e);
    Unmarked(Itoa(c));
    MarkAt(Itoa(c), Itoa(e));
    hide Itoa, ParseInt, IndexOfMark;
    var s := Itoa(c) + "e" + Itoa(e);
    assert s[..|Itoa(c)|] == Itoa(c) && s[|Itoa(c)| + 1..] == Itoa(e);
  }

  lemma {:induction false} Unmarked(s: string)
    requires IndexOfMark(s) == |s|
    ensures forall i :: 0 <= i < |s| ==> !IsExponentMark(s[i])
  {
    if s != "" { Unmarked(s[1..]); }
  }

  lemma {:induction false} SpecialTexts()
    ensures IndexOfMark("0") == 1 && IndexOfMark("2") == 1 && IndexOfMark("3") == 1
  {
    NoMark("0");
    NoMark("2");
    NoMark("3");
  }

  /** Two values, neither of them NaN, feed the same bytes to the hash if and only if they compare equal. */
  lemma {:induction false} SameHashIff(l: Decimal, r: Decimal)
    requires Normal(l) && Normal(r) && !l.NaN? && !r.NaN?
    ensures HashText(l) == HashText(r) <==> Cmp(l, r) == 0
  {
    if Cmp(l, r) == 0 {
      EqualFeedsSameHash(l, r);
    } else if HashText(l) == HashText(r) {
      SameTextSameValue(l, r);
      CmpIsOrder(l, r);
    }
  }

  lemma {:induction false} SameTextSameValue(l: Decimal, r: Decimal)
    requires Normal(l) && Normal(r) && !l.NaN? && !r.NaN? && HashText(l) == HashText(r)
    ensures if l.Finite? && r.Finite? then l.coefficient == r.coefficient && l.exponent == r.exponent else l == r
  {
    SpecialTexts();
    if l.Finite? && l.coefficient != 0 { MarkedText(l.coefficient, l.exponent); }
    if r.Finite? && r.coefficient != 0 { MarkedText(r.coefficient, r.exponent); }
    hide Itoa, ParseInt, IndexOfMark;
  }
}
