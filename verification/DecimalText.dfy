/** Printing decimals and parsing them back. */
module DecimalText {
  import opened Options
  import opened Int64
  import opened Digits
  import opened Decimals

  // ---------------------------------------------------------------- printing

  function SignText(negative: bool): string { if negative then "-" else "" }

  /** The default form: 0.digits and an exponent; zero keeps its sign. */
  function ToS(d: Decimal): string {
    match d
    case NaN => "NaN"
    case Infinity(negative) => SignText(negative) + "Infinity"
    case Finite(c, e, negativeZero) =>
      if c == 0 then SignText(negativeZero) + "0.0"
      else SignText(c < 0) + "0." + DigitsOf(Abs(c)) + "e" + Itoa(|DigitsOf(Abs(c))| + e)
  }

  function FixedSmall(sign: string, digits: string, zeros: nat): string { sign + "0." + Zeros(zeros) + digits }
  function FixedLarge(sign: string, digits: string, zeros: nat): string { sign + digits + Zeros(zeros) + ".0" }
  function FixedMiddle(sign: string, digits: string, position: nat): string
    requires position <= |digits|
  {
    sign + digits[..position] + "." + digits[position..]
  }

  function SignOf(d: Decimal): string
    requires d.Finite?
  {
    SignText(d.coefficient < 0 || d.negativeZero)
  }

  /** bigDecimalFixedString: all digits, with a point. */
  function FixedString(d: Decimal): string
    requires d.Finite?
  {
    var digits := DigitsOf(Abs(d.coefficient));
    var sign := SignOf(d);
    var position := |digits| + d.exponent;
    if position <= 0 then FixedSmall(sign, digits, -position)
    else if position >= |digits| then FixedLarge(sign, digits, position - |digits|)
    else FixedMiddle(sign, digits, position)
  }

  // ---------------------------------------------------------------- parsing

  predicate IsSpace(c: char) {
    c in "\t\n\r " || c == '\U{000b}' || c == '\U{000c}' || c == '\U{0085}' || c == '\U{00a0}' || c == '\U{1680}'
    || '\U{2000}' <= c <= '\U{200a}' || c == '\U{2028}' || c == '\U{2029}' || c == '\U{202f}' || c == '\U{205f}' || c == '\U{3000}'
  }

  function TrimSpace(s: string): string {
    if s == "" then s
    else if IsSpace(s[0]) then TrimSpace(s[1..])
    else if IsSpace(s[|s| - 1]) then TrimSpace(s[..|s| - 1])
    else s
  }

  /** The letters that become ASCII letters: two of them are not ASCII letters themselves. */
  function Lower(c: char): char {
    if 'A' <= c <= 'Z' then ((c as int) + 32) as char
    else if c == '\U{0130}' then 'i' else if c == '\U{212a}' then 'k' else c
  }

  function ToLower(s: string): (r: string)
    ensures |r| == |s|
  {
    seq(|s|, i requires 0 <= i < |s| => Lower(s[i]))
  }

  /** Underscores are allowed only between digits. */
  predicate UnderscoresFine(s: string) {
    forall i: nat :: i < |s| ==> BetweenDigits(s, i)
  }

  predicate BetweenDigits(s: string, i: nat)
    requires i < |s|
  {
    s[i] == '_' ==> 0 < i && i + 1 < |s| && IsDigit(s[i - 1]) && IsDigit(s[i + 1])
  }

  function RemoveUnderscores(s: string): string {
    if s == "" then "" else (if s[0] == '_' then "" else [s[0]]) + RemoveUnderscores(s[1..])
  }

  predicate IsExponentMark(c: char) { c in "eEdD" }

  /** The first position satisfying a test, or the length. */
  function IndexOfMark(s: string): (i: nat)
    ensures i <= |s|
  {
    if s == "" || IsExponentMark(s[0]) then 0 else 1 + IndexOfMark(s[1..])
  }

  function IndexOfPoint(s: string): (i: nat)
    ensures i <= |s|
  {
    if s == "" || s[0] == '.' then 0 else 1 + IndexOfPoint(s[1..])
  }

  function Signed(negative: bool, n: nat): int { if negative then 0 - n else n }

  /** An optionally signed decimal integer. */
  function ParseInt(s: string): Option<int> {
    if s == "" then None else
    var signed := s[0] == '+' || s[0] == '-';
    var digits := if signed then s[1..] else s;
    if digits == "" || !AllDigits(digits) then None
    else Some(Signed(s[0] == '-', ValueOf(digits)))
  }

  /** Digits with at most one point; the result is the coefficient and the number of fraction digits. */
  function ParseMantissa(s: string): Option<(nat, nat)> {
    var p := IndexOfPoint(s);
    if p == |s| then (if s != "" && AllDigits(s) then Some((ValueOf(s), 0)) else None) else
    var whole, fraction := s[..p], s[p + 1..];
    if IndexOfPoint(fraction) < |fraction| || (whole == "" && fraction == "") || !AllDigits(whole + fraction) then None
    else Some((ValueOf(whole + fraction), |fraction|))
  }

  function Overflow(exponent: int, negative: bool): Decimal {
    if exponent > 0 then Infinity(negative) else Finite(0, 0, negative)
  }

  /** parseBigDecimal after the sign and the underscores. */
  function ParseUnsigned(s: string, negative: bool): Option<Decimal> {
    var mark := IndexOfMark(s);
    if mark == |s| then ParseScaled(s, 0, negative) else
    var text := s[mark + 1..];
    if IndexOfMark(text) < |text| then None else
    var exponent := ParseInt(text);
    if exponent.None? then None
    else if !Fits(exponent.value) then Some(Overflow(exponent.value, negative))
    else ParseScaled(s[..mark], exponent.value, negative)
  }

  function ParseScaled(s: string, exponent: int, negative: bool): Option<Decimal> {
    var m := ParseMantissa(s);
    if m.None? then None
    else Some(Normalize(Signed(negative, m.value.0), exponent - m.value.1, negative))
  }

  function Parse(input: string): Option<Decimal> {
    var s := TrimSpace(input);
    var lower := ToLower(s);
    if lower == "nan" then Some(NaN)
    else if lower == "infinity" || lower == "+infinity" then Some(Infinity(false))
    else if lower == "-infinity" then Some(Infinity(true))
    else if s == "" then None
    else
      var body := if s[0] == '+' || s[0] == '-' then s[1..] else s;
      if body == "" || !UnderscoresFine(body) then None
      else ParseUnsigned(RemoveUnderscores(body), s[0] == '-')
  }

  // ---------------------------------------------------------------- plain text

  /** Text made of digits, points, signs and exponent marks is not touched by trimming or underscore removal. */
  predicate PlainChar(c: char) { IsDigit(c) || c == '.' || c == '-' || c == 'e' }

  predicate Plain(s: string) {
    forall i :: 0 <= i < |s| ==> PlainChar(s[i])
  }

  lemma {:induction false} PlainUntouched(s: string)
    requires Plain(s)
    ensures TrimSpace(s) == s && UnderscoresFine(s) && RemoveUnderscores(s) == s
  {
    NoUnderscores(s);
  }

  lemma {:induction false} NoUnderscores(s: string)
    requires Plain(s)
    ensures RemoveUnderscores(s) == s
  {
    if s != "" {
      NoUnderscores(s[1..]);
      assert s == [s[0]] + s[1..];
    }
  }

  lemma {:induction false} SignedText(negative: bool, body: string)
    requires Plain(body) && body != "" && IsDigit(body[0])
    ensures var s := SignText(negative) + body;
            && Plain(s) && s != "" && ToLower(s) != "nan" && ToLower(s) != "infinity" && ToLower(s) != "+infinity" && ToLower(s) != "-infinity"
            && (negative ==> s[0] == '-' && s[1..] == body) && (!negative ==> s == body)
  {
    var s := SignText(negative) + body;
    var first := if negative then 1 else 0;
    assert s[first] == body[0];
    NotAWord(s, first);
  }

  /** Text that starts with a digit, after an optional minus sign, is parsed as a number. */
  lemma {:induction false} ParsePlain(negative: bool, body: string)
    requires Plain(body) && body != "" && IsDigit(body[0])
    ensures Parse(SignText(negative) + body) == ParseUnsigned(body, negative)
  {
    hide Plain, ToLower, TrimSpace, UnderscoresFine, RemoveUnderscores, ParseUnsigned, SignText;
    SignedText(negative, body);
    PlainUntouched(SignText(negative) + body);
    PlainUntouched(body);
  }

  lemma {:induction false} NotAWord(s: string, first: nat)
    requires first <= 1 && first < |s| && IsDigit(s[first])
    ensures ToLower(s) != "nan" && ToLower(s) != "infinity" && ToLower(s) != "+infinity" && ToLower(s) != "-infinity"
  {
    assert ToLower(s)[first] == s[first];
  }

  lemma {:induction false} NoMark(s: string)
    requires forall i :: 0 <= i < |s| ==> !IsExponentMark(s[i])
    ensures IndexOfMark(s) == |s|
  {
    if s != "" { NoMark(s[1..]); }
  }

  lemma {:induction false} MarkAt(a: string, b: string)
    requires forall i :: 0 <= i < |a| ==> !IsExponentMark(a[i])
    ensures IndexOfMark(a + "e" + b) == |a|
  {
    if a == "" {
      assert ("" + "e" + b)[0] == 'e';
    } else {
      MarkAt(a[1..], b);
      assert (a + "e" + b)[1..] == a[1..] + "e" + b;
    }
  }

  lemma {:induction false} DigitsHaveNoPoint(s: string)
    requires AllDigits(s)
    ensures IndexOfPoint(s) == |s|
  {
    if s != "" { DigitsHaveNoPoint(s[1..]); }
  }

  lemma {:induction false} PointAt(a: string, b: string)
    requires AllDigits(a)
    ensures IndexOfPoint(a + "." + b) == |a|
  {
    if a == "" {
      assert ("" + "." + b)[0] == '.';
    } else {
      PointAt(a[1..], b);
      assert (a + "." + b)[1..] == a[1..] + "." + b;
    }
  }

  /** Digits, a point, digits. */
  lemma {:induction false} MantissaOf(whole: string, fraction: string)
    requires AllDigits(whole) && AllDigits(fraction) && whole != ""
    ensures ParseMantissa(whole + "." + fraction) == Some((ValueOf(whole) * Pow10(|fraction|) + ValueOf(fraction), |fraction|))
  {
    var s := whole + "." + fraction;
    PointAt(whole, fraction);
    DigitsHaveNoPoint(fraction);
    assert s[..|whole|] == whole && s[|whole| + 1..] == fraction;
    ValueConcat(whole, fraction);
  }

  lemma {:induction false} DigitsArePlain(s: string)
    requires AllDigits(s)
    ensures Plain(s) && forall i :: 0 <= i < |s| ==> !IsExponentMark(s[i])
  {
  }

  lemma {:induction false} NegativeParses(digits: string)
    requires AllDigits(digits) && digits != ""
    ensures var s := "-" + digits; ParseInt(s) == Some(0 - ValueOf(digits)) && Plain(s) && IndexOfMark(s) == |s|
  {
    var s := "-" + digits;
    assert s[0] == '-' && s[1..] == digits;
    DigitsArePlain(digits);
    NoMark(s);
  }

  lemma {:induction false} PositiveParses(digits: string)
    requires AllDigits(digits) && digits != ""
    ensures ParseInt(digits) == Some(ValueOf(digits) as int) && Plain(digits) && IndexOfMark(digits) == |digits|
  {
    assert IsDigit(digits[0]);
    DigitsArePlain(digits);
    NoMark(digits);
  }

  lemma {:induction false} ItoaParses(x: int)
    ensures ParseInt(Itoa(x)) == Some(x) && Plain(Itoa(x)) && IndexOfMark(Itoa(x)) == |Itoa(x)|
  {
    hide ParseInt, Plain, IndexOfMark, AllDigits, ValueOf, DigitsOf;
    DigitsValue(Abs(x));
    if x < 0 { NegativeParses(DigitsOf(-x)); } else { PositiveParses(DigitsOf(x)); }
  }

  lemma {:induction false} Untrimmed(s: string)
    requires s != "" && !IsSpace(s[0]) && !IsSpace(s[|s| - 1])
    ensures TrimSpace(s) == s
  {
  }

  // ---------------------------------------------------------------- round trips

  /** A canonical coefficient with its sign normalizes to itself, whatever zeros stand behind it. */
  lemma {:induction false} NormalizeSigned(d: Decimal, k: nat, e: int)
    requires d.Finite? && Normal(d) && d.coefficient != 0 && e + k == d.exponent
    ensures var n := Abs(d.coefficient) * Pow10(k);
            Normalize(Signed(d.coefficient < 0, n), e, d.coefficient < 0) == d
  {
    StripPower(d.coefficient, e, k);
    NegateProduct(d.coefficient, Pow10(k));
  }

  lemma {:induction false} NegateProduct(c: int, p: int)
    ensures Abs(c) * p == if c < 0 then -(c * p) else c * p
  {
    if c < 0 { assert (-c) * p == -(c * p); }
  }

  lemma {:induction false} ScientificText(sign: string, digits: string, exponent: string)
    ensures sign + "0." + digits + "e" + exponent == sign + ("0" + "." + digits + "e" + exponent)
  {
    assert "0." == "0" + ".";
  }

  lemma {:induction false} SmallText(sign: string, zeros: string, digits: string)
    ensures sign + "0." + zeros + digits == sign + ("0" + "." + (zeros + digits))
  {
    assert "0." == "0" + ".";
  }

  lemma {:induction false} LargeText(sign: string, digits: string, zeros: string)
    ensures sign + digits + zeros + ".0" == sign + (digits + zeros + "." + "0")
  {
    assert ".0" == "." + "0";
  }

  lemma {:induction false} MiddleText(sign: string, whole: string, fraction: string)
    ensures sign + whole + "." + fraction == sign + (whole + "." + fraction)
  {
  }

  /** The default form parses back to the same value, sign of zero included, when the printed exponent is a machine
      integer. */
  lemma {:induction false} ToSRoundTrip(d: Decimal)
    requires Normal(d) && (d.Finite? ==> Fits(|DigitsOf(Abs(d.coefficient))| + d.exponent))
    ensures Parse(ToS(d)) == Some(d)
  {
    match d
    case NaN =>
      Untrimmed("NaN");
      assert ToLower("NaN") == "nan";
    case Infinity(negative) => InfinityRoundTrip(negative);
    case Finite(c, _, negativeZero) =>
      if c == 0 { ZeroRoundTrip(negativeZero); } else { ScientificRoundTrip(d); }
  }

  lemma {:induction false} InfinityRoundTrip(negative: bool)
    ensures Parse(SignText(negative) + "Infinity") == Some(Infinity(negative))
  {
    if negative {
      var s := "-Infinity";
      assert "-" + "Infinity" == s;
      Untrimmed(s);
      assert ToLower(s) == "-infinity";
      assert ToLower(s)[0] == '-' && "+infinity"[0] == '+' && |ToLower(s)| == 9;
    } else {
      var s := "Infinity";
      assert "" + "Infinity" == s;
      Untrimmed(s);
      assert ToLower(s) == "infinity";
      assert |ToLower(s)| == 8;
    }
  }

  lemma {:induction false} ZeroRoundTrip(negative: bool)
    ensures Parse(SignText(negative) + "0.0") == Some(Finite(0, 0, negative))
  {
    ParsePlain(negative, "0.0");
    assert "0.0" == "0" + "." + "0";
    MantissaOf("0", "0");
    NoMark("0.0");
    assert ValueOf("0") == 0 by { assert "0"[..0] == ""; }
  }

  /** A number written as 0.digits and an exponent. */
  lemma {:induction false} ScientificForm(negative: bool, digits: string, shown: int)
    requires AllDigits(digits) && Fits(shown)
    ensures Parse(SignText(negative) + ("0" + "." + digits + "e" + Itoa(shown)))
            == Some(Normalize(Signed(negative, ValueOf(digits)), shown - |digits|, negative))
  {
    hide Itoa, Normalize, ValueOf, Parse, ParseMantissa, Signed, Pow10;
    var mantissa := "0" + "." + digits;
    var body := mantissa + "e" + Itoa(shown);
    ItoaParses(shown);
    DigitsArePlain(digits);
    assert Plain(mantissa) && Plain(body) && body[0] == '0';
    ParsePlain(negative, body);
    MarkAt(mantissa, Itoa(shown));
    assert body[..|mantissa|] == mantissa && body[|mantissa| + 1..] == Itoa(shown);
    MantissaOf("0", digits);
    LeadingZero(digits);
  }

  lemma {:induction false} ScientificRoundTrip(d: Decimal)
    requires d.Finite? && Normal(d) && d.coefficient != 0 && Fits(|DigitsOf(Abs(d.coefficient))| + d.exponent)
    ensures Parse(ToS(d)) == Some(d)
  {
    hide Itoa, Normalize, ValueOf, Parse, DigitsOf, Normal;
    var digits := DigitsOf(Abs(d.coefficient));
    var shown := |digits| + d.exponent;
    ScientificText(SignText(d.coefficient < 0), digits, Itoa(shown));
    ScientificForm(d.coefficient < 0, digits, shown);
    DigitsValue(Abs(d.coefficient));
    NormalizeOnce(d);
  }

  lemma {:induction false} NormalizeOnce(d: Decimal)
    requires d.Finite? && Normal(d) && d.coefficient != 0
    ensures Normalize(Signed(d.coefficient < 0, Abs(d.coefficient)), d.exponent, d.coefficient < 0) == d
  {
    NormalizeSigned(d, 0, d.exponent);
    assert Abs(d.coefficient) * Pow10(0) == Abs(d.coefficient);
  }

  lemma {:induction false} LeadingZero(s: string)
    requires AllDigits(s)
    ensures ValueOf("0") * Pow10(|s|) + ValueOf(s) == ValueOf(s)
  {
    assert ValueOf("0") == 0 by { assert "0"[..0] == ""; }
  }

  /** The fixed-point form parses back to the same value, for every finite canonical decimal. */
  lemma {:induction false} FixedRoundTrip(d: Decimal)
    requires d.Finite? && Normal(d)
    ensures Parse(FixedString(d)) == Some(d)
  {
    var position := |DigitsOf(Abs(d.coefficient))| + d.exponent;
    if d.coefficient == 0 {
      assert DigitsOf(0) == "0" && Zeros(0) == "";
      assert SignOf(d) == SignText(d.negativeZero);
      assert FixedString(d) == SignText(d.negativeZero) + "0.0";
      ZeroRoundTrip(d.negativeZero);
    } else if position <= 0 {
      SmallRoundTrip(d);
    } else if position >= |DigitsOf(Abs(d.coefficient))| {
      LargeRoundTrip(d);
    } else {
      MiddleRoundTrip(d);
    }
  }

  /** A number written as digits, a point and digits. */
  lemma {:induction false} PointForm(negative: bool, whole: string, fraction: string, e: int)
    requires AllDigits(whole) && AllDigits(fraction) && whole != "" && e + |fraction| == 0
    ensures var n := ValueOf(whole) * Pow10(|fraction|) + ValueOf(fraction);
            Parse(SignText(negative) + (whole + "." + fraction)) == Some(Normalize(Signed(negative, n), e, negative))
  {
    hide Normalize, ValueOf, Parse, ParseMantissa;
    var body := whole + "." + fraction;
    DigitsArePlain(whole);
    DigitsArePlain(fraction);
    assert body[0] == whole[0] && Plain(body);
    ParsePlain(negative, body);
    NoMark(body);
    MantissaOf(whole, fraction);
  }

  /** Which form a nonzero value is printed in. */
  lemma {:induction false} FixedCase(d: Decimal, negative: bool, digits: string)
    requires d.Finite? && !d.negativeZero && digits == DigitsOf(Abs(d.coefficient)) && negative == (d.coefficient < 0)
    ensures var position := |digits| + d.exponent;
            && (position <= 0 ==> FixedString(d) == FixedSmall(SignText(negative), digits, -position))
            && (d.exponent >= 0 && position > 0 ==> FixedString(d) == FixedLarge(SignText(negative), digits, d.exponent))
            && (0 < position < |digits| ==> FixedString(d) == FixedMiddle(SignText(negative), digits, position))
  {
    assert SignOf(d) == SignText(negative);
    hide SignOf, DigitsOf, Abs, FixedSmall, FixedLarge, FixedMiddle, SignText;
  }

  lemma {:induction false} SmallForm(negative: bool, digits: string, zeros: nat, e: int)
    requires AllDigits(digits) && zeros + |digits| + e == 0
    ensures Parse(FixedSmall(SignText(negative), digits, zeros)) == Some(Normalize(Signed(negative, ValueOf(digits)), e, negative))
  {
    SmallText(SignText(negative), Zeros(zeros), digits);
    hide ValueOf, AllDigits, Parse, Normalize, Signed, Pow10, Zeros, SignText;
    Padded(digits, zeros);
    LeadingZero(Zeros(zeros) + digits);
    ZeroIsDigits();
    PointForm(negative, "0", Zeros(zeros) + digits, e);
  }

  lemma {:induction false} SmallRoundTrip(d: Decimal)
    requires d.Finite? && Normal(d) && d.coefficient != 0 && |DigitsOf(Abs(d.coefficient))| + d.exponent <= 0
    ensures Parse(FixedString(d)) == Some(d)
  {
    NormalizeOnce(d);
    var negative, digits := d.coefficient < 0, DigitsOf(Abs(d.coefficient));
    FixedCase(d, negative, digits);
    DigitsValue(Abs(d.coefficient));
    hide DigitsOf, Normalize, Normal, Abs, ValueOf, Parse, Signed, FixedSmall, AllDigits, SignText, FixedString;
    SmallForm(negative, digits, -(|digits| + d.exponent), d.exponent);
  }

  lemma {:induction false} LargeForm(negative: bool, digits: string, zeros: nat)
    requires AllDigits(digits) && digits != ""
    ensures Parse(FixedLarge(SignText(negative), digits, zeros))
            == Some(Normalize(Signed(negative, ValueOf(digits) * Pow10(zeros + 1)), -1, negative))
  {
    assert digits + Zeros(zeros) != "";
    hide FixedLarge, SignText;
    LargeText(SignText(negative), digits, Zeros(zeros));
    LastZero(ValueOf(digits), zeros);
    hide ValueOf, AllDigits, Parse, Normalize, Signed, Pow10, Zeros;
    Padded(digits, zeros);
    ZeroIsDigits();
    PointForm(negative, digits + Zeros(zeros), "0", -1);
  }

  lemma {:induction false} ZeroIsDigits()
    ensures AllDigits("0")
  {
  }

  lemma {:induction false} LargeRoundTrip(d: Decimal)
    requires d.Finite? && Normal(d) && d.coefficient != 0 && d.exponent >= 0
    ensures Parse(FixedString(d)) == Some(d)
  {
    NormalizeSigned(d, d.exponent + 1, -1);
    var negative, digits := d.coefficient < 0, DigitsOf(Abs(d.coefficient));
    FixedCase(d, negative, digits);
    DigitsValue(Abs(d.coefficient));
    hide DigitsOf, Normalize, Normal, Abs, ValueOf, Parse, Signed, FixedLarge, AllDigits, SignText, FixedString, Pow10;
    LargeForm(negative, digits, d.exponent);
  }

  lemma {:induction false} LastZero(n: int, e: nat)
    ensures ValueOf("0") == 0 && (n * Pow10(e)) * Pow10(|"0"|) == n * Pow10(e + 1)
  {
    assert ValueOf("0") == 0 by { assert "0"[..0] == ""; }
    assert Pow10(1) == 10;
    Exchange(n, 10, Pow10(e));
  }

  lemma {:induction false} SliceDigits(digits: string, position: nat)
    requires AllDigits(digits) && 0 < position < |digits|
    ensures AllDigits(digits[..position]) && AllDigits(digits[position..]) && digits[..position] != ""
    ensures digits[..position] + digits[position..] == digits
  {
  }

  lemma {:induction false} MiddleForm(negative: bool, digits: string, position: nat)
    requires AllDigits(digits) && 0 < position < |digits|
    ensures Parse(FixedMiddle(SignText(negative), digits, position))
            == Some(Normalize(Signed(negative, ValueOf(digits)), position - |digits|, negative))
  {
    hide ValueOf, AllDigits, Parse, Normalize, Signed, Pow10, SignText;
    SliceDigits(digits, position);
    var whole, fraction := digits[..position], digits[position..];
    MiddleText(SignText(negative), whole, fraction);
    ValueConcat(whole, fraction);
    PointForm(negative, whole, fraction, position - |digits|);
  }

  lemma {:induction false} MiddleRoundTrip(d: Decimal)
    requires d.Finite? && Normal(d) && d.coefficient != 0
    requires var n := |DigitsOf(Abs(d.coefficient))|; 0 < n + d.exponent < n
    ensures Parse(FixedString(d)) == Some(d)
  {
    NormalizeOnce(d);
    var negative, digits := d.coefficient < 0, DigitsOf(Abs(d.coefficient));
    FixedCase(d, negative, digits);
    DigitsValue(Abs(d.coefficient));
    hide DigitsOf, Normalize, Normal, Abs, ValueOf, Parse, Signed, FixedMiddle, AllDigits, SignText, FixedString;
    MiddleForm(negative, digits, |digits| + d.exponent);
  }
}
