/** What a text denotes as a decimal. */
module DecimalReading {
  import opened Options
  import opened Int64
  import opened Digits
  import opened Decimals
  import opened DecimalText
  import opened DecimalNumerals

  // ---------------------------------------------------------------- meaning

  /** The canonical decimal with the numeral's value; a zero keeps the sign. */
  ghost predicate Denotes(n: Numeral, negative: bool, d: Decimal)
    requires NumeralFine(n)
  {
    && d.Finite? && Normal(d)
    && Value(d) == Scale(if negative then 0 - Coefficient(n) else Coefficient(n), TenTo(Power(n) - |n.fraction|))
    && (d.negativeZero <==> negative && Coefficient(n) == 0)
  }

  lemma {:induction false} ZeroIff(d: Decimal)
    requires d.Finite?
    ensures d.coefficient == 0 <==> Value(d) == 0.0
  {
    var t := TenTo(d.exponent);
    if d.coefficient > 0 { assert (d.coefficient as real) * t > 0.0; }
    if d.coefficient < 0 { assert (-d.coefficient as real) * t > 0.0; assert (-d.coefficient as real) * t == -((d.coefficient as real) * t); }
  }

  /** There is only one such decimal. */
  lemma {:induction false} DenotesOne(n: Numeral, negative: bool, d: Decimal, e: Decimal)
    requires NumeralFine(n) && Denotes(n, negative, d) && Denotes(n, negative, e)
    ensures d == e
  {
    ZeroIff(d);
    ZeroIff(e);
    if d.coefficient != 0 {
      CanonicalUnique(d.coefficient, d.exponent, e.coefficient, e.exponent);
    }
    hide Scale, TenTo, Coefficient, Power;
  }

  lemma {:induction false} NormalizedDenotes(n: Numeral, negative: bool)
    requires NumeralFine(n)
    ensures Denotes(n, negative, Normalize(Signed(negative, Coefficient(n)), Power(n) - |n.fraction|, negative))
  {
    hide Strip, Scale, TenTo, Power, Coefficient;
    NormalizeKeepsValue(Signed(negative, Coefficient(n)), Power(n) - |n.fraction|, negative);
  }

  // ---------------------------------------------------------------- trimming

  /** The code points of white space. */
  predicate White(c: char) {
    var x := c as int;
    9 <= x <= 13 || x in {0x20, 0x85, 0xa0, 0x1680, 0x2028, 0x2029, 0x202f, 0x205f, 0x3000} || 0x2000 <= x <= 0x200a
  }

  lemma {:induction false} SpaceIsWhite(c: char)
    ensures IsSpace(c) <==> White(c)
  {
  }

  predicate Blank(s: string) {
    forall i :: 0 <= i < |s| ==> White(s[i])
  }

  predicate Trimmed(s: string) {
    s != "" && !White(s[0]) && !White(s[|s| - 1])
  }

  lemma {:induction false} TrimPadded(a: string, s: string, b: string)
    requires Blank(a) && Blank(b) && Trimmed(s)
    ensures TrimSpace(a + s + b) == s
    decreases |a| + |b|
  {
    forall c ensures IsSpace(c) <==> White(c) { SpaceIsWhite(c); }
    hide White;
    if a != "" {
      assert (a + s + b)[1..] == a[1..] + s + b && (a + s + b)[0] == a[0];
      TrimPadded(a[1..], s, b);
    } else if b != "" {
      var text := a + s + b;
      assert text[0] == s[0] && text[|text| - 1] == b[|b| - 1] && text[..|text| - 1] == a + s + b[..|b| - 1];
      TrimPadded(a, s, b[..|b| - 1]);
    } else {
      assert a + s + b == s;
    }
  }

  lemma {:induction false} BlankBefore(input: string, a: string, t: string, b: string)
    requires input != "" && White(input[0]) && Blank(a) && input[1..] == a + t + b
    ensures Blank([input[0]] + a) && input == [input[0]] + a + t + b
  {
    hide White;
  }

  lemma {:induction false} BlankAfter(input: string, a: string, t: string, b: string)
    requires input != "" && White(input[|input| - 1]) && Blank(b) && input[..|input| - 1] == a + t + b
    ensures Blank(b + [input[|input| - 1]]) && input == a + t + (b + [input[|input| - 1]])
  {
    hide White;
    assert input == input[..|input| - 1] + [input[|input| - 1]];
  }

  lemma {:induction false} TrimSplits(input: string) returns (a: string, b: string)
    ensures Blank(a) && Blank(b) && input == a + TrimSpace(input) + b
    ensures TrimSpace(input) != "" ==> Trimmed(TrimSpace(input))
    decreases |input|
  {
    forall c ensures IsSpace(c) <==> White(c) { SpaceIsWhite(c); }
    hide IsSpace, White, Blank;
    assert Blank("");
    if input == "" {
      a, b := "", "";
    } else if IsSpace(input[0]) {
      a, b := TrimSplits(input[1..]);
      BlankBefore(input, a, TrimSpace(input[1..]), b);
      a := [input[0]] + a;
    } else if IsSpace(input[|input| - 1]) {
      a, b := TrimSplits(input[..|input| - 1]);
      BlankAfter(input, a, TrimSpace(input[..|input| - 1]), b);
      b := b + [input[|input| - 1]];
    } else {
      a, b := "", "";
      assert "" + input + "" == input;
    }
  }

  // ---------------------------------------------------------------- the language

  /** The letter l, in either case; a capital I with a dot counts as one. */
  predicate SameLetter(c: char, l: char) {
    c == l || ('a' <= l <= 'z' && (c as int) + 32 == l as int) || (l == 'i' && c == '\U{0130}')
  }

  predicate AnyCase(s: string, word: string) {
    |s| == |word| && forall i :: 0 <= i < |s| ==> SameLetter(s[i], word[i])
  }

  lemma {:induction false} LowerIff(s: string, word: string)
    requires forall i :: 0 <= i < |word| ==> word[i] in "+-nafity"
    ensures ToLower(s) == word <==> AnyCase(s, word)
  {
    if |s| == |word| {
      forall i | 0 <= i < |s| ensures Lower(s[i]) == word[i] <==> SameLetter(s[i], word[i]) { LowerLetter(s[i], word[i]); }
      hide Lower, SameLetter;
      if AnyCase(s, word) { assert forall i :: 0 <= i < |s| ==> ToLower(s)[i] == word[i]; }
      if ToLower(s) == word { assert forall i :: 0 <= i < |s| ==> ToLower(s)[i] == word[i]; }
    }
  }

  lemma {:induction false} LowerLetter(c: char, l: char)
    requires l in "+-nafity"
    ensures Lower(c) == l <==> SameLetter(c, l)
  {
  }

  /** nan, infinity and +infinity, -infinity, in any case of letters. */
  function WordValue(s: string): Option<Decimal> {
    if AnyCase(s, "nan") then Some(NaN)
    else if AnyCase(s, "infinity") || AnyCase(s, "+infinity") then Some(Infinity(false))
    else if AnyCase(s, "-infinity") then Some(Infinity(true))
    else None
  }

  /** s is text with underscores between some of its digits. */
  ghost predicate SpreadOf(s: string, text: string) {
    '_' !in text && exists gaps: seq<bool> :: GapsFine(text, gaps) && s == Spread(text, gaps)
  }

  /** A numeral whose exponent is a machine integer. */
  ghost predicate ReadsNumeral(s: string, negative: bool, d: Decimal) {
    exists n: Numeral :: NumeralFine(n) && Fits(Power(n)) && SpreadOf(s, NumeralText(n)) && Denotes(n, negative, d)
  }

  /** Any text, and an exponent that is no machine integer: infinity, or a zero. */
  ghost predicate ReadsOverflow(s: string, negative: bool, d: Decimal) {
    exists head: string, e: Exponent ::
      && NoMarks(head) && ExponentFine(e) && !Fits(ExponentNumber(e)) && SpreadOf(s, head + ExponentText(e))
      && d == if ExponentNumber(e) > 0 then Infinity(negative) else Finite(0, 0, negative)
  }

  /** A sign in front belongs to the number. */
  ghost predicate ReadsSigned(s: string, d: Decimal)
    requires s != ""
  {
    var signed := s[0] == '+' || s[0] == '-';
    var body := if signed then s[1..] else s;
    ReadsNumeral(body, s[0] == '-', d) || ReadsOverflow(body, s[0] == '-', d)
  }

  ghost predicate ReadsCore(s: string, d: Decimal)
    requires s != ""
  {
    if WordValue(s).Some? then d == WordValue(s).value else ReadsSigned(s, d)
  }

  /** What a text denotes: blanks around it do not count. */
  ghost predicate Reads(input: string, d: Decimal) {
    exists a: string, s: string, b: string :: Blank(a) && Blank(b) && Trimmed(s) && input == a + s + b && ReadsCore(s, d)
  }

  // ---------------------------------------------------------------- the parser reads exactly this

  lemma {:induction false} NumeralHasNoUnderscore(n: Numeral)
    requires NumeralFine(n)
    ensures '_' !in NumeralText(n) && NumeralText(n) != ""
  {
    var s := NumeralText(n);
    forall i | 0 <= i < |s| ensures s[i] != '_' {
      assert i < |MantissaText(n)| ==> s[i] == MantissaText(n)[i];
    }
    assert n.whole + n.fraction != "" ==> MantissaText(n) != "";
  }

  /** The body of a number: after the sign. */
  function ParseBody(body: string, negative: bool): Option<Decimal> {
    if body == "" || !UnderscoresFine(body) then None else ParseUnsigned(RemoveUnderscores(body), negative)
  }

  lemma {:induction false} SpreadParses(s: string, text: string, negative: bool)
    requires SpreadOf(s, text) && text != ""
    ensures ParseBody(s, negative) == ParseUnsigned(text, negative)
  {
    var gaps: seq<bool> :| GapsFine(text, gaps) && s == Spread(text, gaps);
    SpreadIsFine(text, gaps);
    SpreadHead(text, gaps);
    hide Spread, GapsFine, UnderscoresFine, RemoveUnderscores, ParseUnsigned;
  }

  lemma {:induction false} NumeralReads(s: string, n: Numeral, negative: bool, d: Decimal)
    requires NumeralFine(n) && Fits(Power(n)) && SpreadOf(s, NumeralText(n)) && Denotes(n, negative, d)
    ensures ParseBody(s, negative) == Some(d)
  {
    hide *;
    NumeralHasNoUnderscore(n);
    SpreadParses(s, NumeralText(n), negative);
    ParsesNumeral(n, negative);
    NormalizedDenotes(n, negative);
    DenotesOne(n, negative, d, Normalize(Signed(negative, Coefficient(n)), Power(n) - |n.fraction|, negative));
  }

  lemma {:induction false} OverflowReads(s: string, head: string, e: Exponent, negative: bool)
    requires NoMarks(head) && ExponentFine(e) && !Fits(ExponentNumber(e)) && SpreadOf(s, head + ExponentText(e))
    ensures ParseBody(s, negative) == Some(if ExponentNumber(e) > 0 then Infinity(negative) else Finite(0, 0, negative))
  {
    assert head + ExponentText(e) != "";
    hide *;
    SpreadParses(s, head + ExponentText(e), negative);
    ExponentParses(head, e, negative);
  }

  lemma {:induction false} BodyIff(s: string, negative: bool, d: Decimal)
    ensures ParseBody(s, negative) == Some(d) <==> ReadsNumeral(s, negative, d) || ReadsOverflow(s, negative, d)
  {
    if ParseBody(s, negative) == Some(d) { BodyIsRead(s, negative, d); }
    hide ParseBody, SpreadOf, Denotes, NumeralFine, ExponentFine;
    if ReadsNumeral(s, negative, d) {
      var n: Numeral :| NumeralFine(n) && Fits(Power(n)) && SpreadOf(s, NumeralText(n)) && Denotes(n, negative, d);
      NumeralReads(s, n, negative, d);
    }
    if ReadsOverflow(s, negative, d) {
      var head: string, e: Exponent :| NoMarks(head) && ExponentFine(e) && !Fits(ExponentNumber(e)) && SpreadOf(s, head + ExponentText(e))
        && d == if ExponentNumber(e) > 0 then Infinity(negative) else Finite(0, 0, negative);
      OverflowReads(s, head, e, negative);
    }
  }

  lemma {:induction false} BodyIsRead(s: string, negative: bool, d: Decimal)
    requires ParseBody(s, negative) == Some(d)
    ensures ReadsNumeral(s, negative, d) || ReadsOverflow(s, negative, d)
  {
    var text := RemoveUnderscores(s);
    var gaps := Gather(s);
    assert SpreadOf(s, text);
    hide SpreadOf, UnderscoresFine, RemoveUnderscores, ParseUnsigned, Denotes, Normalize;
    var n, head := ParsedUnsigned(text, negative);
    if NumeralFine(n) && Fits(Power(n)) && NumeralText(n) == text {
      ParsesNumeral(n, negative);
      NormalizedDenotes(n, negative);
    } else {
      ExponentParses(head, n.exponent.value, negative);
    }
  }

  lemma {:induction false} ParseSteps(input: string)
    ensures var s := TrimSpace(input);
            Parse(input) ==
            if s == "" then None else if WordValue(s).Some? then WordValue(s)
            else ParseBody(if s[0] == '+' || s[0] == '-' then s[1..] else s, s[0] == '-')
  {
    hide TrimSpace, UnderscoresFine, RemoveUnderscores, ParseUnsigned, AnyCase, ToLower;
    var s := TrimSpace(input);
    LowerIff(s, "nan");
    LowerIff(s, "infinity");
    LowerIff(s, "+infinity");
    LowerIff(s, "-infinity");
  }

  /** The parser gives a decimal for a text if and only if that is what the text denotes; all other texts are refused. */
  lemma {:induction false} ParseIff(input: string, d: Decimal)
    ensures Parse(input) == Some(d) <==> Reads(input, d)
  {
    var s := TrimSpace(input);
    ParseSteps(input);
    hide TrimSpace, ReadsNumeral, ReadsOverflow, ParseBody, WordValue, White;
    if s != "" { BodyIff(if s[0] == '+' || s[0] == '-' then s[1..] else s, s[0] == '-', d); }
    if Parse(input) == Some(d) {
      var a, b := TrimSplits(input);
      assert Blank(a) && Blank(b) && Trimmed(s) && input == a + s + b && ReadsCore(s, d);
    }
    if Reads(input, d) {
      var a: string, t: string, b: string :| Blank(a) && Blank(b) && Trimmed(t) && input == a + t + b && ReadsCore(t, d);
      TrimPadded(a, t, b);
    }
  }

  // ---------------------------------------------------------------- instances

  /** The digits of an integer, after a sign or none, are that integer. */
  lemma {:induction false} IntegerParses(n: nat, sign: string)
    requires SignFine(sign)
    ensures var d := Parse(sign + DigitsOf(n));
            && d.Some? && d.value.Finite? && Normal(d.value)
            && Value(d.value) == if sign == "-" then -(n as real) else n as real
  {
    var digits, negative := DigitsOf(n), sign == "-";
    var numeral := Numeral(digits, false, "", None);
    DigitsValue(n);
    assert digits + "" == digits;
    assert NumeralFine(numeral) && Coefficient(numeral) == n && Power(numeral) == 0 && NumeralText(numeral) == digits;
    IntegerText(sign, digits);
    ParsesNumeral(numeral, negative);
    NormalizedDenotes(numeral, negative);
    assert TenTo(0) == 1.0;
    hide Parse, ParseUnsigned, Normalize, DigitsOf, ValueOf;
  }

  lemma {:induction false} IntegerText(sign: string, digits: string)
    requires SignFine(sign) && AllDigits(digits) && digits != ""
    ensures Parse(sign + digits) == ParseUnsigned(digits, sign == "-")
  {
    var s := sign + digits;
    SignParts(sign, digits);
    DigitsArePlain(digits);
    hide *;
    Untrimmed(s);
    PlainUntouched(digits);
    ParseSteps(s);
    NoWord(s);
    BodyParses(digits, sign == "-");
  }

  lemma {:induction false} BodyParses(digits: string, negative: bool)
    requires digits != "" && UnderscoresFine(digits) && RemoveUnderscores(digits) == digits
    ensures ParseBody(digits, negative) == ParseUnsigned(digits, negative)
  {
  }

  lemma {:induction false} SignParts(sign: string, digits: string)
    requires SignFine(sign) && AllDigits(digits) && digits != ""
    ensures var s := sign + digits;
            && s != "" && !IsSpace(s[0]) && !IsSpace(s[|s| - 1]) && IsDigit(s[|s| - 1])
            && (if s[0] == '+' || s[0] == '-' then s[1..] else s) == digits && (s[0] == '-' <==> sign == "-")
  {
    var s := sign + digits;
    assert s[|s| - 1] == digits[|digits| - 1] && (sign == "" ==> s == digits);
    assert sign != "" ==> s[0] == sign[0] && s[1..] == digits;
  }

  lemma {:induction false} NoWord(s: string)
    requires s != "" && IsDigit(s[|s| - 1])
    ensures WordValue(s).None?
  {
    assert !SameLetter(s[|s| - 1], 'n') && !SameLetter(s[|s| - 1], 'y');
  }
}
