/** The texts of decimal numbers. */
module DecimalNumerals {
  // A numeral by its parts, independent of how it is taken apart again.

  import opened Options
  import opened Int64
  import opened Digits
  import opened Decimals
  import opened DecimalText

  datatype Exponent = Exponent(mark: char, sign: string, digits: string)

  /** whole . fraction, and perhaps an exponent; `point` says whether the point is written. */
  datatype Numeral = Numeral(whole: string, point: bool, fraction: string, exponent: Option<Exponent>)

  predicate SignFine(s: string) { s == "" || s == "+" || s == "-" }

  predicate ExponentFine(e: Exponent) {
    e.mark in "eEdD" && SignFine(e.sign) && e.digits != "" && AllDigits(e.digits)
  }

  predicate NumeralFine(n: Numeral) {
    && AllDigits(n.whole) && AllDigits(n.fraction) && (!n.point ==> n.fraction == "") && n.whole + n.fraction != ""
    && (n.exponent.Some? ==> ExponentFine(n.exponent.value))
  }

  function ExponentText(e: Exponent): string {
    [e.mark] + (e.sign + e.digits)
  }

  function MantissaText(n: Numeral): string {
    if n.point then n.whole + "." + n.fraction else n.whole
  }

  function NumeralText(n: Numeral): string {
    if n.exponent.None? then MantissaText(n) else MantissaText(n) + ExponentText(n.exponent.value)
  }

  function ExponentNumber(e: Exponent): int
    requires ExponentFine(e)
  {
    if e.sign == "-" then 0 - ValueOf(e.digits) else ValueOf(e.digits)
  }

  function Power(n: Numeral): int
    requires NumeralFine(n)
  {
    if n.exponent.None? then 0 else ExponentNumber(n.exponent.value)
  }

  /** The digits as one number. */
  function Coefficient(n: Numeral): nat
    requires NumeralFine(n)
  {
    ValueOf(n.whole + n.fraction)
  }

  // ---------------------------------------------------------------- underscores

  /** The text with an underscore after every flagged character. */
  function Spread(s: string, gaps: seq<bool>): string
    requires |gaps| == |s|
  {
    if s == "" then "" else [s[0]] + (if gaps[0] then "_" else "") + Spread(s[1..], gaps[1..])
  }

  /** Only between digits. */
  predicate GapsFine(s: string, gaps: seq<bool>) {
    |gaps| == |s| && forall i :: 0 <= i < |s| && gaps[i] ==> i + 1 < |s| && IsDigit(s[i]) && IsDigit(s[i + 1])
  }

  lemma {:induction false} SpreadHead(s: string, gaps: seq<bool>)
    requires |gaps| == |s| && s != ""
    ensures Spread(s, gaps) != "" && Spread(s, gaps)[0] == s[0]
  {
  }

  lemma {:induction false} ConsFine(a: char, rest: string)
    requires UnderscoresFine(rest) && a != '_'
    ensures UnderscoresFine([a] + rest)
  {
    var s := [a] + rest;
    forall i: nat | i < |s| ensures BetweenDigits(s, i) {
      if i > 0 {
        assert s[i] == rest[i - 1] && BetweenDigits(rest, i - 1);
      }
    }
  }

  lemma {:induction false} GapFine(a: char, rest: string)
    requires UnderscoresFine(rest) && IsDigit(a) && rest != "" && IsDigit(rest[0])
    ensures UnderscoresFine([a] + "_" + rest)
  {
    var s := [a] + "_" + rest;
    forall i: nat | i < |s| ensures BetweenDigits(s, i) {
      if i > 1 {
        assert s[i] == rest[i - 2] && BetweenDigits(rest, i - 2);
      }
    }
  }

  /** Spread text is allowed, and taking the underscores out gives the text back. */
  lemma {:induction false} SpreadIsFine(s: string, gaps: seq<bool>)
    requires GapsFine(s, gaps) && '_' !in s
    ensures UnderscoresFine(Spread(s, gaps)) && RemoveUnderscores(Spread(s, gaps)) == s
    decreases |s|
  {
    if s != "" {
      var rest := Spread(s[1..], gaps[1..]);
      SpreadIsFine(s[1..], gaps[1..]);
      assert s[0] in s;
      if gaps[0] {
        SpreadHead(s[1..], gaps[1..]);
        GapFine(s[0], rest);
        assert Spread(s, gaps)[1..] == "_" + rest && ("_" + rest)[1..] == rest;
      } else {
        ConsFine(s[0], rest);
        assert [s[0]] + "" + rest == [s[0]] + rest;
        assert Spread(s, gaps)[1..] == rest;
      }
      assert s == [s[0]] + s[1..];
    }
  }

  lemma {:induction false} TailFine(raw: string, k: nat)
    requires UnderscoresFine(raw) && k <= |raw| && (k < |raw| ==> raw[k] != '_')
    ensures UnderscoresFine(raw[k..])
  {
    var s := raw[k..];
    forall i: nat | i < |s| ensures BetweenDigits(s, i) {
      assert s[i] == raw[k + i] && BetweenDigits(raw, k + i);
    }
  }

  /** Every allowed text is spread from the text without its underscores. */
  lemma {:induction false} Gather(raw: string) returns (gaps: seq<bool>)
    requires UnderscoresFine(raw)
    ensures var s := RemoveUnderscores(raw); GapsFine(s, gaps) && Spread(s, gaps) == raw && '_' !in s
    decreases |raw|
  {
    if raw == "" {
      gaps := [];
    } else {
      assert BetweenDigits(raw, 0);
      var gap := |raw| > 1 && raw[1] == '_';
      if |raw| > 1 { assert BetweenDigits(raw, 1); }
      var k := if gap then 2 else 1;
      if gap { assert raw[1..][1..] == raw[2..] && raw[1..][0] == '_'; }
      TailFine(raw, k);
      var more := Gather(raw[k..]);
      var s := RemoveUnderscores(raw[k..]);
      gaps := [gap] + more;
      GatherStep(raw, gap, k, s, more);
    }
  }

  lemma {:induction false} GatherStep(raw: string, gap: bool, k: nat, s: string, more: seq<bool>)
    requires raw != "" && raw[0] != '_' && k == (if gap then 2 else 1) && k <= |raw| && s == RemoveUnderscores(raw[k..])
    requires GapsFine(s, more) && Spread(s, more) == raw[k..] && '_' !in s
    requires gap ==> |raw| > 2 && raw[1] == '_' && IsDigit(raw[0]) && IsDigit(raw[2])
    ensures RemoveUnderscores(raw) == [raw[0]] + s && GapsFine([raw[0]] + s, [gap] + more)
    ensures Spread([raw[0]] + s, [gap] + more) == raw && '_' !in [raw[0]] + s
  {
    var t, g := [raw[0]] + s, [gap] + more;
    assert t[1..] == s && g[1..] == more;
    if gap {
      assert Spread(s, more)[0] == raw[2];
      SpreadHead(s, more);
    }
    GapsCons(raw[0], s, gap, more);
    hide GapsFine, IsDigit;
    if gap {
      assert raw[1..][1..] == raw[2..] && raw[1..][0] == '_';
      assert raw == [raw[0]] + "_" + raw[2..];
    } else {
      assert raw == [raw[0]] + "" + raw[1..];
    }
  }

  lemma {:induction false} GapsCons(a: char, s: string, gap: bool, more: seq<bool>)
    requires GapsFine(s, more) && (gap ==> IsDigit(a) && s != "" && IsDigit(s[0]))
    ensures GapsFine([a] + s, [gap] + more)
  {
    var t, g := [a] + s, [gap] + more;
    forall i | 0 <= i < |t| && g[i] ensures i + 1 < |t| && IsDigit(t[i]) && IsDigit(t[i + 1]) {
      if i > 0 { assert more[i - 1] && t[i] == s[i - 1]; }
    }
  }

  // ---------------------------------------------------------------- the parts of a numeral

  predicate NoMarks(s: string) {
    forall i :: 0 <= i < |s| ==> s[i] !in "eEdD"
  }

  lemma {:induction false} MarkAfter(a: string, c: char, b: string)
    requires NoMarks(a) && IsExponentMark(c)
    ensures IndexOfMark(a + ([c] + b)) == |a|
    decreases |a|
  {
    if a == "" {
      assert a + ([c] + b) == [c] + b;
    } else {
      assert (a + ([c] + b))[1..] == a[1..] + ([c] + b);
      MarkAfter(a[1..], c, b);
    }
  }

  lemma {:induction false} BeforeMark(s: string)
    ensures NoMarks(s[..IndexOfMark(s)]) && (IndexOfMark(s) < |s| ==> IsExponentMark(s[IndexOfMark(s)]))
    decreases |s|
  {
    if s != "" && !IsExponentMark(s[0]) {
      BeforeMark(s[1..]);
      var k := IndexOfMark(s);
      assert forall i :: 0 < i < k ==> s[..k][i] == s[1..][..k - 1][i - 1];
    }
  }

  lemma {:induction false} BeforePoint(s: string)
    ensures (forall i :: 0 <= i < IndexOfPoint(s) ==> s[i] != '.') && (IndexOfPoint(s) < |s| ==> s[IndexOfPoint(s)] == '.')
    decreases |s|
  {
    if s != "" && s[0] != '.' {
      BeforePoint(s[1..]);
      assert forall i :: 0 < i < IndexOfPoint(s) ==> s[i] == s[1..][i - 1];
    }
  }

  /** A signed digit string is an integer, and nothing else is. */
  lemma {:induction false} ParsesInt(sign: string, digits: string)
    requires SignFine(sign) && digits != "" && AllDigits(digits)
    ensures ParseInt(sign + digits) == Some(if sign == "-" then 0 - ValueOf(digits) else ValueOf(digits))
  {
    var s := sign + digits;
    if sign == "" {
      assert s == digits && IsDigit(s[0]);
    } else {
      assert s[0] == sign[0] && s[1..] == digits;
    }
  }

  lemma {:induction false} ParsedInt(s: string) returns (sign: string, digits: string)
    requires ParseInt(s).Some?
    ensures SignFine(sign) && digits != "" && AllDigits(digits) && s == sign + digits
  {
    if s[0] == '+' || s[0] == '-' {
      sign, digits := [s[0]], s[1..];
    } else {
      sign, digits := "", s;
    }
  }

  lemma {:induction false} ParsesMantissa(n: Numeral)
    requires NumeralFine(n)
    ensures ParseMantissa(MantissaText(n)) == Some((Coefficient(n), |n.fraction|))
  {
    var s := MantissaText(n);
    if n.point {
      PointAt(n.whole, n.fraction);
      DigitsHaveNoPoint(n.fraction);
      assert s[..|n.whole|] == n.whole && s[|n.whole| + 1..] == n.fraction;
      ValueConcat(n.whole, n.fraction);
    } else {
      DigitsHaveNoPoint(n.whole);
      assert n.whole + n.fraction == n.whole;
    }
  }

  lemma {:induction false} ParsedMantissa(s: string) returns (n: Numeral)
    requires ParseMantissa(s).Some?
    ensures NumeralFine(n) && n.exponent.None? && MantissaText(n) == s
  {
    var p := IndexOfPoint(s);
    BeforePoint(s);
    if p == |s| {
      n := Numeral(s, false, "", None);
      assert s + "" == s;
    } else {
      var whole, fraction := s[..p], s[p + 1..];
      n := Numeral(whole, true, fraction, None);
      assert s == whole + "." + fraction;
      DigitsSplit(whole, fraction);
    }
  }

  lemma {:induction false} DigitsSplit(a: string, b: string)
    ensures AllDigits(a + b) ==> AllDigits(a) && AllDigits(b)
  {
    if AllDigits(a + b) {
      assert forall i :: 0 <= i < |a| ==> (a + b)[i] == a[i];
      assert forall i :: 0 <= i < |b| ==> (a + b)[|a| + i] == b[i];
    }
  }

  lemma {:induction false} MantissaHasNoMarks(n: Numeral)
    requires NumeralFine(n)
    ensures NoMarks(MantissaText(n))
  {
    var s := MantissaText(n);
    forall i | 0 <= i < |s| ensures !IsExponentMark(s[i]) {
      assert s[i] == '.' || IsDigit(s[i]);
    }
  }

  lemma {:induction false} ExponentParts(head: string, e: Exponent)
    requires NoMarks(head) && ExponentFine(e)
    ensures var s := head + ExponentText(e);
            && IndexOfMark(s) == |head| && s[..|head|] == head && s[|head| + 1..] == e.sign + e.digits
            && IndexOfMark(e.sign + e.digits) == |e.sign + e.digits|
  {
    MarkAfter(head, e.mark, e.sign + e.digits);
    NoMark(e.sign + e.digits);
  }

  lemma {:induction false} WithoutMark(s: string, negative: bool)
    requires IndexOfMark(s) == |s|
    ensures ParseUnsigned(s, negative) == ParseScaled(s, 0, negative)
  {
  }

  lemma {:induction false} WithMark(s: string, mark: nat, negative: bool)
    requires mark == IndexOfMark(s) < |s|
    ensures var text := s[mark + 1..];
            ParseUnsigned(s, negative) ==
            if IndexOfMark(text) < |text| || ParseInt(text).None? then None
            else if !Fits(ParseInt(text).value) then
              Some(if ParseInt(text).value > 0 then Infinity(negative) else Finite(0, 0, negative))
            else ParseScaled(s[..mark], ParseInt(text).value, negative)
  {
    hide ParseInt, ParseScaled, IndexOfMark;
  }

  lemma {:induction false} ScaledMantissa(n: Numeral, exponent: int, negative: bool)
    requires NumeralFine(n)
    ensures ParseScaled(MantissaText(n), exponent, negative) == Some(Normalize(Signed(negative, Coefficient(n)), exponent - |n.fraction|, negative))
  {
    ParsesMantissa(n);
    hide ParseMantissa, Normalize, MantissaText;
  }

  lemma {:induction false} NumeralParts(n: Numeral)
    requires NumeralFine(n)
    ensures n.exponent.None? ==> NumeralText(n) == MantissaText(n) && Power(n) == 0
    ensures n.exponent.Some? ==> NumeralText(n) == MantissaText(n) + ExponentText(n.exponent.value) && ExponentFine(n.exponent.value)
    ensures n.exponent.Some? ==> Power(n) == ExponentNumber(n.exponent.value)
  {
  }

  /** The exponent of a text that ends in one. */
  lemma {:induction false} ExponentParses(head: string, e: Exponent, negative: bool)
    requires NoMarks(head) && ExponentFine(e)
    ensures ParseUnsigned(head + ExponentText(e), negative) ==
            if !Fits(ExponentNumber(e)) then Some(if ExponentNumber(e) > 0 then Infinity(negative) else Finite(0, 0, negative))
            else ParseScaled(head, ExponentNumber(e), negative)
  {
    var s := head + ExponentText(e);
    assert |head| < |s| && SignFine(e.sign) && e.digits != "" && AllDigits(e.digits);
    assert ExponentNumber(e) == if e.sign == "-" then 0 - ValueOf(e.digits) else ValueOf(e.digits);
    hide *;
    ExponentParts(head, e);
    WithMark(s, |head|, negative);
    ParsesInt(e.sign, e.digits);
  }

  /** What the parser makes of a numeral. */
  lemma {:induction false} ParsesNumeral(n: Numeral, negative: bool)
    requires NumeralFine(n) && Fits(Power(n))
    ensures ParseUnsigned(NumeralText(n), negative) == Some(Normalize(Signed(negative, Coefficient(n)), Power(n) - |n.fraction|, negative))
  {
    hide *;
    NumeralParts(n);
    MantissaHasNoMarks(n);
    ScaledMantissa(n, Power(n), negative);
    if n.exponent.None? {
      NoMarkAtAll(MantissaText(n));
      WithoutMark(MantissaText(n), negative);
    } else {
      ExponentParses(MantissaText(n), n.exponent.value, negative);
    }
  }

  lemma {:induction false} NoMarkAtAll(s: string)
    requires NoMarks(s)
    ensures IndexOfMark(s) == |s|
  {
    NoMark(s);
  }

  /** Accepted text is a numeral, or ends in an exponent that is no machine integer. */
  lemma {:induction false} ParsedUnsigned(s: string, negative: bool) returns (n: Numeral, head: string)
    requires ParseUnsigned(s, negative).Some?
    ensures (NumeralFine(n) && Fits(Power(n)) && NumeralText(n) == s)
            || (n.exponent.Some? && NoMarks(head) && ExponentFine(n.exponent.value) && !Fits(ExponentNumber(n.exponent.value))
                && s == head + ExponentText(n.exponent.value))
  {
    var mark := IndexOfMark(s);
    head := s[..mark];
    BeforeMark(s);
    hide *;
    if mark == |s| {
      WithoutMark(s, negative);
      ScaledIsMantissa(s, 0, negative);
      n := ParsedMantissa(s);
      NumeralParts(n);
      NoPower(n);
    } else {
      WithMark(s, mark, negative);
      var e := ParsedExponent(s, mark);
      if Fits(ExponentNumber(e)) {
        ScaledIsMantissa(head, ExponentNumber(e), negative);
        n := ParsedMantissa(head);
        n := WithExponent(n, e);
      } else {
        n := Numeral("", false, "", Some(e));
      }
    }
  }

  lemma {:induction false} NoPower(n: Numeral)
    requires NumeralFine(n) && n.exponent.None?
    ensures Fits(Power(n))
  {
  }

  lemma {:induction false} ParsedExponent(s: string, mark: nat) returns (e: Exponent)
    requires mark < |s| && IsExponentMark(s[mark]) && ParseInt(s[mark + 1..]).Some?
    ensures ExponentFine(e) && s == s[..mark] + ExponentText(e) && ParseInt(s[mark + 1..]) == Some(ExponentNumber(e))
  {
    var sign, digits := ParsedInt(s[mark + 1..]);
    e := Exponent(s[mark], sign, digits);
    assert ExponentFine(e) && ExponentText(e) == [s[mark]] + s[mark + 1..];
    assert ExponentNumber(e) == if sign == "-" then 0 - ValueOf(digits) else ValueOf(digits);
    hide *;
    ParsesInt(sign, digits);
    SplitAt(s, mark);
  }

  lemma {:induction false} SplitAt(s: string, mark: nat)
    requires mark < |s|
    ensures s == s[..mark] + ([s[mark]] + s[mark + 1..])
  {
  }

  lemma {:induction false} WithExponent(m: Numeral, e: Exponent) returns (n: Numeral)
    requires NumeralFine(m) && m.exponent.None? && ExponentFine(e) && Fits(ExponentNumber(e))
    ensures NumeralFine(n) && Fits(Power(n)) && NumeralText(n) == MantissaText(m) + ExponentText(e)
  {
    n := m.(exponent := Some(e));
    hide ExponentFine, ExponentText;
  }

  lemma {:induction false} ScaledIsMantissa(s: string, exponent: int, negative: bool)
    ensures ParseScaled(s, exponent, negative).Some? ==> ParseMantissa(s).Some?
  {
    hide ParseMantissa, Normalize;
  }
}
