/** The arithmetic of years that begin in March: months, four-year cycles and centuries of days. Every division is by a
    positive constant and rounds down. */
module MarchYears {
  datatype Civil = Civil(year: int, month: int, day: int)

  /** Months counted from March, in the year that begins in March. */
  function MarchYear(c: Civil): int { c.year + 4800 - (14 - c.month) / 12 }
  function MarchMonth(c: Civil): int { c.month + 12 * ((14 - c.month) / 12) - 3 }

  function MonthStart(m: int): int { (153 * m + 2) / 5 }

  /** Inverses of day counts over months, four-year cycles and centuries. */
  function MonthOf(e: int): int { (5 * e + 2) / 153 }
  function YearOf(c: int): int { (4 * c + 3) / 1461 }
  function YearDays(d: int): int { (1461 * d) / 4 }
  function CenturyOf(a: int): int { (4 * a + 3) / 146097 }
  function CenturyDays(b: int): int { (146097 * b) / 4 }

  /** The date on day e of the March-based year y. */
  function FromMarch(y: int, e: int): Civil {
    var m := MonthOf(e);
    Civil(y - 4800 + m / 10, m + 3 - 12 * (m / 10), e - MonthStart(m) + 1)
  }

  function JDToCivilUsing(jd: int, gregorian: bool): Civil {
    if gregorian then
      var a := jd + 32044;
      var b := CenturyOf(a);
      var c := a - CenturyDays(b);
      var d := YearOf(c);
      FromMarch(100 * b + d, c - YearDays(d))
    else
      var c := jd + 32082;
      var d := YearOf(c);
      FromMarch(d, c - YearDays(d))
  }

  /** Days before the March-based year y, in each calendar. */
  function JulianDays(y: int): int { 365 * y + y / 4 }
  function GregorianDays(y: int): int { 365 * y + y / 4 - y / 100 + y / 400 }

  lemma {:induction false} MonthOfDay(e: int)
    requires 0 <= e <= 365
    ensures var m := MonthOf(e); 0 <= m <= 11 && MonthStart(m) <= e < MonthStart(m) + 31 && e < MonthStart(m + 1)
  {
  }

  /** The month starts are far enough apart for the division to invert them. */
  lemma {:induction false} DayOfMonth(m: int, day: int)
    requires 0 <= m <= 11 && 1 <= day && MonthStart(m) + day <= MonthStart(m + 1)
    ensures MonthOf(MonthStart(m) + day - 1) == m
  {
  }

  /** The civil month of a March-based month, and back. */
  lemma {:induction false} MonthShift(y: int, m: int, day: int)
    requires 0 <= m <= 11
    ensures var c := Civil(y - 4800 + m / 10, m + 3 - 12 * (m / 10), day);
            1 <= c.month <= 12 && MarchYear(c) == y && MarchMonth(c) == m
  {
    assert m / 10 == if m >= 10 then 1 else 0;
  }

  lemma {:induction false} FromMarchIsCivil(y: int, e: int)
    requires 0 <= e <= 365
    ensures var c := FromMarch(y, e);
            && 1 <= c.month <= 12 && 1 <= c.day <= 31
            && MarchYear(c) == y && MarchMonth(c) == MonthOf(e) && MonthStart(MarchMonth(c)) + c.day - 1 == e
            && 0 <= MarchMonth(c) <= 11 && e < MonthStart(MarchMonth(c) + 1)
  {
    MonthOfDay(e);
    hide MonthOf, MonthStart, MarchYear, MarchMonth;
    MonthShift(y, MonthOf(e), e - MonthStart(MonthOf(e)) + 1);
  }

  /** A date whose day is before the next month is the one found on its day of the March-based year. */
  lemma {:induction false} CivilIsMarch(c: Civil)
    requires 1 <= c.month <= 12 && 1 <= c.day && MonthStart(MarchMonth(c)) + c.day <= MonthStart(MarchMonth(c) + 1)
    ensures 0 <= MarchMonth(c) <= 11 && FromMarch(MarchYear(c), MonthStart(MarchMonth(c)) + c.day - 1) == c
  {
    var m := MarchMonth(c);
    assert (14 - c.month) / 12 == if c.month <= 2 then 1 else 0;
    DayOfMonth(m, c.day);
    assert m / 10 == if m >= 10 then 1 else 0;
    hide MonthOf, MonthStart;
  }

  lemma {:induction false} JulianYear(c: int)
    ensures var d := YearOf(c);
            && JDToCivilUsing(c - 32082, false) == FromMarch(d, c - JulianDays(d))
            && JulianDays(d) <= c < JulianDays(d + 1) && c - JulianDays(d) <= 365
  {
    JulianYearBounds(c);
    hide YearOf, FromMarch, JulianDays, YearDays;
  }

  lemma {:induction false} JulianYearBounds(c: int)
    ensures var d := YearOf(c);
            YearDays(d) == JulianDays(d) && JulianDays(d) <= c < JulianDays(d + 1) && c - JulianDays(d) <= 365
  {
  }

  lemma {:induction false} JulianYearUnique(c: int, y: int)
    requires JulianDays(y) <= c < JulianDays(y + 1)
    ensures YearOf(c) == y
  {
  }

  /** The year of the century and the century, from a day count. */
  lemma {:induction false} Century(a: int)
    ensures var b := CenturyOf(a);
            var c := a - CenturyDays(b);
            CenturyDays(b) == 36524 * b + b / 4 && 0 <= c < 36524 + (if b % 4 == 3 then 1 else 0)
  {
  }

  lemma {:induction false} YearOfCentury(b: int, c: int)
    requires 0 <= c < 36524 + (if b % 4 == 3 then 1 else 0)
    ensures var d := YearOf(c);
            && 0 <= d <= 99 && YearDays(d) == 365 * d + d / 4
            && 0 <= c - YearDays(d) <= 365
            && c < 365 * (d + 1) + (d + 1) / 4 - (if d == 99 && b % 4 != 3 then 1 else 0)
  {
  }

  /** Days before a year as days before its century and days before the year in the century. */
  lemma {:induction false} SplitYear(b: int, d: int)
    requires 0 <= d <= 99
    ensures (100 * b + d) / 4 == 25 * b + d / 4 && (100 * b + d) / 100 == b && (100 * b + d) / 400 == b / 4
    ensures GregorianDays(100 * b + d) == 36524 * b + b / 4 + 365 * d + d / 4
  {
  }

  function FoundYear(a: int): int {
    100 * CenturyOf(a) + YearOf(a - CenturyDays(CenturyOf(a)))
  }

  /** The Gregorian conversion finds the March-based year and the day in it. */
  lemma {:induction false} GregorianYear(a: int)
    ensures var y := FoundYear(a);
            && JDToCivilUsing(a - 32044, true) == FromMarch(y, a - GregorianDays(y))
            && GregorianDays(y) <= a < GregorianDays(y + 1) && a - GregorianDays(y) <= 365
  {
    var b := CenturyOf(a);
    var c := a - CenturyDays(b);
    var d := YearOf(c);
    hide FromMarch, GregorianDays, CenturyOf, CenturyDays, YearOf, YearDays;
    Century(a);
    YearOfCentury(b, c);
    SplitYear(b, d);
    NextYear(b, d, c);
  }

  lemma {:induction false} NextYear(b: int, d: int, c: int)
    requires 0 <= d <= 99 && c < 365 * (d + 1) + (d + 1) / 4 - (if d == 99 && b % 4 != 3 then 1 else 0)
    ensures 36524 * b + b / 4 + c < GregorianDays(100 * b + d + 1)
  {
    if d < 99 { SplitYear(b, d + 1); } else { SplitYear(b + 1, 0); }
  }

  function GregorianLeap(year: int): bool { year % 4 == 0 && (year % 100 != 0 || year % 400 == 0) }
  function JulianLeap(year: int): bool { year % 4 == 0 }

  lemma {:induction false} NextDiv4(y: int)
    ensures (y + 1) / 4 == y / 4 + (if (y + 1) % 4 == 0 then 1 else 0)
  {
  }

  lemma {:induction false} NextDiv100(y: int)
    ensures (y + 1) / 100 == y / 100 + (if (y + 1) % 100 == 0 then 1 else 0)
  {
  }

  lemma {:induction false} NextDiv400(y: int)
    ensures (y + 1) / 400 == y / 400 + (if (y + 1) % 400 == 0 then 1 else 0)
  {
  }

  lemma {:induction false} Multiples(y: int)
    ensures y % 400 == 0 ==> y % 100 == 0
    ensures y % 100 == 0 ==> y % 4 == 0
  {
  }

  lemma {:induction false} GregorianLength(y: int)
    ensures GregorianDays(y + 1) == GregorianDays(y) + (if GregorianLeap(y + 1) then 366 else 365)
  {
    NextDiv4(y);
    NextDiv100(y);
    NextDiv400(y);
    Multiples(y + 1);
  }

  lemma {:induction false} GregorianIncreases(y: int, z: int)
    requires y <= z
    ensures GregorianDays(y) + 365 * (z - y) <= GregorianDays(z)
    decreases z - y
  {
    if y < z { GregorianIncreases(y, z - 1); GregorianLength(z - 1); }
  }

  lemma {:induction false} GregorianYearUnique(a: int, y: int, z: int)
    requires GregorianDays(y) <= a < GregorianDays(y + 1) && GregorianDays(z) <= a < GregorianDays(z + 1)
    ensures y == z
  {
    if y < z { GregorianIncreases(y + 1, z); }
    if z < y { GregorianIncreases(z + 1, y); }
  }
}
