/** Julian day numbers and civil dates. */
module Dates {
  import opened MarchYears

  /** The first Julian day number counted in the Gregorian calendar. */
  datatype Start = At(jd: int) | AlwaysGregorian | AlwaysJulian

  const ITALY: int := 2299161
  const ENGLAND: int := 2361222

  predicate Reformed(jd: int, start: Start) {
    match start
    case At(s) => jd >= s
    case AlwaysGregorian => true
    case AlwaysJulian => false
  }

  function GregorianToJD(c: Civil): int {
    var y := MarchYear(c);
    c.day + MonthStart(MarchMonth(c)) + 365 * y + y / 4 - y / 100 + y / 400 - 32045
  }

  function JulianToJD(c: Civil): int {
    var y := MarchYear(c);
    c.day + MonthStart(MarchMonth(c)) + 365 * y + y / 4 - 32083
  }

  function JDToCivil(jd: int, start: Start): Civil {
    JDToCivilUsing(jd, Reformed(jd, start))
  }

  datatype Numbered = Numbered(jd: int, valid: bool)

  /** dateCivilToJD: the number is computed in the calendar that applies and converted back to check the date. */
  function CivilToJD(c: Civil, start: Start): Numbered {
    if c.month < 1 || c.month > 12 || c.day < 1 || c.day > 31 then Numbered(0, false)
    else if Reformed(GregorianToJD(c), start) then
      Numbered(GregorianToJD(c), JDToCivilUsing(GregorianToJD(c), true) == c)
    else if !Reformed(JulianToJD(c), start) then
      Numbered(JulianToJD(c), JDToCivilUsing(JulianToJD(c), false) == c)
    else Numbered(0, false)
  }

  // ---------------------------------------------------------------- each calendar is a bijection

  lemma {:induction false} GregorianNumber(c: Civil)
    ensures GregorianToJD(c) == GregorianDays(MarchYear(c)) + (MonthStart(MarchMonth(c)) + c.day - 1) - 32044
  {
  }

  lemma {:induction false} JulianNumber(c: Civil)
    ensures JulianToJD(c) == JulianDays(MarchYear(c)) + (MonthStart(MarchMonth(c)) + c.day - 1) - 32082
  {
  }

  lemma {:induction false} JulianRoundTrip(jd: int)
    ensures var c := JDToCivilUsing(jd, false);
            && JulianToJD(c) == jd && 1 <= c.month <= 12 && 1 <= c.day <= 31 && MarchYear(c) == YearOf(jd + 32082)
            && 0 <= MarchMonth(c) <= 11 && MonthStart(MarchMonth(c)) + c.day <= MonthStart(MarchMonth(c) + 1)
            && JulianDays(MarchYear(c)) <= jd + 32082 < JulianDays(MarchYear(c) + 1)
  {
    hide FromMarch, JulianDays, MarchYear, MarchMonth, MonthStart, YearOf, JulianToJD, JDToCivilUsing;
    var c := jd + 32082;
    JulianYear(c);
    FromMarchIsCivil(YearOf(c), c - JulianDays(YearOf(c)));
    JulianNumber(JDToCivilUsing(jd, false));
  }

  /** The converted date has the number it came from, and its day exists. */
  lemma {:induction false} GregorianRoundTrip(jd: int)
    ensures var c := JDToCivilUsing(jd, true);
            && GregorianToJD(c) == jd && 1 <= c.month <= 12 && 1 <= c.day <= 31 && 0 <= MarchMonth(c) <= 11
            && MonthStart(MarchMonth(c)) + c.day <= MonthStart(MarchMonth(c) + 1)
            && GregorianDays(MarchYear(c)) <= jd + 32044 < GregorianDays(MarchYear(c) + 1)
  {
    hide FromMarch, GregorianDays, MarchYear, MarchMonth, MonthStart, GregorianToJD, JDToCivilUsing, FoundYear;
    var a := jd + 32044;
    GregorianYear(a);
    FromMarchIsCivil(FoundYear(a), a - GregorianDays(FoundYear(a)));
    GregorianNumber(JDToCivilUsing(jd, true));
  }

  /** dateDaysInMonth: whether February is leap is decided by the calendar of its first day. */
  function DaysInMonth(year: int, month: int, start: Start): int {
    if month == 2 then
      var greg := Reformed(GregorianToJD(Civil(year, month, 1)), start);
      if (greg && GregorianLeap(year)) || (!greg && JulianLeap(year)) then 29 else 28
    else if month == 4 || month == 6 || month == 9 || month == 11 then 30
    else 31
  }

  /** Every month but February ends where the next one starts; February ends with the March-based year. */
  lemma {:induction false} MonthLength(c: Civil, start: Start)
    requires 1 <= c.month <= 12
    ensures var m := MarchMonth(c);
            && 0 <= m <= 11
            && (c.month != 2 ==> m < 11 && MonthStart(m + 1) - MonthStart(m) == DaysInMonth(c.year, c.month, start))
            && (c.month == 2 ==> m == 11 && MarchYear(c) + 1 == c.year + 4800)
  {
    assert (14 - c.month) / 12 == if c.month <= 2 then 1 else 0;
  }

  /** A date is accepted in the proleptic Gregorian calendar if and only if its day exists in its month. */
  lemma {:induction false} GregorianValidIff(c: Civil)
    ensures CivilToJD(c, AlwaysGregorian).valid
            <==> 1 <= c.month <= 12 && 1 <= c.day <= DaysInMonth(c.year, c.month, AlwaysGregorian)
  {
    if 1 <= c.month <= 12 && 1 <= c.day <= 31 {
      MonthLength(c, AlwaysGregorian);
      if c.day <= DaysInMonth(c.year, c.month, AlwaysGregorian) { GregorianValid(c); } else { GregorianInvalid(c); }
    }
  }

  lemma {:induction false} GregorianValid(c: Civil)
    requires 1 <= c.month <= 12 && 1 <= c.day <= DaysInMonth(c.year, c.month, AlwaysGregorian)
    ensures JDToCivilUsing(GregorianToJD(c), true) == c
  {
    var y, e := MarchYear(c), MonthStart(MarchMonth(c)) + c.day - 1;
    GregorianNumber(c);
    hide GregorianToJD, GregorianDays, MarchYear, MarchMonth, MonthStart, FromMarch, JDToCivilUsing, DaysInMonth;
    DayFits(c);
    CivilIsMarch(c);
    FromDay(y, e);
  }

  /** An existing day is before the next month and before the next March-based year. */
  lemma {:induction false} DayFits(c: Civil)
    requires 1 <= c.month <= 12 && 1 <= c.day <= DaysInMonth(c.year, c.month, AlwaysGregorian)
    ensures var y, e := MarchYear(c), MonthStart(MarchMonth(c)) + c.day - 1;
            && 0 <= e && GregorianDays(y) + e < GregorianDays(y + 1)
            && MonthStart(MarchMonth(c)) + c.day <= MonthStart(MarchMonth(c) + 1)
  {
    MonthLength(c, AlwaysGregorian);
    GregorianLength(MarchYear(c));
    LeapShift(c.year);
  }

  /** The conversion finds the day of a March-based year. */
  lemma {:induction false} FromDay(y: int, e: int)
    requires 0 <= e && GregorianDays(y) + e < GregorianDays(y + 1)
    ensures JDToCivilUsing(GregorianDays(y) + e - 32044, true) == FromMarch(y, e)
  {
    hide FromMarch, GregorianDays, JDToCivilUsing, FoundYear;
    var a := GregorianDays(y) + e;
    GregorianYear(a);
    GregorianYearUnique(a, y, FoundYear(a));
  }

  lemma {:induction false} Shift4(y: int)
    ensures (y + 4800) % 4 == y % 4
  {
  }

  lemma {:induction false} Shift100(y: int)
    ensures (y + 4800) % 100 == y % 100
  {
  }

  lemma {:induction false} Shift400(y: int)
    ensures (y + 4800) % 400 == y % 400
  {
  }

  /** The leap rule of a year and of the March-based year it closes. */
  lemma {:induction false} LeapShift(year: int)
    ensures GregorianLeap(year) <==> GregorianLeap(year + 4800)
  {
    Shift4(year);
    Shift100(year);
    Shift400(year);
  }

  /** A day past the end of its month converts to a date of the next month. */
  lemma {:induction false} GregorianInvalid(c: Civil)
    requires 1 <= c.month <= 12 && DaysInMonth(c.year, c.month, AlwaysGregorian) < c.day <= 31
    ensures JDToCivilUsing(GregorianToJD(c), true) != c
  {
    hide JDToCivilUsing, GregorianToJD, GregorianDays, MarchYear, MarchMonth, MonthStart, DaysInMonth;
    GregorianNumber(c);
    DayOverflows(c);
    GregorianRoundTrip(GregorianToJD(c));
  }

  lemma {:induction false} DayOverflows(c: Civil)
    requires 1 <= c.month <= 12 && DaysInMonth(c.year, c.month, AlwaysGregorian) < c.day <= 31
    ensures var y, e := MarchYear(c), MonthStart(MarchMonth(c)) + c.day - 1;
            MonthStart(MarchMonth(c)) + c.day > MonthStart(MarchMonth(c) + 1) || GregorianDays(y) + e >= GregorianDays(y + 1)
  {
    MonthLength(c, AlwaysGregorian);
    GregorianLength(MarchYear(c));
    LeapShift(c.year);
  }

  // ---------------------------------------------------------------- the reform

  /** How far the Gregorian number of a date is ahead of its Julian number. */
  function Ahead(y: int): int { 38 - y / 100 + y / 400 }

  lemma {:induction false} NumbersDiffer(c: Civil)
    ensures GregorianToJD(c) == JulianToJD(c) + Ahead(MarchYear(c))
  {
  }

  /** Converting a day number to a date and back returns it if and only if the day is in the Gregorian part, or the
      Gregorian number of its Julian date is still before the reform. */
  lemma {:induction false} RoundTripIff(jd: int, start: Start)
    ensures CivilToJD(JDToCivil(jd, start), start) == Numbered(jd, true)
            <==> Reformed(jd, start) || !Reformed(GregorianToJD(JDToCivil(jd, start)), start)
  {
    hide GregorianToJD, JulianToJD, JDToCivilUsing, MarchYear, MarchMonth, MonthStart, GregorianDays, JulianDays, YearOf;
    GregorianRoundTrip(jd);
    JulianRoundTrip(jd);
  }

  /** The first day of the year 200 whose Gregorian number is no longer ahead: 1 March 200 in the Julian calendar. */
  const FIRST_SAFE: int := 1794168

  lemma {:induction false} Quarter(y: int)
    ensures y / 400 == (y / 100) / 4 && 100 * (y / 100) <= y < 100 * (y / 100) + 100
  {
  }

  lemma {:induction false} AheadByCentury(y: int)
    ensures y >= 5000 ==> Ahead(y) <= 0
    ensures y < 5000 ==> 1 <= Ahead(y) <= 5000 - y
  {
    Quarter(y);
    var b := y / 100;
    assert Ahead(y) == 38 - b + b / 4;
    assert y >= 5000 <==> b >= 50;
  }

  /** Before that day the Gregorian number is ahead, but not by more than the distance to it; from it on it is not. */
  lemma {:induction false} AheadBefore(jd: int)
    ensures var c := JDToCivilUsing(jd, false);
            && (jd >= FIRST_SAFE ==> Ahead(MarchYear(c)) <= 0)
            && (jd < FIRST_SAFE ==> 1 <= Ahead(MarchYear(c)) <= FIRST_SAFE - jd)
  {
    JulianRoundTrip(jd);
    var y := MarchYear(JDToCivilUsing(jd, false));
    AheadByCentury(y);
    JulianFarFrom(jd + 32082, y);
    hide Ahead, JulianDays, JDToCivilUsing, MarchYear;
    assert 1826250 - 32082 == FIRST_SAFE;
  }

  /** A day of an earlier year is at least as many days before March 5000 as years. */
  lemma {:induction false} JulianFarFrom(c: int, y: int)
    requires JulianDays(y) <= c < JulianDays(y + 1)
    ensures y >= 5000 ==> c >= 1826250
    ensures y < 5000 ==> 5000 - y <= 1826250 - c
  {
    assert y >= 5000 ==> y / 4 >= 1250;
    assert y < 5000 ==> (y + 1) / 4 <= 1250;
  }

  /** For a reform on an integer day, every day number survives the round trip if and only if the reform is after the day
      from which Gregorian numbers stop being ahead. */
  lemma {:induction false} RoundTripForAllIff(s: int)
    ensures (forall jd :: CivilToJD(JDToCivil(jd, At(s)), At(s)) == Numbered(jd, true)) <==> s > FIRST_SAFE
  {
    if s > FIRST_SAFE {
      forall jd ensures CivilToJD(JDToCivil(jd, At(s)), At(s)) == Numbered(jd, true) { SafeRoundTrip(jd, s); }
    } else {
      var jd := s - 1;
      RoundTripIff(jd, At(s));
      AheadBefore(jd);
      JulianRoundTrip(jd);
      NumbersDiffer(JDToCivil(jd, At(s)));
      assert CivilToJD(JDToCivil(jd, At(s)), At(s)) != Numbered(jd, true);
    }
  }

  lemma {:induction false} SafeRoundTrip(jd: int, s: int)
    requires s > FIRST_SAFE
    ensures CivilToJD(JDToCivil(jd, At(s)), At(s)) == Numbered(jd, true)
  {
    RoundTripIff(jd, At(s));
    if jd < s {
      AheadBefore(jd);
      JulianRoundTrip(jd);
      NumbersDiffer(JDToCivil(jd, At(s)));
    }
  }

  /** The four calendars the library offers: every day number survives the round trip. */
  lemma {:induction false} LibraryStartsRoundTrip(jd: int, start: Start)
    requires start == At(ITALY) || start == At(ENGLAND) || start == AlwaysGregorian || start == AlwaysJulian
    ensures CivilToJD(JDToCivil(jd, start), start) == Numbered(jd, true)
  {
    match start
    case At(s) => SafeRoundTrip(jd, s);
    case _ => RoundTripIff(jd, start);
  }

  /** The test of an accepted date in the calendar that applies, read under the date's own start. */
  lemma {:induction false} AcceptedConvertsBack(c: Civil, start: Start)
    requires CivilToJD(c, start).valid
    ensures JDToCivil(CivilToJD(c, start).jd, start) == c
  {
  }

  /** Between the calendars: already past the last Julian day, still before the first Gregorian one. */
  predicate Skipped(c: Civil, s: int) {
    1 <= c.month <= 12 && 1 <= c.day <= 31 && JulianToJD(c) >= s && GregorianToJD(c) < s
  }

  lemma {:induction false} JulianIncreases(y: int, z: int)
    requires y <= z
    ensures JulianDays(y) <= JulianDays(z)
  {
  }

  /** A skipped date is in the March-based year whose numbers surround the reform. */
  lemma {:induction false} SkippedYear(c: Civil, s: int, y: int)
    requires Skipped(c, s)
    requires JulianDays(y - 1) + 368 - 32083 < s <= GregorianDays(y + 1) - 32044
    ensures MarchYear(c) == y && 0 <= MarchMonth(c) <= 11
  {
    assert (14 - c.month) / 12 == if c.month <= 2 then 1 else 0;
    assert 0 <= MonthStart(MarchMonth(c)) <= 337;
    if MarchYear(c) < y { JulianIncreases(MarchYear(c), y - 1); }
    if MarchYear(c) > y { GregorianIncreases(y + 1, MarchYear(c)); }
  }

  /** The Italian reform skips the 5th to the 14th of October 1582, and no other date. */
  lemma {:induction false} ItalySkips(c: Civil)
    ensures Skipped(c, ITALY) <==> c.year == 1582 && c.month == 10 && 5 <= c.day <= 14
    ensures Skipped(c, ITALY) ==> !CivilToJD(c, At(ITALY)).valid
  {
    if Skipped(c, ITALY) { SkippedYear(c, ITALY, 6382); }
  }

  /** The English reform skips the 3rd to the 13th of September 1752, and no other date. */
  lemma {:induction false} EnglandSkips(c: Civil)
    ensures Skipped(c, ENGLAND) <==> c.year == 1752 && c.month == 9 && 3 <= c.day <= 13
    ensures Skipped(c, ENGLAND) ==> !CivilToJD(c, At(ENGLAND)).valid
  {
    if Skipped(c, ENGLAND) { SkippedYear(c, ENGLAND, 6552); }
  }

  /** Apart from the skipped dates, a date is accepted exactly when its day exists in the calendar that applies. */
  lemma {:induction false} AcceptedIff(c: Civil, s: int)
    requires 1 <= c.month <= 12 && 1 <= c.day <= 31
    ensures CivilToJD(c, At(s)).valid <==>
            && !Skipped(c, s)
            && if GregorianToJD(c) >= s then c.day <= DaysInMonth(c.year, c.month, AlwaysGregorian)
               else c.day <= DaysInMonth(c.year, c.month, AlwaysJulian)
  {
    GregorianValidIff(c);
    JulianValidIff(c);
  }

  /** A date is accepted in the proleptic Julian calendar if and only if its day exists in its month. */
  lemma {:induction false} JulianValidIff(c: Civil)
    ensures CivilToJD(c, AlwaysJulian).valid
            <==> 1 <= c.month <= 12 && 1 <= c.day <= DaysInMonth(c.year, c.month, AlwaysJulian)
  {
    if 1 <= c.month <= 12 && 1 <= c.day <= 31 {
      MonthLength(c, AlwaysJulian);
      if c.day <= DaysInMonth(c.year, c.month, AlwaysJulian) { JulianValid(c); } else { JulianInvalid(c); }
    }
  }

  lemma {:induction false} JulianLength(y: int)
    ensures JulianDays(y + 1) == JulianDays(y) + (if JulianLeap(y + 1) then 366 else 365)
  {
  }

  lemma {:induction false} JulianValid(c: Civil)
    requires 1 <= c.month <= 12 && 1 <= c.day <= DaysInMonth(c.year, c.month, AlwaysJulian)
    ensures JDToCivilUsing(JulianToJD(c), false) == c
  {
    JulianNumber(c);
    JulianDayFits(c);
    hide JulianToJD, MarchYear, MarchMonth, MonthStart, FromMarch, DaysInMonth;
    CivilIsMarch(c);
    JulianYear(JulianToJD(c) + 32082);
    JulianYearUnique(JulianToJD(c) + 32082, MarchYear(c));
  }

  lemma {:induction false} JulianDayFits(c: Civil)
    requires 1 <= c.month <= 12 && 1 <= c.day
    ensures var y, e := MarchYear(c), MonthStart(MarchMonth(c)) + c.day - 1;
            && 0 <= e && 0 <= MarchMonth(c) <= 11
            && (c.day <= DaysInMonth(c.year, c.month, AlwaysJulian)
                <==> JulianDays(y) + e < JulianDays(y + 1) && MonthStart(MarchMonth(c)) + c.day <= MonthStart(MarchMonth(c) + 1))
  {
    MonthLength(c, AlwaysJulian);
    JulianLength(MarchYear(c));
    Shift4(c.year);
  }

  lemma {:induction false} JulianInvalid(c: Civil)
    requires 1 <= c.month <= 12 && DaysInMonth(c.year, c.month, AlwaysJulian) < c.day <= 31
    ensures JDToCivilUsing(JulianToJD(c), false) != c
  {
    JulianNumber(c);
    JulianDayFits(c);
    JulianRoundTrip(JulianToJD(c));
    hide JDToCivilUsing, JulianToJD, JulianDays, MarchYear, MarchMonth, MonthStart;
  }
}
