/** Ordinal dates and ISO week dates. */
module WeekDates {
  // Week dates are those of the proleptic Gregorian calendar.

  import opened MarchYears
  import opened Dates

  // ---------------------------------------------------------------- the day of the year

  function NewYear(year: int): int { GregorianToJD(Civil(year, 1, 1)) }

  /** A month's days separate its first day from the next month's. */
  lemma {:induction false} NextMonth(year: int, month: int)
    requires 1 <= month < 12
    ensures GregorianToJD(Civil(year, month + 1, 1))
            == GregorianToJD(Civil(year, month, 1)) + DaysInMonth(year, month, AlwaysGregorian)
  {
    var c, d := Civil(year, month, 1), Civil(year, month + 1, 1);
    MonthLength(c, AlwaysGregorian);
    MonthLength(d, AlwaysGregorian);
    GregorianNumber(c);
    GregorianNumber(d);
    if month == 2 {
      GregorianLength(year + 4799);
      LeapShift(year);
    } else {
      SameMarchYear(year, month);
    }
  }

  lemma {:induction false} SameMarchYear(year: int, month: int)
    requires 1 <= month < 12 && month != 2
    ensures var c, d := Civil(year, month, 1), Civil(year, month + 1, 1);
            MarchYear(d) == MarchYear(c) && MarchMonth(d) == MarchMonth(c) + 1
  {
    assert (14 - month) / 12 == if month <= 2 then 1 else 0;
    assert (13 - month) / 12 == if month <= 1 then 1 else 0;
  }

  /** The day number of a date in the calendar that applies to it. */
  function NumberOf(c: Civil, start: Start): int {
    if Reformed(GregorianToJD(c), start) then GregorianToJD(c) else JulianToJD(c)
  }

  /** The days of the months before a month, by the month lengths under that start. */
  function MonthsBefore(year: int, month: int, start: Start): int
    requires 1 <= month <= 12
    decreases month
  {
    if month == 1 then 0 else MonthsBefore(year, month - 1, start) + DaysInMonth(year, month - 1, start)
  }

  /** One when the months before include a 29th of February that only the Julian calendar has. */
  function ExtraDay(year: int, month: int, start: Start): int {
    if month > 2 && !Reformed(GregorianToJD(Civil(year, 2, 1)), start) && JulianLeap(year) && !GregorianLeap(year) then 1 else 0
  }

  lemma {:induction false} MonthsAreGregorian(year: int, month: int, start: Start)
    requires 1 <= month <= 12
    ensures MonthsBefore(year, month, start) == GregorianToJD(Civil(year, month, 1)) - NewYear(year) + ExtraDay(year, month, start)
    decreases month
  {
    if month > 1 {
      MonthsAreGregorian(year, month - 1, start);
      NextMonth(year, month - 1);
      hide GregorianToJD, MonthsBefore;
      assert MonthsBefore(year, month, start) == MonthsBefore(year, month - 1, start) + DaysInMonth(year, month - 1, start);
    }
  }

  /** The days from New Year's Day to a date, by Gregorian numbers. */
  lemma {:induction false} GregorianDay(c: Civil, start: Start)
    requires 1 <= c.month <= 12
    ensures c.day + MonthsBefore(c.year, c.month, start) == GregorianToJD(c) - NewYear(c.year) + 1 + ExtraDay(c.year, c.month, start)
  {
    MonthsAreGregorian(c.year, c.month, start);
    hide MonthsBefore, ExtraDay;
  }

  lemma {:induction false} InOrder(c: Civil)
    requires 1 <= c.month <= 12 && 1 <= c.day
    ensures NewYear(c.year) <= GregorianToJD(c) && (c.month > 2 ==> GregorianToJD(Civil(c.year, 2, 1)) <= GregorianToJD(c))
    ensures NewYear(c.year) <= GregorianToJD(Civil(c.year, 2, 1))
  {
    assert (14 - c.month) / 12 == if c.month <= 2 then 1 else 0;
  }

  lemma {:induction false} Floors(z: int)
    ensures z / 100 - (z - 1) / 100 == if z % 100 == 0 then 1 else 0
    ensures z / 400 - (z - 1) / 400 == if z % 400 == 0 then 1 else 0
    ensures (z % 400 == 0 ==> z % 100 == 0) && (z % 100 == 0 ==> z % 4 == 0)
  {
  }

  /** The calendars drift apart by the leap day that only one of them has. */
  lemma {:induction false} Drift(z: int)
    ensures Ahead(z - 1) - Ahead(z) == if JulianLeap(z) && !GregorianLeap(z) then 1 else 0
  {
    Floors(z);
  }

  lemma {:induction false} DriftInYear(c: Civil)
    requires 1 <= c.month <= 12
    ensures var drift := if c.month > 2 && JulianLeap(c.year) && !GregorianLeap(c.year) then 1 else 0;
            Ahead(MarchYear(Civil(c.year, 1, 1))) - Ahead(MarchYear(c)) == drift
  {
    assert (14 - c.month) / 12 == if c.month <= 2 then 1 else 0;
    LeapShift(c.year);
    assert JulianLeap(c.year + 4800) == JulianLeap(c.year) by { Shift4(c.year); }
    hide Ahead, JulianLeap, GregorianLeap;
    Drift(c.year + 4800);
  }

  /** Adding up month lengths counts the days since New Year's Day if and only if both dates are counted in one calendar, or
      the days the reform skips are made up by a leap day that only the Julian calendar has. */
  lemma {:induction false} YearDayIff(c: Civil, start: Start)
    requires 1 <= c.month <= 12 && 1 <= c.day
    ensures var first := Civil(c.year, 1, 1);
            c.day + MonthsBefore(c.year, c.month, start) == NumberOf(c, start) - NumberOf(first, start) + 1
            <==> Reformed(GregorianToJD(c), start) == Reformed(NewYear(c.year), start)
                 || Ahead(MarchYear(first)) == ExtraDay(c.year, c.month, start)
  {
    var first := Civil(c.year, 1, 1);
    hide MonthsBefore, GregorianToJD, JulianToJD, MarchYear, Ahead, GregorianLeap, JulianLeap;
    GregorianDay(c, start);
    InOrder(c);
    NumbersDiffer(c);
    NumbersDiffer(first);
    DriftInYear(c);
  }

  /** dateYDay under the default start: 15 October 1582 comes out as day 288, ten more than the days since New Year's Day. */
  lemma {:induction false} ReformYearDay()
    ensures 15 + MonthsBefore(1582, 10, At(ITALY)) == 288
    ensures NumberOf(Civil(1582, 10, 15), At(ITALY)) - NumberOf(Civil(1582, 1, 1), At(ITALY)) + 1 == 278
  {
    var first, day := Civil(1582, 1, 1), Civil(1582, 10, 15);
    assert GregorianToJD(day) == 2299161 && NewYear(1582) == 2298874 && JulianToJD(first) == 2298884;
    assert ExtraDay(1582, 10, At(ITALY)) == 0;
    hide GregorianToJD, JulianToJD, MonthsBefore, ExtraDay;
    GregorianDay(day, At(ITALY));
  }

  /** dateYDay: the loop over the months before the date. */
  method YearDay(c: Civil, start: Start) returns (day: int)
    requires 1 <= c.month <= 12 && 1 <= c.day
    ensures day == c.day + MonthsBefore(c.year, c.month, start)
    ensures day == NumberOf(c, start) - NumberOf(Civil(c.year, 1, 1), start) + 1
            <==> Reformed(GregorianToJD(c), start) == Reformed(NewYear(c.year), start)
                 || Ahead(MarchYear(Civil(c.year, 1, 1))) == ExtraDay(c.year, c.month, start)
  {
    hide NumberOf, Reformed, GregorianToJD, Ahead, ExtraDay, NewYear, MarchYear, DaysInMonth;
    day := c.day;
    for month := 1 to c.month
      invariant day == c.day + MonthsBefore(c.year, month, start)
    {
      day := day + DaysInMonth(c.year, month, start);
    }
    YearDayIff(c, start);
  }

  // ---------------------------------------------------------------- ISO weeks

  /** The day of the week from Monday, 1, to Sunday, 7. */
  function Weekday(jd: int): int {
    var w := (jd + 1) % 7;
    if w == 0 then 7 else w
  }

  /** The Monday of the week with the 4th of January. */
  function Week1(year: int): int {
    var jan4 := GregorianToJD(Civil(year, 1, 4));
    jan4 - (Weekday(jan4) - 1)
  }

  function WeekCount(year: int): int {
    (Week1(year + 1) - Week1(year)) / 7
  }

  datatype Week = Week(year: int, number: int)

  /** dateCommercialParts: the year of the week's Thursday. */
  function CommercialParts(jd: int): Week {
    var year := JDToCivilUsing(jd + 4 - Weekday(jd), true).year;
    Week(year, (jd - Week1(year)) / 7 + 1)
  }

  /** dateCommercialJD; negative weeks and days count from the end. */
  function CommercialJD(year: int, week: int, day: int, start: Start): Numbered {
    var d := if day < 0 then day + 8 else day;
    if d < 1 || d > 7 || week == 0 then Numbered(0, false) else
    var jan4 := CivilToJD(Civil(year, 1, 4), start);
    if !jan4.valid then Numbered(0, false) else
    var week1 := jan4.jd - Weekday(jan4.jd) + 1;
    var next := CivilToJD(Civil(year + 1, 1, 4), start);
    if !next.valid then Numbered(0, false) else
    var count := (next.jd - Weekday(next.jd) + 1 - week1) / 7;
    var w := if week < 0 then week + count + 1 else week;
    if w < 1 || w > count then Numbered(0, false) else Numbered(week1 + (w - 1) * 7 + d - 1, true)
  }

  lemma {:induction false} WeekdayIsMod(jd: int)
    ensures Weekday(jd) == jd % 7 + 1 && (jd - (Weekday(jd) - 1)) % 7 == 0
  {
  }

  lemma {:induction false} JanuaryNumber(year: int, day: int)
    requires 1 <= day <= 31
    ensures CivilToJD(Civil(year, 1, day), AlwaysGregorian) == Numbered(GregorianDays(year + 4799) + 305 + day - 32044, true)
    ensures GregorianToJD(Civil(year, 1, day)) == GregorianDays(year + 4799) + 305 + day - 32044
  {
    var c := Civil(year, 1, day);
    assert MarchYear(c) == year + 4799 && MarchMonth(c) == 10 && MonthStart(10) == 306;
    hide GregorianToJD, GregorianDays, MarchYear, MarchMonth, MonthStart, JDToCivilUsing;
    GregorianNumber(c);
    GregorianValid(c);
  }

  lemma {:induction false} YearLength(year: int)
    ensures NewYear(year + 1) == NewYear(year) + (if GregorianLeap(year) then 366 else 365)
    ensures GregorianToJD(Civil(year, 1, 4)) == NewYear(year) + 3
  {
    JanuaryNumber(year, 1);
    JanuaryNumber(year, 4);
    JanuaryNumber(year + 1, 1);
    GregorianLength(year + 4799);
    LeapShift(year);
  }

  /** Week 1 is the week whose Thursday is the first one of the year. */
  lemma {:induction false} FirstThursday(year: int)
    ensures Week1(year) % 7 == 0 && NewYear(year) <= Week1(year) + 3 < NewYear(year) + 7
  {
    YearLength(year);
    WeekdayIsMod(GregorianToJD(Civil(year, 1, 4)));
  }

  /** Each year has 52 or 53 weeks, and its weeks end where the next year's begin. */
  lemma {:induction false} FiftyTwoOrThree(year: int)
    ensures WeekCount(year) == 52 || WeekCount(year) == 53
    ensures Week1(year + 1) == Week1(year) + 7 * WeekCount(year)
  {
    FirstThursday(year);
    FirstThursday(year + 1);
    YearLength(year);
    SevenBetween(Week1(year), Week1(year + 1));
  }

  lemma {:induction false} SevenBetween(x: int, y: int)
    requires x % 7 == 0 && y % 7 == 0 && 359 <= y - x <= 372
    ensures y == x + 7 * ((y - x) / 7) && 52 <= (y - x) / 7 <= 53
  {
  }

  /** The civil year of a day is the one it lies in. */
  lemma {:induction false} YearOfDay(jd: int)
    ensures var year := JDToCivilUsing(jd, true).year; NewYear(year) <= jd < NewYear(year + 1)
  {
    var c := JDToCivilUsing(jd, true);
    GregorianRoundTrip(jd);
    GregorianNumber(c);
    JanuaryNumber(c.year, 1);
    JanuaryNumber(c.year + 1, 1);
    GregorianLength(c.year + 4799);
    hide JDToCivilUsing, GregorianToJD, GregorianDays, MarchYear, MarchMonth, MonthStart, GregorianLeap;
    InYear(c);
  }

  lemma {:induction false} InYear(c: Civil)
    requires 1 <= c.month <= 12 && 1 <= c.day && MonthStart(MarchMonth(c)) + c.day <= MonthStart(MarchMonth(c) + 1)
    ensures c.month <= 2 ==> MonthStart(MarchMonth(c)) + c.day >= 307 && MarchYear(c) == c.year + 4799
    ensures c.month > 2 ==> 1 <= MonthStart(MarchMonth(c)) + c.day <= 306 && MarchYear(c) == c.year + 4800
  {
    assert (14 - c.month) / 12 == if c.month <= 2 then 1 else 0;
  }

  lemma {:induction false} NewYearsIncrease(y: int, z: int)
    requires y <= z
    ensures NewYear(y) <= NewYear(z)
  {
    JanuaryNumber(y, 1);
    JanuaryNumber(z, 1);
    GregorianIncreases(y + 4799, z + 4799);
  }

  lemma {:induction false} YearUnique(jd: int, year: int)
    requires NewYear(year) <= jd < NewYear(year + 1)
    ensures JDToCivilUsing(jd, true).year == year
  {
    var y := JDToCivilUsing(jd, true).year;
    hide NewYear, JDToCivilUsing;
    YearOfDay(jd);
    if y < year { NewYearsIncrease(y + 1, year); }
    if y > year { NewYearsIncrease(year + 1, y); }
  }

  /** A week belongs to the year whose weeks contain its Monday. */
  lemma {:induction false} WeekYearIff(jd: int, year: int)
    ensures CommercialParts(jd).year == year <==> Week1(year) <= jd < Week1(year + 1)
  {
    var thursday := jd + 4 - Weekday(jd);
    hide NewYear, Week1, JDToCivilUsing, Weekday;
    YearOfDay(thursday);
    if NewYear(year) <= thursday < NewYear(year + 1) { YearUnique(thursday, year); }
    ThursdayInYear(jd, year);
  }

  lemma {:induction false} ThursdayInYear(jd: int, year: int)
    ensures NewYear(year) <= jd + 4 - Weekday(jd) < NewYear(year + 1) <==> Week1(year) <= jd < Week1(year + 1)
  {
    hide NewYear, Week1, Weekday;
    WeekdayIsMod(jd);
    FirstThursday(year);
    FirstThursday(year + 1);
    SameWeek(jd, Week1(year));
    SameWeek(jd, Week1(year + 1));
  }

  /** A day is before a Monday exactly when its week's Thursday is before that week's. */
  lemma {:induction false} SameWeek(jd: int, monday: int)
    requires monday % 7 == 0
    ensures jd < monday <==> jd - jd % 7 <= monday - 7
  {
  }

  lemma {:induction false} CommercialUnfolds(year: int, week: int, day: int)
    ensures var d := if day < 0 then day + 8 else day;
            var w := if week < 0 then week + WeekCount(year) + 1 else week;
            CommercialJD(year, week, day, AlwaysGregorian)
            == if 1 <= d <= 7 && week != 0 && 1 <= w <= WeekCount(year) then Numbered(Week1(year) + (w - 1) * 7 + d - 1, true)
               else Numbered(0, false)
  {
    JanuaryNumber(year, 4);
    JanuaryNumber(year + 1, 4);
  }

  /** Every day survives the trip through its week date, whose week is one of its year's. */
  lemma {:induction false} WeekRoundTrip(jd: int)
    ensures var w := CommercialParts(jd);
            1 <= w.number <= WeekCount(w.year) && CommercialJD(w.year, w.number, Weekday(jd), AlwaysGregorian) == Numbered(jd, true)
  {
    var w := CommercialParts(jd);
    WeekYearIff(jd, w.year);
    FiftyTwoOrThree(w.year);
    FirstThursday(w.year);
    WeekdayIsMod(jd);
    CommercialUnfolds(w.year, w.number, Weekday(jd));
    hide CommercialJD, Week1, WeekCount, JDToCivilUsing;
    InWeek(jd, Week1(w.year), WeekCount(w.year));
  }

  lemma {:induction false} InWeek(jd: int, week1: int, count: int)
    requires week1 % 7 == 0 && week1 <= jd < week1 + 7 * count
    ensures 0 <= (jd - week1) / 7 < count && jd == week1 + 7 * ((jd - week1) / 7) + jd % 7
  {
  }

  /** Every accepted week date comes back, with weeks and days counted from the start. */
  lemma {:induction false} WeekConvertsBack(year: int, week: int, day: int)
    requires CommercialJD(year, week, day, AlwaysGregorian).valid
    ensures var jd := CommercialJD(year, week, day, AlwaysGregorian).jd;
            && CommercialParts(jd) == Week(year, if week < 0 then week + WeekCount(year) + 1 else week)
            && Weekday(jd) == if day < 0 then day + 8 else day
  {
    CommercialUnfolds(year, week, day);
    var jd := CommercialJD(year, week, day, AlwaysGregorian).jd;
    hide CommercialJD, Week1, WeekCount, Weekday;
    FiftyTwoOrThree(year);
    FirstThursday(year);
    WeekdayIsMod(jd);
    WeekYearIff(jd, year);
    FromWeek(Week1(year), if week < 0 then week + WeekCount(year) + 1 else week, if day < 0 then day + 8 else day);
  }

  lemma {:induction false} FromWeek(week1: int, w: int, d: int)
    requires week1 % 7 == 0 && 1 <= d <= 7
    ensures var jd := week1 + (w - 1) * 7 + d - 1; jd % 7 == d - 1 && (jd - week1) / 7 + 1 == w
  {
  }

  // ---------------------------------------------------------------- week dates under any start

  function Monday(jd: int): int {
    jd - Weekday(jd) + 1
  }

  /** Every accepted week date has the weekday asked for. It comes back as the week asked for if and only if the 4th of January, as that
      start counts it, lies in the Gregorian week 1, and the Gregorian year has that many weeks. */
  lemma {:induction false} WeekConvertsBackIff(year: int, week: int, day: int, start: Start)
    requires CommercialJD(year, week, day, start).valid
    ensures CivilToJD(Civil(year, 1, 4), start).valid && CivilToJD(Civil(year + 1, 1, 4), start).valid
    ensures var week1, next := Monday(CivilToJD(Civil(year, 1, 4), start).jd), Monday(CivilToJD(Civil(year + 1, 1, 4), start).jd);
            var jd, w := CommercialJD(year, week, day, start).jd, if week < 0 then week + (next - week1) / 7 + 1 else week;
            && Weekday(jd) == (if day < 0 then day + 8 else day)
            && (CommercialParts(jd) == Week(year, w) <==> week1 == Week1(year) && w <= WeekCount(year))
  {
    hide *;
    var week1, next := Monday(CivilToJD(Civil(year, 1, 4), start).jd), Monday(CivilToJD(Civil(year + 1, 1, 4), start).jd);
    CommercialParted(year, week, day, start);
    Mondays(CivilToJD(Civil(year, 1, 4), start).jd);
    ComesBackIff(week1, year, if week < 0 then week + (next - week1) / 7 + 1 else week, if day < 0 then day + 8 else day);
  }

  lemma {:induction false} Mondays(jd: int)
    ensures Monday(jd) % 7 == 0
  {
    hide Weekday;
    WeekdayIsMod(jd);
  }

  lemma {:induction false} ComesBackIff(week1: int, year: int, w: int, d: int)
    requires week1 % 7 == 0 && 1 <= w && 1 <= d <= 7
    ensures var jd := week1 + (w - 1) * 7 + d - 1;
            Weekday(jd) == d && (CommercialParts(jd) == Week(year, w) <==> week1 == Week1(year) && w <= WeekCount(year))
  {
    var jd := week1 + (w - 1) * 7 + d - 1;
    hide *;
    FiftyTwoOrThree(year);
    FirstThursday(year);
    WeekdayIsMod(jd);
    PartsIff(jd, year, w);
    WhichWeek(week1, Week1(year), WeekCount(year), w, d);
  }

  lemma {:induction false} PartsIff(jd: int, year: int, w: int)
    ensures CommercialParts(jd) == Week(year, w) <==> Week1(year) <= jd < Week1(year + 1) && (jd - Week1(year)) / 7 + 1 == w
  {
    PartsWeek(jd);
    hide *;
    WeekYearIff(jd, year);
  }

  lemma {:induction false} PartsWeek(jd: int)
    ensures CommercialParts(jd).number == (jd - Week1(CommercialParts(jd).year)) / 7 + 1
  {
    hide Week1, Weekday, JDToCivilUsing;
  }

  lemma {:induction false} CommercialParted(year: int, week: int, day: int, start: Start)
    ensures var first, next := CivilToJD(Civil(year, 1, 4), start), CivilToJD(Civil(year + 1, 1, 4), start);
            var count := (Monday(next.jd) - Monday(first.jd)) / 7;
            var w, d := if week < 0 then week + count + 1 else week, if day < 0 then day + 8 else day;
            CommercialJD(year, week, day, start)
            == if first.valid && next.valid && 1 <= d <= 7 && week != 0 && 1 <= w <= count then Numbered(Monday(first.jd) + (w - 1) * 7 + d - 1, true)
               else Numbered(0, false)
  {
    hide CivilToJD, Weekday;
  }

  lemma {:induction false} WhichWeek(week1: int, gregorian: int, count: int, w: int, d: int)
    requires week1 % 7 == 0 && gregorian % 7 == 0 && 1 <= w && 1 <= d <= 7
    ensures var jd := week1 + (w - 1) * 7 + d - 1;
            && jd % 7 == d - 1
            && (gregorian <= jd < gregorian + 7 * count && (jd - gregorian) / 7 + 1 == w <==> week1 == gregorian && w <= count)
  {
  }

  /** From the first year whose 4th of January is Gregorian, a start makes no difference; for the default start that is 1583. */
  lemma {:induction false} CommercialReformed(year: int, week: int, day: int, start: Start)
    requires Reformed(GregorianToJD(Civil(year, 1, 4)), start)
    ensures CommercialJD(year, week, day, start) == CommercialJD(year, week, day, AlwaysGregorian)
  {
    hide *;
    January4(year, start);
    LaterReformed(year, start);
    January4(year + 1, start);
    SameFourths(year, week, day, start);
  }

  lemma {:induction false} SameFourths(year: int, week: int, day: int, start: Start)
    requires CivilToJD(Civil(year, 1, 4), start) == CivilToJD(Civil(year, 1, 4), AlwaysGregorian)
    requires CivilToJD(Civil(year + 1, 1, 4), start) == CivilToJD(Civil(year + 1, 1, 4), AlwaysGregorian)
    ensures CommercialJD(year, week, day, start) == CommercialJD(year, week, day, AlwaysGregorian)
  {
    hide CivilToJD, Weekday;
  }

  lemma {:induction false} LaterReformed(year: int, start: Start)
    requires Reformed(GregorianToJD(Civil(year, 1, 4)), start)
    ensures Reformed(GregorianToJD(Civil(year + 1, 1, 4)), start)
  {
    hide GregorianToJD, NewYear;
    YearLength(year);
    YearLength(year + 1);
    NewYearsIncrease(year, year + 1);
  }

  lemma {:induction false} January4(year: int, start: Start)
    requires Reformed(GregorianToJD(Civil(year, 1, 4)), start)
    ensures CivilToJD(Civil(year, 1, 4), start) == CivilToJD(Civil(year, 1, 4), AlwaysGregorian)
  {
    hide GregorianToJD, JDToCivilUsing;
  }

  lemma {:induction false} ItalyWeeks(year: int, week: int, day: int)
    requires year >= 1583
    ensures CommercialJD(year, week, day, At(ITALY)) == CommercialJD(year, week, day, AlwaysGregorian)
  {
    assert GregorianToJD(Civil(1583, 1, 4)) >= ITALY;
    hide GregorianToJD, CommercialJD, NewYear;
    YearLength(1583);
    YearLength(year);
    NewYearsIncrease(1583, year);
    CommercialReformed(year, week, day, At(ITALY));
  }

  /** Under the default start, the first week of 1582 is the Gregorian calendar's second. */
  lemma {:induction false} ReformWeek()
    ensures CommercialJD(1582, 1, 1, At(ITALY)) == Numbered(2298884, true) && CommercialParts(2298884) == Week(1582, 2)
  {
    hide *;
    ReformFourths();
    ReformMondays();
    CommercialParted(1582, 1, 1, At(ITALY));
    PartsIff(2298884, 1582, 2);
  }

  lemma {:induction false} ReformMondays()
    ensures Week1(1582) == 2298877 && Week1(1583) == 2299241 && Monday(2298887) == 2298884 && Monday(2299242) == 2299241
  {
    FourthNumbers();
    hide GregorianToJD;
  }

  lemma {:induction false} FourthNumbers()
    ensures GregorianToJD(Civil(1582, 1, 4)) == 2298877 && JulianToJD(Civil(1582, 1, 4)) == 2298887
    ensures GregorianToJD(Civil(1583, 1, 4)) == 2299242
  {
    var c := Civil(1582, 1, 4);
    assert MarchYear(c) == 6381 && MarchMonth(c) == 10 && MonthStart(10) == 306;
    assert GregorianDays(6381) == 2330612 && GregorianDays(6382) == 2330977 && JulianDays(6381) == 2330660;
    hide *;
    JulianNumber(c);
    JanuaryNumber(1582, 4);
    JanuaryNumber(1583, 4);
  }

  lemma {:induction false} ReformFourths()
    ensures CivilToJD(Civil(1582, 1, 4), At(ITALY)) == Numbered(2298887, true)
    ensures CivilToJD(Civil(1583, 1, 4), At(ITALY)) == Numbered(2299242, true)
  {
    var c, d := Civil(1582, 1, 4), Civil(1583, 1, 4);
    FourthNumbers();
    hide JulianToJD, GregorianToJD, JDToCivilUsing;
    JulianValid(c);
    January4(1583, At(ITALY));
    JanuaryNumber(1583, 4);
  }
}
