/** Day numbers and dates are in the same order. */
module DateOrder {
  // Across a reform, too, if it does not come too early.

  import opened MarchYears
  import opened Dates

  /** By year, month and day. */
  predicate Before(c: Civil, d: Civil) {
    c.year < d.year || (c.year == d.year && (c.month < d.month || (c.month == d.month && c.day < d.day)))
  }

  /** The same in years that begin in March. */
  predicate MarchBefore(c: Civil, d: Civil) {
    || MarchYear(c) < MarchYear(d)
    || (MarchYear(c) == MarchYear(d) && (MarchMonth(c) < MarchMonth(d) || (MarchMonth(c) == MarchMonth(d) && c.day < d.day)))
  }

  lemma {:induction false} SameOrder(c: Civil, d: Civil)
    requires 1 <= c.month <= 12 && 1 <= d.month <= 12
    ensures Before(c, d) <==> MarchBefore(c, d)
  {
    assert (14 - c.month) / 12 == if c.month <= 2 then 1 else 0;
    assert (14 - d.month) / 12 == if d.month <= 2 then 1 else 0;
  }

  /** The days of the March-based year before the date. */
  function DayInYear(c: Civil): int { MonthStart(MarchMonth(c)) + c.day - 1 }

  predicate InMonth(c: Civil) {
    1 <= c.month <= 12 && 1 <= c.day && 0 <= MarchMonth(c) <= 11 && MonthStart(MarchMonth(c)) + c.day <= MonthStart(MarchMonth(c) + 1)
  }

  lemma {:induction false} DaysInOrder(c: Civil, d: Civil)
    requires InMonth(c) && InMonth(d) && MarchYear(c) == MarchYear(d)
    ensures 0 <= DayInYear(c) && (MarchBefore(c, d) <==> DayInYear(c) < DayInYear(d))
  {
    MonthsInOrder(MarchMonth(c), MarchMonth(d));
    MonthsInOrder(MarchMonth(d), MarchMonth(c));
    hide MonthStart, MarchMonth, MarchYear;
  }

  lemma {:induction false} MonthsInOrder(m: int, n: int)
    requires 0 <= m <= 11 && 0 <= n <= 11
    ensures 0 <= MonthStart(m) && (m < n ==> MonthStart(m + 1) <= MonthStart(n))
  {
  }

  /** In the Gregorian calendar the smaller number is the earlier date, if the later one exists. */
  lemma {:induction false} GregorianOrder(c: Civil, d: Civil)
    requires InMonth(c) && InMonth(d) && GregorianToJD(d) + 32044 < GregorianDays(MarchYear(d) + 1)
    ensures GregorianToJD(c) < GregorianToJD(d) ==> MarchBefore(c, d)
  {
    GregorianNumber(c);
    GregorianNumber(d);
    if MarchYear(c) > MarchYear(d) { GregorianIncreases(MarchYear(d) + 1, MarchYear(c)); }
    if MarchYear(c) == MarchYear(d) { DaysInOrder(c, d); }
    MonthsInOrder(MarchMonth(c), MarchMonth(c));
    hide GregorianToJD, GregorianDays, MarchYear, MarchMonth, MonthStart;
  }

  lemma {:induction false} JulianOrder(c: Civil, d: Civil)
    requires InMonth(c) && InMonth(d) && JulianToJD(d) + 32082 < JulianDays(MarchYear(d) + 1)
    ensures JulianToJD(c) < JulianToJD(d) ==> MarchBefore(c, d)
  {
    JulianNumber(c);
    JulianNumber(d);
    if MarchYear(c) > MarchYear(d) { JulianIncreases(MarchYear(d) + 1, MarchYear(c)); }
    if MarchYear(c) == MarchYear(d) { DaysInOrder(c, d); }
    MonthsInOrder(MarchMonth(c), MarchMonth(c));
    hide JulianToJD, JulianDays, MarchYear, MarchMonth, MonthStart;
  }

  /** Before 1 March 200 the years are before it, and not after. */
  lemma {:induction false} EarlyYears(jd: int)
    ensures jd < FIRST_SAFE ==> MarchYear(JDToCivilUsing(jd, false)) < 5000
    ensures jd >= FIRST_SAFE <==> MarchYear(JDToCivilUsing(jd, true)) >= 5000
  {
    JulianRoundTrip(jd);
    GregorianRoundTrip(jd);
    var y, z := MarchYear(JDToCivilUsing(jd, false)), MarchYear(JDToCivilUsing(jd, true));
    assert JulianDays(5000) == 1826250 && GregorianDays(5000) == 1826212;
    if y >= 5000 { JulianIncreases(5000, y); }
    if z >= 5000 { GregorianIncreases(5000, z); } else { GregorianIncreases(z + 1, 5000); }
    hide JDToCivilUsing, MarchYear, JulianDays, GregorianDays, JulianToJD, GregorianToJD, MonthStart, MarchMonth, YearOf;
  }

  /** With a reform not before 1 March 200, later days have later dates. */
  lemma {:induction false} LaterIsAfter(jd: int, later: int, s: int)
    requires jd < later && s >= FIRST_SAFE
    ensures Before(JDToCivil(jd, At(s)), JDToCivil(later, At(s)))
  {
    hide JDToCivilUsing, MarchYear, MarchMonth, MonthStart, GregorianDays, JulianDays, GregorianToJD, JulianToJD, YearOf, Before, MarchBefore, Ahead;
    JulianRoundTrip(jd);
    GregorianRoundTrip(jd);
    JulianRoundTrip(later);
    GregorianRoundTrip(later);
    var c, d := JDToCivil(jd, At(s)), JDToCivil(later, At(s));
    SameOrder(c, d);
    if jd >= s {
      GregorianOrder(c, d);
    } else if later < s {
      JulianOrder(c, d);
    } else {
      AcrossReform(jd, later);
    }
  }

  lemma {:induction false} AcrossReform(jd: int, later: int)
    requires jd < later && later >= FIRST_SAFE
    ensures MarchBefore(JDToCivilUsing(jd, false), JDToCivilUsing(later, true))
  {
    var c, d := JDToCivilUsing(jd, false), JDToCivilUsing(later, true);
    JulianRoundTrip(jd);
    GregorianRoundTrip(later);
    hide JDToCivilUsing, MarchYear, MarchMonth, MonthStart, GregorianDays, JulianDays, GregorianToJD, JulianToJD, YearOf, Ahead;
    if jd < FIRST_SAFE {
      EarlyYears(jd);
      EarlyYears(later);
    } else {
      AheadBefore(jd);
      NumbersDiffer(c);
      GregorianOrder(c, d);
    }
  }

  /** With an earlier reform the last Julian day has no earlier date than the first Gregorian one. */
  lemma {:induction false} EarlyReform(s: int)
    requires s < FIRST_SAFE
    ensures !Before(JDToCivil(s - 1, At(s)), JDToCivil(s, At(s)))
  {
    var c, d := JDToCivilUsing(s - 1, false), JDToCivilUsing(s, true);
    JulianRoundTrip(s - 1);
    GregorianRoundTrip(s);
    hide JDToCivilUsing, MarchMonth, MonthStart, GregorianToJD, JulianToJD, YearOf, MarchYear, GregorianDays, JulianDays, Ahead;
    SameOrder(c, d);
    NumbersDiffer(c);
    AheadBefore(s - 1);
    EarlyYears(s);
    GregorianNumber(c);
    GregorianNumber(d);
    var y := MarchYear(c);
    if MarchYear(d) == y {
      DaysInOrder(c, d);
    } else if y < MarchYear(d) {
      GregorianIncreases(y + 1, MarchYear(d));
      JulianNumber(c);
      LengthsDiffer(y);
      AheadByCentury(y + 1);
    }
  }

  lemma {:induction false} LengthsDiffer(y: int)
    ensures GregorianDays(y + 1) - GregorianDays(y) == JulianDays(y + 1) - JulianDays(y) + Ahead(y + 1) - Ahead(y)
  {
  }

  /** For a reform on an integer day: dates are in the order of their day numbers if and only if the reform is not before
      1 March 200 of the Gregorian calendar. */
  lemma {:induction false} OrderIff(s: int)
    ensures (forall jd, later :: jd < later ==> Before(JDToCivil(jd, At(s)), JDToCivil(later, At(s)))) <==> s >= FIRST_SAFE
  {
    hide JDToCivil, Before;
    if s >= FIRST_SAFE {
      forall jd, later | jd < later ensures Before(JDToCivil(jd, At(s)), JDToCivil(later, At(s))) { LaterIsAfter(jd, later, s); }
    } else {
      EarlyReform(s);
      assert !(s - 1 < s ==> Before(JDToCivil(s - 1, At(s)), JDToCivil(s, At(s))));
    }
  }

  /** So comparing the numbers of two accepted dates compares the dates. */
  lemma {:induction false} AcceptedOrder(c: Civil, d: Civil, s: int)
    requires CivilToJD(c, At(s)).valid && CivilToJD(d, At(s)).valid && s >= FIRST_SAFE
    ensures CivilToJD(c, At(s)).jd < CivilToJD(d, At(s)).jd <==> Before(c, d)
    ensures CivilToJD(c, At(s)).jd == CivilToJD(d, At(s)).jd <==> c == d
  {
    AcceptedConvertsBack(c, At(s));
    AcceptedConvertsBack(d, At(s));
    var x, y := CivilToJD(c, At(s)).jd, CivilToJD(d, At(s)).jd;
    hide CivilToJD, JDToCivil;
    if x < y { LaterIsAfter(x, y, s); }
    if y < x { LaterIsAfter(y, x, s); }
  }
}
