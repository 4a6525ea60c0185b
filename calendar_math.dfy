/**
 * The arithmetic core of the Hebrew calendar: the 19-year leap cycle and the
 * molad-based count of days from the new year of 3744, with the Rosh Hashana
 * postponements (GaTaRaD, BeTUTaKPaT and Lo ADU Rosh).
 *
 * Python's `//` and `%` with a positive divisor floor their result, exactly as
 * Dafny's Euclidean `/` and `%` do, so the formulas below are written as in
 * the source even where the year offset is negative.
 */
module CalendarMath {

  const PartsInHour := 1080
  /** 24 hours; ConstantsAgree checks each literal against its definition. */
  const PartsInDay := 25920
  /** 7 days */
  const PartsInWeek := 181440

  /** Total parts (chalakim) in `hours` hours and `parts` parts. */
  function Chalakim(hours: int, parts: int): (r: int)
    ensures 0 <= hours && 0 <= parts < PartsInHour ==> r / PartsInHour == hours && r % PartsInHour == parts
  {
    hours * PartsInHour + parts
  }

  /** The part of a mean synodic month beyond whole days: 1 day, 12 hours and 793 parts (the 28 whole days are counted apart). */
  const PartsInMonth := 39673

  /** Weekdays as the source numbers them: Sunday is 1, Saturday is 7. */
  type Weekday = d: int | 1 <= d <= 7 witness 1

  const Sunday: Weekday := 1
  const Monday: Weekday := 2
  const Tuesday: Weekday := 3
  const Wednesday: Weekday := 4
  const Thursday: Weekday := 5
  const Friday: Weekday := 6
  const Saturday: Weekday := 7

  /** A year is a leap year (two Adars) in 7 of the 19 years of the cycle. */
  predicate IsLeapYear(year: int) {
    year % 19 in {0, 3, 6, 8, 11, 14, 17}
  }

  /**
   * Days from the epoch of the computation (the molad of 3744, shifted by
   * six hours) to Rosh Hashana of `hebrewYear`.
   */
  function DaysFrom3744(hebrewYear: int): int {
    var yearsFrom3744 := hebrewYear - 3744;
    var molad3744 := Chalakim(1 + 6, 779);
    var leapMonths := (yearsFrom3744 * 7 + 1) / 19;
    var leapLeft := (yearsFrom3744 * 7 + 1) % 19;
    var months := yearsFrom3744 * 12 + leapMonths;
    var parts := months * PartsInMonth + molad3744;
    var days := months * 28 + parts / PartsInDay - 2;
    var partsLeftInWeek := parts % PartsInWeek;
    var partsLeftInDay := parts % PartsInDay;
    var weekDay := partsLeftInWeek / PartsInDay;
    // Molad GaTaRaD: Tuesday at 9h 204p or later in a common year.
    var moladGetRed := leapLeft < 12 && weekDay == 3 && partsLeftInDay >= Chalakim(9 + 6, 204);
    // Molad BeTUTaKPaT: Monday at 15h 589p or later right after a leap year.
    var moladBetuTakpat := leapLeft < 7 && weekDay == 2 && partsLeftInDay >= Chalakim(15 + 6, 589);
    var days1 := if moladGetRed || moladBetuTakpat then days + 1 else days;
    var weekDay1 := if moladGetRed || moladBetuTakpat then weekDay + 1 else weekDay;
    // Lo ADU Rosh: never on Sunday, Wednesday or Friday.
    if weekDay1 in {1, 4, 6} then days1 + 1 else days1
  }

  /** Number of days in `hebrewYear`. */
  function YearSize(hebrewYear: int): int {
    DaysFrom3744(hebrewYear + 1) - DaysFrom3744(hebrewYear)
  }

  /** Kislev has 29 days in a deficient year. */
  predicate ShortKislev(year: int) {
    YearSize(year) in {353, 383}
  }

  /** Marcheshvan has 30 days in a complete year. */
  predicate LongCheshvan(year: int) {
    YearSize(year) in {355, 385}
  }

  // ---------------------------------------------------------------------
  // The molad computation split into the state it carries from one year to
  // the next: the months elapsed, the whole days of the molad, the parts of
  // the molad within its day, and the position in the leap cycle.
  // ---------------------------------------------------------------------

  function LeapLeft(y: int): int { ((y - 3744) * 7 + 1) % 19 }

  function MonthsElapsed(y: int): int { (y - 3744) * 12 + ((y - 3744) * 7 + 1) / 19 }

  function MoladParts(y: int): int { MonthsElapsed(y) * 39673 + 8339 }

  /** The days added to the molad's day by the postponement rules. */
  function Postponement(weekDay: int, partsInDay: int, leapLeft: int): (r: int)
    ensures 0 <= r <= 2
  {
    var delayed := (leapLeft < 12 && weekDay == 3 && partsInDay >= 16404)
                   || (leapLeft < 7 && weekDay == 2 && partsInDay >= 23269);
    var weekDay1 := if delayed then weekDay + 1 else weekDay;
    (if delayed then 1 else 0) + (if weekDay1 in {1, 4, 6} then 1 else 0)
  }

  /** The weekday-in-computation (0..7) on which the year actually begins. */
  function StartDay(weekDay: int, partsInDay: int, leapLeft: int): int {
    weekDay + Postponement(weekDay, partsInDay, leapLeft)
  }

  lemma ConstantsAgree()
    ensures PartsInDay == 24 * PartsInHour && PartsInWeek == 7 * PartsInDay
    ensures PartsInMonth == PartsInDay + Chalakim(12, 793)
    ensures Chalakim(1 + 6, 779) == 8339
    ensures Chalakim(9 + 6, 204) == 16404 && Chalakim(15 + 6, 589) == 23269
  {
  }

  /** The weekday of a molad is its day count modulo 7. */
  lemma WeekDayOfParts(p: int)
    ensures (p % 181440) / 25920 == (p / 25920) % 7
  {
    var q := p / 25920;
    var a := q / 7;
    var r := p % 181440;
    assert p == 181440 * a + (25920 * (q % 7) + p % 25920);
    assert r == 25920 * (q % 7) + p % 25920;
  }

  /** DaysFrom3744 is the molad's day count plus the postponement. */
  lemma DaysFrom3744Decomposed(y: int)
    ensures var p := MoladParts(y);
            DaysFrom3744(y) == MonthsElapsed(y) * 28 + p / 25920 - 2
                               + Postponement((p / 25920) % 7, p % 25920, LeapLeft(y))
  {
    ConstantsAgree();
    var p := MoladParts(y);
    WeekDayOfParts(p);
    var yearsFrom3744 := y - 3744;
    var months := yearsFrom3744 * 12 + (yearsFrom3744 * 7 + 1) / 19;
    assert months == MonthsElapsed(y);
    assert months * PartsInMonth + Chalakim(1 + 6, 779) == p;
  }

  /** One year later the leap cycle advances by 7 and the months by 12 or 13. */
  lemma NextYearCycle(y: int)
    ensures LeapLeft(y + 1) == if LeapLeft(y) >= 12 then LeapLeft(y) - 12 else LeapLeft(y) + 7
    ensures MonthsElapsed(y + 1) == MonthsElapsed(y) + if LeapLeft(y) >= 12 then 13 else 12
  {
    var t := (y - 3744) * 7 + 1;
    assert (y + 1 - 3744) * 7 + 1 == t + 7;
    var q, r := t / 19, t % 19;
    assert t + 7 == 19 * q + r + 7;
    if r >= 12 {
      assert t + 7 == 19 * (q + 1) + (r - 12);
    }
  }

  /** The leap test on the year number agrees with the molad's month count. */
  lemma {:induction false} LeapAgreesWithCycle(y: int)
    ensures IsLeapYear(y) <==> LeapLeft(y) >= 12
  {
    var r := y % 19;
    var a := y / 19;
    assert (y - 3744) * 7 + 1 == 19 * (7 * a - 1380) + (7 * r + 13);
    assert LeapLeft(y) == (7 * r + 13) % 19;
  }

  /**
   * The length of a year from its molad's weekday, its parts within the day
   * and its leap-cycle position: 12 or 13 months of 29 days, the whole days
   * the months' extra parts add, and the change in postponement from this
   * Rosh Hashana to the next.
   */
  function SizeFromMolad(w: int, pd: int, ll: int): int {
    var k := if ll >= 12 then 13 else 12;
    var e := (pd + 13753 * k) / 25920;
    var w2 := (w + k + e) % 7;
    var pd2 := (pd + 13753 * k) % 25920;
    var ll2 := if ll >= 12 then ll - 12 else ll + 7;
    29 * k + e + Postponement(w2, pd2, ll2) - Postponement(w, pd, ll)
  }

  /**
   * The finite heart of the year-length theorem: from the molad's weekday,
   * its parts within the day and the leap-cycle position of one year, the
   * length of that year is one of the six legal lengths; and a leap year
   * that begins on Tuesday is never complete.
   */
  lemma {:induction false} MoladStep(w: int, pd: int, ll: int)
    requires 0 <= w < 7 && 0 <= pd < 25920 && 0 <= ll < 19
    ensures var size := SizeFromMolad(w, pd, ll);
            && (ll < 12 ==> 353 <= size <= 355)
            && (ll >= 12 ==> 383 <= size <= 385)
            && !(ll >= 12 && StartDay(w, pd, ll) == 3 && size == 385)
  {
    var k := if ll >= 12 then 13 else 12;
    var t := pd + 13753 * k;
    var e := t / 25920;
    assert 6 <= e <= 7;
    assert t % 25920 == t - 25920 * e;
    var s := w + k + e;
    assert s % 7 == if s >= 21 then s - 21 else s - 14;
  }

  lemma ModSevenShift(q: int, x: int)
    ensures (q + x) % 7 == (q % 7 + x) % 7
  {
    var s := q % 7 + x;
    assert q + x == 7 * (q / 7 + s / 7) + s % 7;
  }

  /** The two molad quantities of y + 1 in terms of those of y. */
  lemma MoladNextYear(y: int)
    ensures var k := if LeapLeft(y) >= 12 then 13 else 12;
            var p := MoladParts(y);
            var e := (p % 25920 + 13753 * k) / 25920;
            && MoladParts(y + 1) / 25920 == p / 25920 + k + e
            && MoladParts(y + 1) % 25920 == (p % 25920 + 13753 * k) % 25920
  {
    NextYearCycle(y);
    var k := if LeapLeft(y) >= 12 then 13 else 12;
    var p := MoladParts(y);
    var q, pd := p / 25920, p % 25920;
    var e := (pd + 13753 * k) / 25920;
    var pd2 := (pd + 13753 * k) % 25920;
    assert MoladParts(y + 1) == p + 39673 * k;
    assert MoladParts(y + 1) == 25920 * (q + k + e) + pd2;
  }

  /** Every Hebrew year has 353, 354 or 355 days, or 383, 384 or 385 in a leap year. */
  lemma {:induction false} YearSizeLegal(y: int)
    ensures !IsLeapYear(y) ==> YearSize(y) in {353, 354, 355}
    ensures IsLeapYear(y) ==> YearSize(y) in {383, 384, 385}
  {
    YearSizeShape(y);
  }

  /** The start day of year y in terms of the molad quantities. */
  function StartOf(y: int): int {
    var p := MoladParts(y);
    StartDay((p / 25920) % 7, p % 25920, LeapLeft(y))
  }

  /** DaysFrom3744 of the following year in terms of this year's molad quantities. */
  lemma NextYearDecomposed(y: int)
    ensures var p := MoladParts(y);
            var q, pd, ll := p / 25920, p % 25920, LeapLeft(y);
            var k := if ll >= 12 then 13 else 12;
            var e := (pd + 13753 * k) / 25920;
            var pd2 := (pd + 13753 * k) % 25920;
            var ll2 := if ll >= 12 then ll - 12 else ll + 7;
            DaysFrom3744(y + 1) == (MonthsElapsed(y) + k) * 28 + (q + k + e) - 2
                                   + Postponement((q % 7 + k + e) % 7, pd2, ll2)
  {
    var p := MoladParts(y);
    var q, pd, ll := p / 25920, p % 25920, LeapLeft(y);
    var k := if ll >= 12 then 13 else 12;
    var e := (pd + 13753 * k) / 25920;
    var pd2 := (pd + 13753 * k) % 25920;
    var ll2 := if ll >= 12 then ll - 12 else ll + 7;
    var m := MonthsElapsed(y);
    assert LeapLeft(y + 1) == ll2 && MonthsElapsed(y + 1) == m + k by { NextYearCycle(y); }
    assert MoladParts(y + 1) / 25920 == q + k + e && MoladParts(y + 1) % 25920 == pd2 by {
      MoladNextYear(y);
    }
    assert (q + k + e) % 7 == (q % 7 + k + e) % 7 by { ModSevenShift(q, k + e); }
    var z := y + 1;
    var p2 := MoladParts(z);
    var q2, m2 := p2 / 25920, MonthsElapsed(z);
    assert DaysFrom3744(z) == m2 * 28 + q2 - 2 + Postponement(q2 % 7, p2 % 25920, LeapLeft(z)) by {
      DaysFrom3744Decomposed(z);
    }
  }

  /** The length of year y from its molad quantities. */
  lemma YearSizeFormula(y: int)
    ensures var p := MoladParts(y);
            YearSize(y) == SizeFromMolad((p / 25920) % 7, p % 25920, LeapLeft(y))
  {
    DaysFrom3744Decomposed(y);
    NextYearDecomposed(y);
  }

  lemma {:induction false} YearSizeShape(y: int)
    ensures !IsLeapYear(y) ==> 353 <= YearSize(y) <= 355
    ensures IsLeapYear(y) ==> 383 <= YearSize(y) <= 385
    ensures !(IsLeapYear(y) && StartOf(y) == 3 && YearSize(y) == 385)
  {
    var p := MoladParts(y);
    LeapAgreesWithCycle(y);
    YearSizeFormula(y);
    MoladStep((p / 25920) % 7, p % 25920, LeapLeft(y));
  }

  /** The week-day (1 = Sunday) a postponed start day lands on is never Sunday, Wednesday or Friday. */
  lemma StartDayLegal(w: int, pd: int, ll: int)
    requires 0 <= w < 7
    ensures StartDay(w, pd, ll) in {0, 2, 3, 5, 7}
  {
  }

  /**
   * Rosh Hashana of year `y` (JDN DaysFrom3744(y) + 1715119) falls on Monday,
   * Tuesday, Thursday or Saturday, with the week-day numbering (jdn + 1) % 7 + 1,
   * and on Tuesday exactly when the start day is 3.
   */
  lemma {:induction false} NewYearWeekday(y: int)
    ensures var dow := (DaysFrom3744(y) + 1715120) % 7 + 1;
            && dow == (StartOf(y) + 6) % 7 + 1
            && dow in {Monday, Tuesday, Thursday, Saturday}
            && (dow == Tuesday <==> StartOf(y) == 3)
  {
    var p := MoladParts(y);
    var q, pd, ll := p / 25920, p % 25920, LeapLeft(y);
    var w := q % 7;
    var m := MonthsElapsed(y);
    var s := StartDay(w, pd, ll);
    assert DaysFrom3744(y) == m * 28 + q - 2 + Postponement(w, pd, ll) by {
      DaysFrom3744Decomposed(y);
    }
    StartDayLegal(w, pd, ll);
    var t := q / 7;
    var k := 4 * m + t + 245016;
    assert q == 7 * t + w;
    assert DaysFrom3744(y) + 1715120 == 7 * k + (s + 6);
    MultipleOfSeven(k, s + 6);
  }

  lemma MultipleOfSeven(k: int, x: int)
    ensures (7 * k + x) % 7 == x % 7
  {
    assert 7 * k + x == 7 * (k + x / 7) + x % 7;
  }

  /** The finite heart of YearKinds, on the molad quantities of one year. */
  lemma {:induction false} MoladKeviyah(w: int, pd: int, ll: int)
    requires 0 <= w < 7 && 0 <= pd < 25920 && 0 <= ll < 19
    ensures StartKind(StartDay(w, pd, ll), SizeFromMolad(w, pd, ll))
  {
    MoladStep(w, pd, ll);
    StartDayLegal(w, pd, ll);
    var k := if ll >= 12 then 13 else 12;
    var t := pd + 13753 * k;
    var e := t / 25920;
    assert 6 <= e <= 7;
    assert t % 25920 == t - 25920 * e;
    var s := w + k + e;
    assert s % 7 == if s >= 21 then s - 21 else s - 14;
  }

  /**
   * The fourteen kinds of year: Rosh Hashana's week-day together with the
   * year's length. A common year that begins on Tuesday has 354 days, and a
   * leap one 384; a year that begins on Monday or Saturday is never regular
   * (354 or 384 days); one that begins on Thursday is never a deficient
   * common year nor a regular leap year.
   */
  lemma {:induction false} YearKinds(y: int)
    ensures var dow := (DaysFrom3744(y) + 1715120) % 7 + 1;
            var size := YearSize(y);
            && (dow == Monday || dow == Saturday ==> size in {353, 355, 383, 385})
            && (dow == Tuesday ==> size in {354, 384})
            && (dow == Thursday ==> size in {354, 355, 383, 385})
  {
    var dow := (DaysFrom3744(y) + 1715120) % 7 + 1;
    var size := YearSize(y);
    var s := StartOf(y);
    assert dow == (s + 6) % 7 + 1 by { NewYearWeekday(y); }
    assert StartKind(s, size) by { StartKinds(y); }
  }

  /** What the start day says of the year's length; see YearKinds. */
  predicate StartKind(s: int, size: int) {
    && s in {0, 2, 3, 5, 7}
    && (s == 2 || s % 7 == 0 ==> size in {353, 355, 383, 385})
    && (s == 3 ==> size in {354, 384})
    && (s == 5 ==> size in {354, 355, 383, 385})
  }

  lemma {:induction false} StartKinds(y: int)
    ensures StartKind(StartOf(y), YearSize(y))
  {
    var p := MoladParts(y);
    YearSizeFormula(y);
    MoladKeviyah((p / 25920) % 7, p % 25920, LeapLeft(y));
  }
}
