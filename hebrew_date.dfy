/**
 * The `HebrewDate` value type of hdate/hebrew_date.py: validation, `replace`,
 * the year-0 aware comparisons, day addition by walking months, subtraction,
 * the Julian day number in both directions and the day of the week.
 *
 * A date whose year is 0 is a "relative" date that stands for the same day in
 * any year: validation does not check its month, and comparisons ignore years
 * as soon as one side has year 0.
 */
module HebrewDates {
  import opened CalendarMath
  import opened MonthOrdering
  import opened Wrappers

  datatype HebrewDate = HebrewDate(year: int, month: Month, day: int)

  /** The ways construction fails; the source raises ValueError for all three. */
  datatype DateError = NoSuchMonth | MonthNotInYear | DayOutOfRange

  datatype Result<T> = Ok(value: T) | Err(error: DateError)

  /** `_validate`: the month must belong to the year (unless the year is 0) and the day to the month. */
  function Validate(d: HebrewDate): (r: Result<HebrewDate>)
    ensures r.Ok? ==> r.value == d
  {
    if d.year != 0 && !MonthInYear(d.month, d.year) then Err(MonthNotInYear)
    else if !(0 < d.day <= Days(d.month, d.year)) then Err(DayOutOfRange)
    else Ok(d)
  }

  predicate Valid(d: HebrewDate) {
    Validate(d).Ok?
  }

  /** `HebrewDate(year, month, day)` with the month given by its integer value. */
  function FromValues(year: int, monthValue: int, day: int): (r: Result<HebrewDate>)
    ensures r.Ok? <==> 1 <= monthValue <= 14 && Valid(HebrewDate(year, MonthOf(monthValue).value, day))
    ensures r.Ok? ==> r.value.year == year && Value(r.value.month) == monthValue && r.value.day == day
    ensures !(1 <= monthValue <= 14) ==> r == Err(NoSuchMonth)
  {
    match MonthOf(monthValue)
    case None => Err(NoSuchMonth)
    case Some(m) => Validate(HebrewDate(year, m, day))
  }

  /**
   * `replace(**kwargs)`: the copy with the given fields set. The validation
   * runs on the original date, so an invalid copy is returned unchecked.
   */
  function Replace(d: HebrewDate, year: Option<int>, month: Option<Month>, day: Option<int>): (r: Result<HebrewDate>)
    ensures r.Ok? <==> Valid(d)
    ensures !Valid(d) ==> r == Validate(d)
    ensures r.Ok? ==> && r.value.year == (if year.Some? then year.value else d.year)
                      && r.value.month == (if month.Some? then month.value else d.month)
                      && r.value.day == (if day.Some? then day.value else d.day)
  {
    var copy := HebrewDate(
      if year.Some? then year.value else d.year,
      if month.Some? then month.value else d.month,
      if day.Some? then day.value else d.day);
    match Validate(d)
    case Err(e) => Err(e)
    case Ok(_) => Ok(copy)
  }

  // ---------------------------------------------------------------------
  // Comparisons. `selfMode` and `otherMode` are the comparison modes carried
  // by the two dates' months.
  // ---------------------------------------------------------------------

  /** `(m1, d1) < (m2, d2)` as a Python tuple comparison. */
  predicate PairLess(m1: Month, d1: int, m2: Month, d2: int, selfMode: ComparisonMode, otherMode: ComparisonMode) {
    if !MonthEq(m1, m2, selfMode, otherMode) then MonthLt(m1, m2, selfMode, otherMode) else d1 < d2
  }

  predicate DateEq(a: HebrewDate, b: HebrewDate, selfMode: ComparisonMode, otherMode: ComparisonMode) {
    (a.year == 0 || b.year == 0 || a.year == b.year)
    && MonthEq(a.month, b.month, selfMode, otherMode) && a.day == b.day
  }

  predicate DateLt(a: HebrewDate, b: HebrewDate, selfMode: ComparisonMode, otherMode: ComparisonMode) {
    if a.year == 0 || b.year == 0 || a.year == b.year then
      PairLess(a.month, a.day, b.month, b.day, selfMode, otherMode)
    else a.year < b.year
  }

  predicate DateLe(a: HebrewDate, b: HebrewDate, selfMode: ComparisonMode, otherMode: ComparisonMode) {
    DateLt(a, b, selfMode, otherMode) || DateEq(a, b, selfMode, otherMode)
  }

  /** Lexicographic order on (year, calendar value of the month, day). */
  predicate LexLess(a: HebrewDate, b: HebrewDate) {
    a.year < b.year
    || (a.year == b.year && (Value(a.month) < Value(b.month)
                             || (a.month == b.month && a.day < b.day)))
  }

  // ---------------------------------------------------------------------
  // Julian day numbers
  // ---------------------------------------------------------------------

  /** The Julian day number of 1 Tishrei of `year`. */
  function NewYear(year: int): int {
    DaysFrom3744(year) + 1715119
  }

  /** The Julian day number `to_jdn` computes, for a month of the year. */
  function Jdn(d: HebrewDate): int
    requires MonthInYear(d.month, d.year)
  {
    DaysFrom3744(d.year) + DaysBeforeMonth(d.year, d.month) + d.day + 1715118
  }

  /**
   * `to_jdn`: walk the months from Tishrei, adding their lengths. The walk
   * ends only when it meets the date's month, so that month must belong to
   * the year (a relative date in Adar never gets there).
   */
  method ToJdn(d: HebrewDate) returns (jdn: int)
    requires MonthInYear(d.month, d.year)
    ensures jdn == Jdn(d)
  {
    var ms := InYear(d.year);
    var target := MonthIndex(d.year, d.month);
    var month := Tishrei;
    var day := DaysFrom3744(d.year);
    ghost var i := 0;
    while month != d.month
      invariant 0 <= i <= target
      invariant month == ms[i]
      invariant day == DaysFrom3744(d.year) + DaysBeforeMonth(d.year, month)
      decreases target - i
    {
      day := day + Days(month, d.year);
      DaysBeforeStep(d.year, i);
      NextMonthWalk(d.year, i);
      month := NextMonth(month, d.year);
      i := i + 1;
    }
    day := day + d.day;
    jdn := day + 1715118;
  }

  /** `dow`: the day of the week, 1 for Sunday through 7 for Saturday. */
  function Dow(d: HebrewDate): Weekday
    requires MonthInYear(d.month, d.year)
  {
    (Jdn(d) + 1) % 7 + 1
  }

  /** The operands of `-` on which its `to_jdn` calls come back. */
  predicate SubTerminates(a: HebrewDate, b: HebrewDate) {
    if a.year == 0 || b.year == 0 then
      var y := if a.year < b.year then b.year else a.year;
      !Valid(HebrewDate(y, a.month, a.day)) || !Valid(HebrewDate(y, b.month, b.day))
      || (MonthInYear(a.month, y) && MonthInYear(b.month, y))
    else MonthInYear(a.month, a.year) && MonthInYear(b.month, b.year)
  }

  /**
   * `a - b` in days. A relative date is first moved into the later of the two
   * years, through the constructor, so it can fail validation there.
   */
  function Sub(a: HebrewDate, b: HebrewDate): (r: Result<int>)
    requires SubTerminates(a, b)
    ensures a.year != 0 && b.year != 0 ==> r == Ok(Jdn(a) - Jdn(b))
  {
    if a.year == 0 || b.year == 0 then
      var y := if a.year < b.year then b.year else a.year;
      match Validate(HebrewDate(y, a.month, a.day))
      case Err(e) => Err(e)
      case Ok(localSelf) =>
        match Validate(HebrewDate(y, b.month, b.day))
        case Err(e) => Err(e)
        case Ok(localOther) => Ok(Jdn(localSelf) - Jdn(localOther))
    else Ok(Jdn(a) - Jdn(b))
  }

  // ---------------------------------------------------------------------
  // Addition
  // ---------------------------------------------------------------------

  /** Moving from the last day of a month to "day 0" of the next keeps the Julian day number. */
  lemma {:induction false} JdnAcrossMonth(y: int, m: Month)
    requires y != 0 && MonthInYear(m, y)
    ensures var next := NextMonth(m, y);
            var ny := if next == Tishrei then y + 1 else y;
            && MonthInYear(next, ny)
            && Jdn(HebrewDate(ny, next, 0)) == Jdn(HebrewDate(y, m, Days(m, y)))
  {
    var ms := InYear(y);
    var i := MonthIndex(y, m);
    NextMonthWalk(y, i);
    if i + 1 < |ms| {
      DaysBeforeStep(y, i);
      assert Value(ms[0]) < Value(ms[i + 1]);
    } else {
      MonthSum(y);
    }
  }

  /** One pass of the addition loop that moves to the next month keeps day number plus remaining days. */
  lemma {:induction false} MonthStep(cur: HebrewDate, days: int)
    requires cur.year >= 1 && MonthInYear(cur.month, cur.year)
    ensures var next := NextMonth(cur.month, cur.year);
            var moved := HebrewDate(if next == Tishrei then cur.year + 1 else cur.year, next, 0);
            && moved.year >= cur.year && MonthInYear(moved.month, moved.year)
            && Jdn(moved) + (days - (Days(cur.month, cur.year) - cur.day)) == Jdn(cur) + days
  {
    JdnAcrossMonth(cur.year, cur.month);
  }

  /**
   * `d + timedelta(days=n)`: copy the date through the constructor, then move
   * whole months forward until the remaining days fit in the current month.
   * A negative `n` fits at once and is added to the day without borrowing.
   */
  method Add(d: HebrewDate, n: int) returns (r: Result<HebrewDate>)
    ensures !Valid(d) ==> r == Validate(d)
    ensures Valid(d) && n <= Days(d.month, d.year) - d.day ==> r == Ok(d.(day := d.day + n))
    ensures Valid(d) && n >= 0 ==> r.Ok? && Valid(r.value)
    ensures Valid(d) && n >= 0 && d.year >= 1 ==>
              r.Ok? && r.value.year >= d.year && MonthInYear(r.value.month, r.value.year)
              && Jdn(r.value) == Jdn(d) + n
    ensures Valid(d) && d.year >= 1 ==> r.Ok? && SubTerminates(r.value, d) && Sub(r.value, d) == Ok(n)
  {
    var checked := Validate(d);
    if checked.Err? {
      return checked;
    }
    var moved := WalkDays(d, n);
    r := Ok(moved);
    if d.year >= 1 {
      SubOfDatedYears(moved, d);
    }
  }

  /** The month-walking loop of `+`, on a date that passed validation. */
  method WalkDays(d: HebrewDate, n: int) returns (cur: HebrewDate)
    requires Valid(d)
    ensures n <= Days(d.month, d.year) - d.day ==> cur == d.(day := d.day + n)
    ensures n >= 0 ==> Valid(cur)
    ensures d.year >= 1 ==> cur.year >= d.year && MonthInYear(cur.month, cur.year) && Jdn(cur) == Jdn(d) + n
  {
    cur := d;
    var days := n;
    while days != 0
      invariant 0 <= cur.day <= Days(cur.month, cur.year)
      invariant cur.year != 0 ==> MonthInYear(cur.month, cur.year)
      invariant days == n || days > 0
      invariant n <= Days(d.month, d.year) - d.day ==> cur == d && days == n
      invariant d.year >= 1 ==> cur.year >= d.year && Jdn(cur) + days == Jdn(d) + n
      decreases if days > 0 then days else 0, if cur.day == Days(cur.month, cur.year) then 1 else 0
    {
      var daysLeft := Days(cur.month, cur.year) - cur.day;
      if daysLeft >= days {
        cur := cur.(day := cur.day + days);
        break;
      }
      days := days - daysLeft;
      var next := NextMonth(cur.month, cur.year);
      if cur.year != 0 {
        NextMonthStaysInYear(cur.month, cur.year);
      }
      if d.year >= 1 {
        MonthStep(cur, days + daysLeft);
      }
      cur := HebrewDate(if next == Tishrei then cur.year + 1 else cur.year, next, 0);
    }
  }

  /** Between dates of real years, `-` is the difference of day numbers. */
  lemma SubOfDatedYears(a: HebrewDate, b: HebrewDate)
    requires a.year >= 1 && b.year >= 1 && MonthInYear(a.month, a.year) && MonthInYear(b.month, b.year)
    ensures SubTerminates(a, b) && Sub(a, b) == Ok(Jdn(a) - Jdn(b))
  {
  }

  // ---------------------------------------------------------------------
  // From a Julian day number back to a date
  // ---------------------------------------------------------------------

  /** New years come in increasing order. */
  lemma {:induction false} NewYearIncreasing(y1: int, y2: int)
    requires y1 <= y2
    ensures NewYear(y1) <= NewYear(y2)
    ensures y1 < y2 ==> NewYear(y1) < NewYear(y2)
    decreases y2 - y1
  {
    if y1 < y2 {
      NewYearStep(y2 - 1);
      NewYearIncreasing(y1, y2 - 1);
    }
  }

  /** Each year is at least 353 days long. */
  lemma NewYearStep(y: int)
    ensures NewYear(y) + 353 <= NewYear(y + 1)
  {
    YearSizeLegal(y);
  }

  /** `jdn` falls in Hebrew year `y`. */
  predicate InHebrewYear(jdn: int, y: int) {
    NewYear(y) <= jdn < NewYear(y + 1)
  }

  /** The year whose Rosh Hashana is the last one on or before `jdn`, searching upwards from `y`. */
  function YearFrom(jdn: int, y: int): (r: int)
    requires NewYear(y) <= jdn
    ensures y <= r && InHebrewYear(jdn, r)
    decreases jdn - NewYear(y)
  {
    NewYearStep(y);
    if jdn < NewYear(y + 1) then y
    else YearFrom(jdn, y + 1)
  }

  /** The date `offset` days after the first day of the `i`-th month of year `y`. */
  function Locate(y: int, offset: int, i: nat): (r: HebrewDate)
    requires y != 0 && i < |InYear(y)|
    requires 0 <= offset
    requires DaysBeforeMonth(y, InYear(y)[i]) + offset < YearSize(y)
    ensures r.year == y && Valid(r)
    ensures DaysBeforeMonth(y, r.month) + r.day == DaysBeforeMonth(y, InYear(y)[i]) + offset + 1
    decreases |InYear(y)| - i
  {
    var m := InYear(y)[i];
    if offset < Days(m, y) then HebrewDate(y, m, offset + 1)
    else
      MonthSum(y);
      assert i + 1 < |InYear(y)|;
      DaysBeforeStep(y, i);
      Locate(y, offset - Days(m, y), i + 1)
  }

  /** The date whose Julian day number is `jdn`, from year 1 on. */
  function DateOfJdn(jdn: int): (r: HebrewDate)
    requires NewYear(1) <= jdn
    ensures Valid(r) && r.year >= 1 && MonthInYear(r.month, r.year) && Jdn(r) == jdn
  {
    var y := YearFrom(jdn, 1);
    YearSizeLegal(y);
    Locate(y, jdn - NewYear(y), 0)
  }

  /** A valid date lies in its year: between its Rosh Hashana and the next. */
  lemma {:induction false} JdnWithinYear(d: HebrewDate)
    requires Valid(d) && d.year != 0
    ensures MonthInYear(d.month, d.year)
    ensures NewYear(d.year) <= Jdn(d) < NewYear(d.year + 1)
  {
    DaysBeforeBounds(d.year, d.month);
    MonthSum(d.year);
  }

  /** For valid dates from year 1 on, the day number orders dates as (year, month, day) does. */
  lemma {:induction false} JdnOrder(a: HebrewDate, b: HebrewDate)
    requires Valid(a) && Valid(b) && a.year >= 1 && b.year >= 1
    ensures MonthInYear(a.month, a.year) && MonthInYear(b.month, b.year)
    ensures LexLess(a, b) <==> Jdn(a) < Jdn(b)
    ensures Jdn(a) == Jdn(b) <==> a == b
  {
    JdnWithinYear(a);
    JdnWithinYear(b);
    LexLessImpliesJdnLess(a, b);
    LexLessImpliesJdnLess(b, a);
    ValueBijective(a.month, b.month);
  }

  lemma {:induction false} LexLessImpliesJdnLess(a: HebrewDate, b: HebrewDate)
    requires Valid(a) && Valid(b) && a.year >= 1 && b.year >= 1
    requires MonthInYear(a.month, a.year) && MonthInYear(b.month, b.year)
    ensures LexLess(a, b) ==> Jdn(a) < Jdn(b)
  {
    if a.year < b.year {
      JdnLessAcrossYears(a, b);
    } else if a.year == b.year && Value(a.month) < Value(b.month) {
      DaysBeforeMonotone(a.year, a.month, b.month);
    }
  }

  lemma {:induction false} JdnLessAcrossYears(a: HebrewDate, b: HebrewDate)
    requires Valid(a) && Valid(b) && 1 <= a.year < b.year
    ensures MonthInYear(a.month, a.year) && MonthInYear(b.month, b.year)
    ensures Jdn(a) < Jdn(b)
  {
    JdnWithinYear(a);
    JdnWithinYear(b);
    NewYearIncreasing(a.year + 1, b.year);
    assert Jdn(a) < NewYear(a.year + 1);
    assert NewYear(a.year + 1) <= NewYear(b.year);
    assert NewYear(b.year) <= Jdn(b);
  }

  /**
   * `from_jdn`: guess the year from the Gregorian year, move to the next year
   * if its Rosh Hashana has already passed, and add the remaining days to the
   * Rosh Hashana found. `guess` stands for the Gregorian year plus 3760, which
   * brackets the date between two Rosh Hashanas.
   */
  method FromJdn(jdn: int, guess: int) returns (r: HebrewDate)
    requires guess >= 1
    requires NewYear(guess) <= jdn < NewYear(guess + 2)
    ensures Valid(r) && MonthInYear(r.month, r.year) && Jdn(r) == jdn
    ensures NewYear(1) <= jdn && r == DateOfJdn(jdn)
  {
    var roshHashana := HebrewDate(guess, Tishrei, 1);
    var nextNewYear := ToJdn(HebrewDate(guess + 1, Tishrei, 1));
    if nextNewYear <= jdn {
      roshHashana := HebrewDate(guess + 1, Tishrei, 1);
    }
    var start := ToJdn(roshHashana);
    var shifted := Add(roshHashana, jdn - start);
    r := shifted.value;
    NewYearIncreasing(1, guess);
    JdnOrder(r, DateOfJdn(jdn));
  }

  /** From year 1 on, `DateOfJdn` undoes `Jdn`. */
  lemma {:induction false} DateOfJdnInverse(d: HebrewDate)
    requires Valid(d) && d.year >= 1
    ensures MonthInYear(d.month, d.year) && NewYear(1) <= Jdn(d)
    ensures DateOfJdn(Jdn(d)) == d
  {
    JdnWithinYear(d);
    NewYearIncreasing(1, d.year);
    JdnOrder(d, DateOfJdn(Jdn(d)));
  }

  // ---------------------------------------------------------------------
  // Properties of the date type
  // ---------------------------------------------------------------------

  /**
   * What validation accepts: a month of `in_year` (any month at all in year
   * 0) and a day from 1 to the month's length; each failure has its reason.
   */
  lemma ValidationMeaning(d: HebrewDate)
    ensures Valid(d) <==> (d.year == 0 || d.month in InYear(d.year)) && 1 <= d.day <= Days(d.month, d.year)
    ensures d.year != 0 && d.month !in InYear(d.year) ==> Validate(d) == Err(MonthNotInYear)
    ensures (d.year == 0 || d.month in InYear(d.year)) && !(1 <= d.day <= Days(d.month, d.year)) ==>
              Validate(d) == Err(DayOutOfRange)
  {
    InYearMembers(d.year, d.month);
  }

  /** With at least one relative date, `==` and `<` look only at (month, day); otherwise at the year first. */
  lemma RelativeComparison(a: HebrewDate, b: HebrewDate, selfMode: ComparisonMode, otherMode: ComparisonMode)
    ensures a.year == 0 || b.year == 0 ==>
              && (DateEq(a, b, selfMode, otherMode) <==> DateEq(a.(year := 0), b.(year := 0), selfMode, otherMode))
              && (DateLt(a, b, selfMode, otherMode) <==> DateLt(a.(year := 0), b.(year := 0), selfMode, otherMode))
    ensures a.year != b.year && a.year != 0 && b.year != 0 ==>
              !DateEq(a, b, selfMode, otherMode) && (DateLt(a, b, selfMode, otherMode) <==> a.year < b.year)
  {
  }

  /** In the strict mode, between dates of real years, `<` is the (year, month, day) order and `==` equality. */
  lemma {:induction false} StrictComparison(a: HebrewDate, b: HebrewDate)
    requires a.year != 0 && b.year != 0
    ensures DateLt(a, b, Strict, Strict) <==> LexLess(a, b)
    ensures DateEq(a, b, Strict, Strict) <==> a == b
    ensures DateLe(a, b, Strict, Strict) <==> LexLess(a, b) || a == b
  {
    StrictOrder(a.month, b.month);
    ValueBijective(a.month, b.month);
  }

  /** For valid dates from year 1 on, `<` in the strict mode agrees with the Julian day numbers. */
  lemma {:induction false} ComparisonAgreesWithJdn(a: HebrewDate, b: HebrewDate)
    requires Valid(a) && Valid(b) && a.year >= 1 && b.year >= 1
    ensures MonthInYear(a.month, a.year) && MonthInYear(b.month, b.year)
    ensures DateLt(a, b, Strict, Strict) <==> Jdn(a) < Jdn(b)
    ensures DateEq(a, b, Strict, Strict) <==> Jdn(a) == Jdn(b)
  {
    StrictComparison(a, b);
    JdnOrder(a, b);
  }

  /**
   * Rosh Hashana is never on Sunday, Wednesday or Friday; a leap year that
   * begins on Tuesday is never 385 days long; and the year's length is the
   * distance between its Rosh Hashana and the next.
   */
  lemma {:induction false} RoshHashanaWeekday(y: int)
    ensures MonthInYear(Tishrei, y) && MonthInYear(Tishrei, y + 1)
    ensures Dow(HebrewDate(y, Tishrei, 1)) in {Monday, Tuesday, Thursday, Saturday}
    ensures IsLeapYear(y) && Dow(HebrewDate(y, Tishrei, 1)) == Tuesday ==> YearSize(y) != 385
    ensures Jdn(HebrewDate(y + 1, Tishrei, 1)) - Jdn(HebrewDate(y, Tishrei, 1)) == YearSize(y)
  {
    var rh := HebrewDate(y, Tishrei, 1);
    assert Jdn(rh) + 1 == DaysFrom3744(y) + 1715120;
    NewYearWeekday(y);
    YearSizeShape(y);
  }

  /** 15 Nisan lies `year_size - 163` days after 1 Tishrei of the same year. */
  lemma {:induction false} PesachOffset(y: int)
    requires y != 0
    ensures MonthInYear(Nisan, y)
    ensures Jdn(HebrewDate(y, Nisan, 15)) - NewYear(y) == YearSize(y) - 163
  {
    MonthSum(y);
  }

  /** `-` on dates of real years is antisymmetric, and zero exactly between equal valid dates. */
  lemma {:induction false} SubAntisymmetric(a: HebrewDate, b: HebrewDate)
    requires a.year >= 1 && b.year >= 1 && Valid(a) && Valid(b)
    ensures SubTerminates(a, b) && SubTerminates(b, a)
    ensures Sub(a, b).Ok? && Sub(b, a).Ok? && Sub(a, b).value == -Sub(b, a).value
    ensures Sub(a, b) == Ok(0) <==> a == b
  {
    JdnOrder(a, b);
    SubOfDatedYears(a, b);
    SubOfDatedYears(b, a);
  }

  /**
   * A relative date minus a dated one: the relative date is placed in the
   * other's year, where it may fail validation (Adar of a leap year, 30
   * Kislev of a deficient year); if it passes, the result is the day-number
   * difference there.
   */
  lemma {:induction false} SubRelative(a: HebrewDate, b: HebrewDate)
    requires a.year == 0 && b.year >= 1 && Valid(b)
    ensures SubTerminates(a, b)
    ensures Sub(a, b).Ok? <==> Valid(HebrewDate(b.year, a.month, a.day))
    ensures Sub(a, b).Ok? ==>
              && MonthInYear(a.month, b.year)
              && Sub(a, b).value == Jdn(HebrewDate(b.year, a.month, a.day)) - Jdn(b)
  {
    JdnWithinYear(b);
    assert Validate(HebrewDate(b.year, b.month, b.day)) == Ok(b);
  }

  /**
   * A dated date minus a relative one: the relative date is placed in the
   * first date's year, where it may fail validation.
   */
  lemma {:induction false} SubFromRelative(a: HebrewDate, b: HebrewDate)
    requires a.year >= 1 && Valid(a) && b.year == 0
    ensures SubTerminates(a, b)
    ensures Sub(a, b).Ok? <==> Valid(HebrewDate(a.year, b.month, b.day))
    ensures Sub(a, b).Ok? ==>
              && MonthInYear(b.month, a.year)
              && Sub(a, b).value == Jdn(a) - Jdn(HebrewDate(a.year, b.month, b.day))
  {
    JdnWithinYear(a);
    assert Validate(HebrewDate(a.year, a.month, a.day)) == Ok(a);
  }

  /**
   * Two relative dates are both taken in year 0: the difference is defined
   * exactly when both are valid there, and the first one's error wins. As
   * for `Sub`, `to_jdn` must end, so valid months must belong to year 0.
   */
  lemma {:induction false} SubBothRelative(a: HebrewDate, b: HebrewDate)
    requires a.year == 0 && b.year == 0 && SubTerminates(a, b)
    ensures Sub(a, b).Ok? <==> Valid(a) && Valid(b)
    ensures !Valid(a) ==> Sub(a, b) == Err(Validate(a).error)
    ensures Sub(a, b).Ok? ==> Sub(a, b).value == Jdn(a) - Jdn(b)
  {
    assert HebrewDate(0, a.month, a.day) == a;
    assert HebrewDate(0, b.month, b.day) == b;
  }
}
