/**
 * hdate/date.py: the `HDate` object, its week-day and Shabbat navigation,
 * the walks to the first and last day of a run of Shabbat and Yom Tov, and
 * the choice of the weekly reading (`get_reading`).
 *
 * A Gregorian date stands for its Julian day number: `datetime.date`'s
 * `weekday()` (Monday is 0) is then the day number mod 7, since day 0 of the
 * count is a Monday. Whether a day is Yom Tov is decided by the holiday
 * database, which is a parameter here (`isYomTov`).
 */
module HDates {
  import opened CalendarMath
  import opened MonthOrdering
  import opened HebrewDates
  import opened ParashaTable

  /** Julian day numbers of 1 January of year 1 and 31 December of year 9999, `datetime.date`'s range. */
  const FirstGregorianDay := 1721426
  const LastGregorianDay := 5373484

  /** A day `datetime.date` can hold, by its Julian day number. */
  predicate IsGregorianDay(jdn: int) {
    FirstGregorianDay <= jdn <= LastGregorianDay
  }

  /** Every Gregorian day lies after the first Rosh Hashana, so it has a Hebrew date. */
  lemma FirstNewYearBeforeGregorian()
    ensures NewYear(1) == 347998 && NewYear(1) < FirstGregorianDay
  {
    ConstantsAgree();
    assert (-3743 * 7 + 1) / 19 == -1379 && (-3743 * 7 + 1) % 19 == 1;
    assert -46295 * PartsInMonth + 8339 == -1836653196;
    assert -1836653196 / PartsInDay == -70859 && -1836653196 % PartsInDay == 12084;
    assert -1836653196 % PartsInWeek == 63924 && 63924 / PartsInDay == 2;
  }

  // ---------------------------------------------------------------------
  // Week-days
  // ---------------------------------------------------------------------

  /** `datetime.date.weekday()`: Monday is 0 and Sunday is 6. */
  function PyWeekday(jdn: int): int {
    jdn % 7
  }

  /** `HDate.dow`: Python's week-day moved to the source's numbering, Sunday 1 to Saturday 7. */
  function DowOfWeekday(w: int): (dow: Weekday)
    requires 0 <= w < 7
    ensures dow == (w + 1) % 7 + 1
  {
    if w != 6 then w + 2 else 1
  }

  /** `HDate.dow` and `HebrewDate.dow` agree on every date. */
  lemma DowAgrees(d: HebrewDate)
    requires MonthInYear(d.month, d.year)
    ensures DowOfWeekday(PyWeekday(Jdn(d))) == Dow(d)
  {
    ModSevenShift(Jdn(d), 1);
  }

  /** `is_shabbat`: the Gregorian day is a Saturday. */
  predicate IsShabbat(jdn: int) {
    PyWeekday(jdn) == 5
  }

  /** A date is Shabbat exactly when `HebrewDate.dow` calls it Saturday. */
  lemma ShabbatIsSaturday(d: HebrewDate)
    requires MonthInYear(d.month, d.year)
    ensures IsShabbat(Jdn(d)) <==> Dow(d) == Saturday
  {
    DowAgrees(d);
  }

  /**
   * `upcoming_shabbat`: the day itself on Shabbat, otherwise the Saturday
   * `(12 - weekday) % 7` days on; that is the first Shabbat from the day on.
   */
  function UpcomingShabbat(jdn: int): (sat: int)
    ensures IsShabbat(sat) && jdn <= sat < jdn + 7
    ensures forall k :: jdn <= k < sat ==> !IsShabbat(k)
    ensures sat == jdn <==> IsShabbat(jdn)
  {
    if IsShabbat(jdn) then jdn
    else
      ShabbatAhead(jdn);
      jdn + (12 - PyWeekday(jdn)) % 7
  }

  /** From a weekday, `(12 - weekday) % 7` days on is the first Saturday. */
  lemma ShabbatAhead(jdn: int)
    requires !IsShabbat(jdn)
    ensures IsShabbat(jdn + (12 - PyWeekday(jdn)) % 7)
    ensures forall k :: jdn <= k < jdn + (12 - PyWeekday(jdn)) % 7 ==> !IsShabbat(k)
  {
    var step := (12 - PyWeekday(jdn)) % 7;
    forall k | jdn <= k < jdn + step
      ensures !IsShabbat(k)
    {
      ModSevenShift(jdn, k - jdn);
    }
    ModSevenShift(jdn, step);
  }

  // ---------------------------------------------------------------------
  // Shabbat and Yom Tov
  // ---------------------------------------------------------------------

  /** A day on which work is forbidden: Yom Tov or Shabbat. */
  predicate DayOff(isYomTov: int -> bool, jdn: int) {
    isYomTov(jdn) || IsShabbat(jdn)
  }

  /**
   * `upcoming_shabbat_or_yom_tov`: the day itself when it is Shabbat or Yom
   * Tov, otherwise the earlier of the next Yom Tov (`nextYomTov`, which the
   * holiday database finds) and the coming Shabbat. The result is the first
   * such day from the day on.
   */
  function UpcomingShabbatOrYomTov(jdn: int, isYomTov: int -> bool, nextYomTov: int): (r: int)
    requires !DayOff(isYomTov, jdn) ==>
             jdn < nextYomTov && isYomTov(nextYomTov) && forall k :: jdn < k < nextYomTov ==> !isYomTov(k)
    ensures jdn <= r && DayOff(isYomTov, r)
    ensures forall k :: jdn <= k < r ==> !DayOff(isYomTov, k)
  {
    if DayOff(isYomTov, jdn) then jdn
    else if nextYomTov < UpcomingShabbat(jdn) then nextYomTov
    else UpcomingShabbat(jdn)
  }

  /**
   * `first_day`: walk back while the previous day is Yom Tov or Shabbat.
   * The walk ends because some earlier day is neither.
   */
  method FirstDay(jdn: int, isYomTov: int -> bool) returns (first: int)
    requires exists stop :: stop < jdn && !DayOff(isYomTov, stop)
    ensures first <= jdn && !DayOff(isYomTov, first - 1)
    ensures forall k :: first <= k < jdn ==> DayOff(isYomTov, k)
    ensures first == jdn <==> !DayOff(isYomTov, jdn - 1)
  {
    ghost var stop :| stop < jdn && !DayOff(isYomTov, stop);
    first := jdn;
    while DayOff(isYomTov, first - 1)
      invariant stop < first <= jdn
      invariant forall k :: first <= k < jdn ==> DayOff(isYomTov, k)
      decreases first - stop
    {
      first := first - 1;
    }
  }

  /**
   * `last_day`: walk on while the next day is Yom Tov or Shabbat. The walk
   * ends because some later day is neither.
   */
  method LastDay(jdn: int, isYomTov: int -> bool) returns (last: int)
    requires exists stop :: stop > jdn && !DayOff(isYomTov, stop)
    ensures jdn <= last && !DayOff(isYomTov, last + 1)
    ensures forall k :: jdn < k <= last ==> DayOff(isYomTov, k)
    ensures last == jdn <==> !DayOff(isYomTov, jdn + 1)
  {
    ghost var stop :| stop > jdn && !DayOff(isYomTov, stop);
    last := jdn;
    while DayOff(isYomTov, last + 1)
      invariant jdn <= last < stop
      invariant forall k :: jdn < k <= last ==> DayOff(isYomTov, k)
      decreases stop - last
    {
      last := last + 1;
    }
  }

  /**
   * `first_day` as its docstring describes it: a day that is neither Yom
   * Tov nor Shabbat is its own answer; otherwise the walk back runs.
   */
  method FirstDayAsDocumented(jdn: int, isYomTov: int -> bool) returns (first: int)
    requires DayOff(isYomTov, jdn) ==> exists stop :: stop < jdn && !DayOff(isYomTov, stop)
    ensures !DayOff(isYomTov, jdn) ==> first == jdn
    ensures DayOff(isYomTov, jdn) ==>
              && first <= jdn && !DayOff(isYomTov, first - 1)
              && forall k :: first <= k <= jdn ==> DayOff(isYomTov, k)
  {
    if !DayOff(isYomTov, jdn) {
      return jdn;
    }
    first := FirstDay(jdn, isYomTov);
  }

  /**
   * `last_day` as its docstring describes it: a day that is neither Yom
   * Tov nor Shabbat is its own answer; otherwise the walk on runs.
   */
  method LastDayAsDocumented(jdn: int, isYomTov: int -> bool) returns (last: int)
    requires DayOff(isYomTov, jdn) ==> exists stop :: stop > jdn && !DayOff(isYomTov, stop)
    ensures !DayOff(isYomTov, jdn) ==> last == jdn
    ensures DayOff(isYomTov, jdn) ==>
              && jdn <= last && !DayOff(isYomTov, last + 1)
              && forall k :: jdn <= k <= last ==> DayOff(isYomTov, k)
  {
    if !DayOff(isYomTov, jdn) {
      return jdn;
    }
    last := LastDay(jdn, isYomTov);
  }

  /**
   * The day after a Shabbat and the day before one: as written, `first_day`
   * of such a Sunday and `last_day` of such a Friday leave the day for the
   * Saturday, even when the day itself is no Yom Tov.
   */
  lemma ShabbatNeighbours(jdn: int)
    ensures IsShabbat(jdn - 1) <==> PyWeekday(jdn) == 6
    ensures IsShabbat(jdn + 1) <==> PyWeekday(jdn) == 4
    ensures PyWeekday(jdn) == 6 || PyWeekday(jdn) == 4 ==> !IsShabbat(jdn)
  {
  }

  // ---------------------------------------------------------------------
  // The HDate object
  // ---------------------------------------------------------------------

  /** `_last_updated`: "", "hdate" or "gdate". */
  datatype Updated = Neither | HebrewSide | GregorianSide

  /**
   * An `HDate`: the Gregorian date `gdate` and the Hebrew date `hdate` it
   * was last given, and which of the two was set last; the other one is
   * computed from it when read.
   */
  class HDate {
    var gdate: int
    var hdate: HebrewDate
    var lastUpdated: Updated
    var diaspora: bool

    /** The field set last holds a date the other can be computed from. */
    predicate Invariant()
      reads this
    {
      && lastUpdated != Neither
      && (lastUpdated == HebrewSide ==> Valid(hdate) && hdate.year >= 1)
      && (lastUpdated == GregorianSide ==> IsGregorianDay(gdate))
    }

    /** `HDate(date, diaspora)` with a Gregorian date. */
    constructor FromGregorian(jdn: int, inDiaspora: bool)
      requires IsGregorianDay(jdn)
      ensures Invariant() && lastUpdated == GregorianSide
      ensures gdate == jdn && diaspora == inDiaspora
      ensures HebrewDateOf() == DateOfJdn(jdn)
    {
      FirstNewYearBeforeGregorian();
      gdate := jdn;
      lastUpdated := GregorianSide;
      hdate := DateOfJdn(jdn);
      diaspora := inDiaspora;
    }

    /** `HDate(date, diaspora)` with a Hebrew date. */
    constructor FromHebrew(d: HebrewDate, inDiaspora: bool)
      requires Valid(d) && d.year >= 1
      ensures Invariant() && lastUpdated == HebrewSide
      ensures hdate == d && diaspora == inDiaspora
      ensures GregorianDateOf() == Jdn(d)
    {
      JdnWithinYear(d);
      hdate := d;
      lastUpdated := HebrewSide;
      gdate := Jdn(d);
      diaspora := inDiaspora;
    }

    /** The `hdate` property: the stored date if it was set last, else the conversion of `gdate`. */
    function HebrewDateOf(): (d: HebrewDate)
      reads this
      requires Invariant()
      ensures Valid(d) && d.year >= 1
    {
      FirstNewYearBeforeGregorian();
      if lastUpdated == HebrewSide then hdate else DateOfJdn(gdate)
    }

    /** The `gdate` property: the stored day if it was set last, else the conversion of `hdate`. */
    function GregorianDateOf(): (jdn: int)
      reads this
      requires Invariant()
      ensures lastUpdated == GregorianSide ==> jdn == gdate
    {
      if lastUpdated == GregorianSide then gdate
      else
        JdnWithinYear(hdate);
        Jdn(hdate)
    }

    /** Whichever date was set last, the two properties name the same day. */
    lemma ViewsAgree()
      requires Invariant()
      ensures var d := HebrewDateOf();
              MonthInYear(d.month, d.year) && Jdn(d) == GregorianDateOf()
    {
      JdnWithinYear(HebrewDateOf());
    }

    /** The `hdate` setter: store the date and mark it as set last. */
    method SetHebrewDate(d: HebrewDate)
      requires Valid(d) && d.year >= 1
      modifies this
      ensures Invariant() && lastUpdated == HebrewSide
      ensures hdate == d && gdate == old(gdate) && diaspora == old(diaspora)
      ensures HebrewDateOf() == d
      ensures GregorianDateOf() == Jdn(d)
    {
      lastUpdated := HebrewSide;
      hdate := d;
    }

    /** The `gdate` setter: store the day and mark it as set last. */
    method SetGregorianDate(jdn: int)
      requires IsGregorianDay(jdn)
      modifies this
      ensures Invariant() && lastUpdated == GregorianSide
      ensures gdate == jdn && hdate == old(hdate) && diaspora == old(diaspora)
      ensures GregorianDateOf() == jdn
      ensures HebrewDateOf() == DateOfJdn(jdn)
    {
      lastUpdated := GregorianSide;
      gdate := jdn;
    }
  }

  /** Setting either date and reading both back gives the date and its conversion. */
  lemma SetThenRead(d: HebrewDate, jdn: int)
    requires Valid(d) && d.year >= 1 && IsGregorianDay(jdn)
    ensures MonthInYear(d.month, d.year) && NewYear(1) <= Jdn(d) && NewYear(1) <= jdn
    ensures DateOfJdn(Jdn(d)) == d && Jdn(DateOfJdn(jdn)) == jdn
  {
    DateOfJdnInverse(d);
    FirstNewYearBeforeGregorian();
  }

  // ---------------------------------------------------------------------
  // get_reading
  // ---------------------------------------------------------------------

  /** 1 Tishrei and 15 Nisan of `year`. */
  function RoshHashana(year: int): HebrewDate {
    HebrewDate(year, Tishrei, 1)
  }

  function Pesach(year: int): HebrewDate {
    HebrewDate(year, Nisan, 15)
  }

  /** The year type `get_reading` looks up in the parasha table. */
  function Signature(year: int, diaspora: bool): int {
    YearType(diaspora, Dow(RoshHashana(year)), YearSize(year), Dow(Pesach(year)))
  }

  /** Days since Rosh Hashana of the date's year. */
  function DaysSinceNewYear(d: HebrewDate): int
    requires MonthInYear(d.month, d.year)
  {
    Jdn(d) - Jdn(RoshHashana(d.year))
  }

  /** The week of the year the date falls in; weeks start on Sunday, week 0 holds Rosh Hashana. */
  function WeekIndex(d: HebrewDate): int
    requires MonthInYear(d.month, d.year)
  {
    (DaysSinceNewYear(d) + Dow(RoshHashana(d.year)) - 1) / 7
  }

  /**
   * The two Simchat Torah cases, in which the reading is Vezot Habracha:
   * week 3 up to day 21 (22 in the diaspora, unless Shabbat), and day 22 in
   * week 4 in the diaspora.
   */
  predicate SimchatTorah(days: int, weeks: int, diaspora: bool, dow: int) {
    || (weeks == 3 && ((days <= 22 && diaspora && dow != Saturday) || (days <= 21 && !diaspora)))
    || (weeks == 4 && days == 22 && diaspora)
  }

  /** What `get_reading` raises: `next` finds no item, or the index is past the readings. */
  datatype ReadingError = StopIteration | IndexError

  datatype ReadingResult = Reading(parasha: Parasha) | Failed(error: ReadingError)

  /**
   * `get_reading` of the `HDate` for `d` (its Gregorian day is `Jdn(d)`).
   * Past the readings of the year, when the coming Shabbat is already in
   * the next year, the reading is that Shabbat's; on Shabbat the coming
   * Shabbat is the day itself, so the recursion is one level deep.
   */
  function GetReading(d: HebrewDate, diaspora: bool): (r: ReadingResult)
    requires Valid(d) && d.year >= 1
    decreases if IsShabbat(Jdn(d)) then 0 else 1, 1
  {
    DaysSinceNewYearBounds(d);
    if SimchatTorah(DaysSinceNewYear(d), WeekIndex(d), diaspora, DowOfWeekday(PyWeekday(Jdn(d)))) then
      Reading(VezotHabracha)
    else
      match ReadingsFor(Signature(d.year, diaspora))
      case None => Failed(StopIteration)
      case Some(readings) => ReadingOfWeek(d, diaspora, readings)
  }

  /**
   * The end of `get_reading`, once the year's readings are found: the
   * week's reading, or the coming Shabbat's when the week is past the
   * readings and that Shabbat is in a later year.
   */
  function ReadingOfWeek(d: HebrewDate, diaspora: bool, readings: seq<Parasha>): (r: ReadingResult)
    requires Valid(d) && d.year >= 1
    decreases if IsShabbat(Jdn(d)) then 0 else 1, 0
  {
    DaysSinceNewYearBounds(d);
    DateOfJdnInverse(d);
    NewYearIncreasing(1, d.year);
    JdnWithinYear(d);
    var shabbat := UpcomingShabbat(Jdn(d));
    if WeekIndex(d) >= |readings| && d.year < DateOfJdn(shabbat).year then
      GetReading(DateOfJdn(shabbat), diaspora)
    else if WeekIndex(d) < |readings| then Reading(readings[WeekIndex(d)])
    else Failed(IndexError)
  }

  /** The number of Shabbatot in `year`, by its length and its Rosh Hashana week-day. */
  function ShabbatotIn(year: int): int
    requires year != 0
  {
    (YearSize(year) - 8 + Dow(RoshHashana(year))) / 7 + 1
  }

  /**
   * Every year's signature is listed in the parasha table, and the item
   * found holds one reading for each Shabbat of the year.
   */
  lemma SignatureListed(year: int, diaspora: bool)
    requires year != 0
    ensures ReadingsFor(Signature(year, diaspora)).Some?
    ensures |ReadingsFor(Signature(year, diaspora)).value| == ShabbatotIn(year)
  {
    var dow := Dow(RoshHashana(year));
    var size := YearSize(year);
    RoshHashanaKind(year);
    PesachWeekday(year);
    assert Signature(year, diaspora) == YearType(diaspora, dow, size, (dow - 1 + size - 163) % 7 + 1);
    ReadingsForEveryKind(diaspora, dow, size);
  }

  /** The week-day of Rosh Hashana and the length of the year form one of the fourteen kinds. */
  lemma RoshHashanaKind(year: int)
    ensures IsYearKind(Dow(RoshHashana(year)), YearSize(year))
  {
    RoshHashanaWeekday(year);
    CalendarMath.YearKinds(year);
    assert Jdn(RoshHashana(year)) + 1 == DaysFrom3744(year) + 1715120;
  }

  /** 15 Nisan falls `year_size - 163` days after Rosh Hashana, which fixes its week-day. */
  lemma PesachWeekday(year: int)
    requires year != 0
    ensures Dow(Pesach(year)) == (Dow(RoshHashana(year)) - 1 + YearSize(year) - 163) % 7 + 1
  {
    var rh := RoshHashana(year);
    PesachOffset(year);
    assert Jdn(Pesach(year)) + 1 == (Jdn(rh) + 1) + (YearSize(year) - 163);
    ModSevenShift(Jdn(rh) + 1, YearSize(year) - 163);
  }

  /** The week count is aligned with the week-day: it steps up from Saturday to Sunday. */
  lemma WeekPosition(d: HebrewDate)
    requires MonthInYear(d.month, d.year)
    ensures (DaysSinceNewYear(d) + Dow(RoshHashana(d.year)) - 1) % 7 == Dow(d) - 1
  {
    var j := Jdn(d);
    var r := Jdn(RoshHashana(d.year));
    assert DaysSinceNewYear(d) == j - r;
    assert Dow(RoshHashana(d.year)) == (r + 1) % 7 + 1 && Dow(d) == (j + 1) % 7 + 1;
    ModSevenShift(r + 1, j - r);
  }

  /** A valid date lies between 0 and `year_size - 1` days after its Rosh Hashana. */
  lemma DaysSinceNewYearBounds(d: HebrewDate)
    requires Valid(d) && d.year != 0
    ensures MonthInYear(d.month, d.year)
    ensures 0 <= DaysSinceNewYear(d) < YearSize(d.year)
  {
    JdnWithinYear(d);
    assert Jdn(RoshHashana(d.year)) == NewYear(d.year);
  }

  /** The week of a Saturday `days` into a year of `size` days is below the year's Shabbat count. */
  lemma SaturdayWeekBound(days: int, dow: int, size: int)
    requires 0 <= days < size && 1 <= dow <= 7 && (days + dow - 1) % 7 == 6
    ensures 0 <= (days + dow - 1) / 7 < (size - 8 + dow) / 7 + 1
  {
    var n := days + dow - 1;
    var m := size - 8 + dow;
    var q := n / 7;
    assert n == 7 * q + 6;
    assert 7 * q <= m;
    assert m == 7 * (m / 7) + m % 7;
    assert q <= m / 7;
  }

  /** Every Shabbat of a year has a reading: its week is below the number of Shabbatot. */
  lemma ShabbatWeekInRange(d: HebrewDate)
    requires Valid(d) && d.year >= 1
    ensures MonthInYear(d.month, d.year)
    ensures IsShabbat(Jdn(d)) ==> 0 <= WeekIndex(d) < ShabbatotIn(d.year)
  {
    DaysSinceNewYearBounds(d);
    if IsShabbat(Jdn(d)) {
      ShabbatIsSaturday(d);
      WeekPosition(d);
      var days := DaysSinceNewYear(d);
      var dow := Dow(RoshHashana(d.year));
      var size := YearSize(d.year);
      SaturdayWeekBound(days, dow, size);
      assert WeekIndex(d) == (days + dow - 1) / 7;
      assert ShabbatotIn(d.year) == (size - 8 + dow) / 7 + 1;
    }
  }

  /** On Shabbat `get_reading` never recurses: it reads the Shabbat's own week. */
  lemma ShabbatReading(d: HebrewDate, diaspora: bool)
    requires Valid(d) && d.year >= 1 && IsShabbat(Jdn(d))
    ensures MonthInYear(d.month, d.year) && ReadingsFor(Signature(d.year, diaspora)).Some?
    ensures 0 <= WeekIndex(d) < |ReadingsFor(Signature(d.year, diaspora)).value|
    ensures GetReading(d, diaspora) ==
            if SimchatTorah(DaysSinceNewYear(d), WeekIndex(d), diaspora, Saturday) then Reading(VezotHabracha)
            else Reading(ReadingsFor(Signature(d.year, diaspora)).value[WeekIndex(d)])
  {
    ShabbatWeekInRange(d);
    SignatureListed(d.year, diaspora);
    DowAgrees(d);
    ShabbatIsSaturday(d);
    DateOfJdnInverse(d);
    assert UpcomingShabbat(Jdn(d)) == Jdn(d);
    assert DateOfJdn(UpcomingShabbat(Jdn(d))).year == d.year;
    assert DowOfWeekday(PyWeekday(Jdn(d))) == Saturday;
  }

  /** The Hebrew year of a day number is the year whose Rosh Hashanas bracket it. */
  lemma YearOfDay(jdn: int, year: int)
    requires year >= 1 && NewYear(year) <= jdn
    ensures NewYear(1) <= jdn
    ensures DateOfJdn(jdn).year == year <==> jdn < NewYear(year + 1)
    ensures DateOfJdn(jdn).year > year <==> NewYear(year + 1) <= jdn
  {
    NewYearIncreasing(1, year);
    var d := DateOfJdn(jdn);
    JdnWithinYear(d);
    if d.year < year {
      NewYearIncreasing(d.year + 1, year);
    } else if d.year > year {
      NewYearIncreasing(year + 1, d.year);
    }
  }

  /**
   * Past the readings of its year a day is never Shabbat, its coming
   * Shabbat is in the next year, and `get_reading` gives that Shabbat's
   * reading.
   */
  lemma LateDaysReadNextYear(d: HebrewDate, diaspora: bool)
    requires Valid(d) && d.year >= 1
    requires MonthInYear(d.month, d.year) && WeekIndex(d) >= ShabbatotIn(d.year)
    ensures !IsShabbat(Jdn(d))
    ensures NewYear(1) <= UpcomingShabbat(Jdn(d))
    ensures DateOfJdn(UpcomingShabbat(Jdn(d))).year > d.year
    ensures !SimchatTorah(DaysSinceNewYear(d), WeekIndex(d), diaspora, Dow(d))
            ==> GetReading(d, diaspora) == GetReading(DateOfJdn(UpcomingShabbat(Jdn(d))), diaspora)
  {
    ShabbatWeekInRange(d);
    JdnWithinYear(d);
    RoshHashanaWeekday(d.year);
    var sat := UpcomingShabbat(Jdn(d));
    YearOfDay(sat, d.year);
    var s := DateOfJdn(sat);
    if s.year == d.year {
      SameWeekAsComingShabbat(d, s);
      ShabbatWeekInRange(s);
      assert false;
    }
    SignatureListed(d.year, diaspora);
    DowAgrees(d);
  }

  /** `get_reading` never raises: every date of a real year has a reading. */
  lemma GetReadingTotal(d: HebrewDate, diaspora: bool)
    requires Valid(d) && d.year >= 1
    ensures GetReading(d, diaspora).Reading?
  {
    JdnWithinYear(d);
    SignatureListed(d.year, diaspora);
    if IsShabbat(Jdn(d)) {
      ShabbatReading(d, diaspora);
    } else if WeekIndex(d) >= ShabbatotIn(d.year) {
      LateDaysReadNextYear(d, diaspora);
      var s := DateOfJdn(UpcomingShabbat(Jdn(d)));
      ShabbatReading(s, diaspora);
      DowAgrees(d);
    } else {
      DowAgrees(d);
    }
  }

  /**
   * A weekday reads the parasha of its coming Shabbat when that Shabbat is
   * in the same year and neither day is a Simchat Torah case.
   */
  lemma WeekdayReadsComingShabbat(d: HebrewDate, diaspora: bool)
    requires Valid(d) && d.year >= 1
    requires MonthInYear(d.month, d.year) && NewYear(1) <= UpcomingShabbat(Jdn(d))
    requires DateOfJdn(UpcomingShabbat(Jdn(d))).year == d.year
    requires var s := DateOfJdn(UpcomingShabbat(Jdn(d)));
             && !SimchatTorah(DaysSinceNewYear(d), WeekIndex(d), diaspora, Dow(d))
             && !SimchatTorah(DaysSinceNewYear(s), WeekIndex(s), diaspora, Saturday)
    ensures GetReading(d, diaspora) == GetReading(DateOfJdn(UpcomingShabbat(Jdn(d))), diaspora)
  {
    var s := DateOfJdn(UpcomingShabbat(Jdn(d)));
    SameWeekAsComingShabbat(d, s);
    ShabbatReading(s, diaspora);
    DowAgrees(d);
    DaysSinceNewYearBounds(d);
    assert WeekIndex(d) < |ReadingsFor(Signature(d.year, diaspora)).value|;
  }

  /** A day and its coming Shabbat in the same year share their week. */
  lemma SameWeekAsComingShabbat(d: HebrewDate, s: HebrewDate)
    requires MonthInYear(d.month, d.year) && MonthInYear(s.month, s.year) && s.year == d.year
    requires Jdn(s) == UpcomingShabbat(Jdn(d))
    ensures WeekIndex(s) == WeekIndex(d)
  {
    WeekPosition(d);
    WeekPosition(s);
    ShabbatIsSaturday(s);
    DowAgrees(d);
    var dow := Dow(RoshHashana(d.year));
    var n := DaysSinceNewYear(d) + dow - 1;
    var w := PyWeekday(Jdn(d));
    var step := Jdn(s) - Jdn(d);
    assert n % 7 == (w + 1) % 7;
    assert n % 7 + step == 6;
    assert DaysSinceNewYear(s) + dow - 1 == n + step;
    assert n + step == 7 * (n / 7) + 6;
  }
}
