/**
 * The holiday rows of hdate/htables.py: the `HOLIDAYS` table and the guard
 * factories its rows carry (`year_is_after`, `year_is_before`,
 * `move_if_not_on_dow`, `correct_adar`, `not_rosh_chodesh`,
 * `legal_month_length` and the inline Chanukah guard).
 *
 * A guard reads an `HDate`: its Hebrew date and the Python weekday
 * (Monday = 0) of its Gregorian date. The guards compare the date's month,
 * a hebrew_date.py `Months` member, with members of htables.py's own `Months`
 * enumeration; both are `IntEnum`s, so the comparison is by number, and the
 * two numberings differ from Nisan on. `Holds` evaluates each guard as
 * written; `HoldsCorrected` is the evaluation the rows evidently intend, and
 * `Matches` uses it.
 */
module HolidayTable {
  import opened CalendarMath
  import opened MonthOrdering
  import opened HebrewDates

  /** The number of htables.py's `Months` member (Nisan is 7, Adar I is 13). */
  function TableValue(m: Month): int {
    match m
    case Tishrei => 1 case Marcheshvan => 2 case Kislev => 3 case Tevet => 4
    case Shvat => 5 case Adar => 6 case Nisan => 7 case Iyyar => 8
    case Sivan => 9 case Tammuz => 10 case Av => 11 case Elul => 12
    case AdarI => 13 case AdarII => 14
  }

  /** `list(Months)` of htables.py, in its order. */
  const TableMonths: seq<Month> :=
    [Tishrei, Marcheshvan, Kislev, Tevet, Shvat, Adar, Nisan, Iyyar, Sivan, Tammuz, Av, Elul,
     AdarI, AdarII]

  datatype HolidayType =
    | NoHolidayType | YomTov | ErevYomTov | HolHamoed | MelachaPermittedHoliday | FastDay
    | ModernHoliday | MinorHoliday | MemorialDay | IsraelNationalHoliday | RoshChodesh

  /** The `israel_diaspora` field: "", "ISRAEL" or "DIASPORA". */
  datatype Scope = Anywhere | IsraelOnly | DiasporaOnly

  /**
   * The arguments of `move_if_not_on_dow`: observe on day `original` unless
   * its weekday is `dowNotOrig`, and on day `replacement` when its weekday is
   * `dowReplacement`.
   */
  datatype Move = Move(original: int, replacement: int, dowNotOrig: int, dowReplacement: int)

  datatype Guard =
    | YearIsAfter(year: int)
    | YearIsBefore(year: int)
    | MoveIfNotOnDow(move: Move)
    // `move_if_not_on_dow(...) or move_if_not_on_dow(...) [or ...]`, written in a row
    | EitherMove(first: Move, others: seq<Move>)
    | CorrectAdar
    | NotRoshChodesh
    | LegalMonthLength
    // the inline guard of the Tevet row of Chanukah
    | ChanukahTevet

  /** A row of `HOLIDAYS`; a single day or month of the row is a list of one. */
  datatype Holiday = Holiday(
    kind: HolidayType, name: string, days: seq<int>, months: seq<Month>, scope: Scope,
    guards: seq<Guard>)

  /** What a guard reads from an `HDate`. */
  datatype DateView = DateView(date: HebrewDate, weekday: int)

  /** The view of a Hebrew date whose Gregorian date has Julian day number `Jdn(d)`. */
  function ViewOf(d: HebrewDate): (v: DateView)
    requires MonthInYear(d.month, d.year)
    ensures v.date == d && 0 <= v.weekday < 7
    ensures (v.weekday + 1) % 7 + 1 == Dow(d)
  {
    DateView(d, Jdn(d) % 7)
  }

  // ---------------------------------------------------------------------
  // Guards
  // ---------------------------------------------------------------------

  /** The lambda `move_if_not_on_dow` returns. */
  predicate MoveHolds(m: Move, v: DateView) {
    || (v.date.day == m.original && v.weekday != m.dowNotOrig)
    || (v.date.day == m.replacement && v.weekday == m.dowReplacement)
  }

  /**
   * `correct_adar`, comparing the month with htables.py's numbers. This
   * takes the guard's date to carry a hebrew_date.py month, whose equality
   * compares numbers, and a leap-year flag that is true in leap years.
   */
  predicate CorrectAdarAsWritten(v: DateView) {
    var month := Value(v.date.month);
    var leap := IsLeapYear(v.date.year);
    || month !in {TableValue(Adar), TableValue(AdarI), TableValue(AdarII)}
    || (month == TableValue(Adar) && !leap)
    || (month in {TableValue(AdarI), TableValue(AdarII)} && leap)
  }

  /** `not_rosh_chodesh`, comparing the month with htables.py's numbers. */
  predicate NotRoshChodeshAsWritten(v: DateView) {
    !(Value(v.date.month) == TableValue(Tishrei) && v.date.day == 1)
  }

  /** `legal_month_length`, comparing the month with htables.py's numbers. */
  predicate LegalMonthLengthAsWritten(v: DateView) {
    var month := Value(v.date.month);
    var day := v.date.day;
    var year := v.date.year;
    || day == 29
    || (day == 30 && month in {TableValue(Tishrei), TableValue(Shvat), TableValue(AdarI),
                               TableValue(Nisan), TableValue(Sivan), TableValue(Av)})
    || (day == 30 && LongCheshvan(year) && month == TableValue(Marcheshvan))
    || (day == 30 && !ShortKislev(year) && month == TableValue(Kislev))
  }

  /**
   * A guard as the row evaluates it. Python's `f or g` on two functions is
   * `f`, so an `EitherMove` guard is its first move alone.
   */
  predicate Holds(g: Guard, v: DateView) {
    match g
    case YearIsAfter(year) => v.date.year > year
    case YearIsBefore(year) => v.date.year < year
    case MoveIfNotOnDow(m) => MoveHolds(m, v)
    case EitherMove(first, _) => MoveHolds(first, v)
    case CorrectAdar => CorrectAdarAsWritten(v)
    case NotRoshChodesh => NotRoshChodeshAsWritten(v)
    case LegalMonthLength => LegalMonthLengthAsWritten(v)
    case ChanukahTevet => (ShortKislev(v.date.year) && v.date.day == 3) || v.date.day in {1, 2}
  }

  /**
   * Several moves of one observance: the original day unless its weekday is
   * one that some move avoids, or a move's replacement day on that move's
   * weekday.
   */
  predicate MovesHold(moves: seq<Move>, v: DateView) {
    || (|moves| > 0 && v.date.day == moves[0].original
        && forall k :: 0 <= k < |moves| ==> v.weekday != moves[k].dowNotOrig)
    || (exists k :: 0 <= k < |moves| && v.date.day == moves[k].replacement
                    && v.weekday == moves[k].dowReplacement)
  }

  /**
   * A guard as the rows intend it: months compared by name, and the moves of
   * an `EitherMove` combined.
   */
  predicate HoldsCorrected(g: Guard, v: DateView) {
    var month := v.date.month;
    var day := v.date.day;
    var year := v.date.year;
    match g
    case EitherMove(first, others) => MovesHold([first] + others, v)
    case CorrectAdar =>
      || month !in {Adar, AdarI, AdarII}
      || (month == Adar && !IsLeapYear(year))
      || (month in {AdarI, AdarII} && IsLeapYear(year))
    case NotRoshChodesh => !(month == Tishrei && day == 1)
    case LegalMonthLength =>
      || day == 29
      || (day == 30 && month in {Tishrei, Shvat, AdarI, Nisan, Sivan, Av})
      || (day == 30 && LongCheshvan(year) && month == Marcheshvan)
      || (day == 30 && !ShortKislev(year) && month == Kislev)
    case _ => Holds(g, v)
  }

  /** The row's scope admits the caller's `diaspora` flag. */
  predicate InScope(s: Scope, diaspora: bool) {
    match s
    case Anywhere => true
    case IsraelOnly => !diaspora
    case DiasporaOnly => diaspora
  }

  /**
   * A row matches a date when the date's day and month are in its pattern,
   * its scope admits the flag, and every guard holds.
   */
  predicate Matches(h: Holiday, v: DateView, diaspora: bool) {
    && v.date.day in h.days && v.date.month in h.months && InScope(h.scope, diaspora)
    && forall g :: g in h.guards ==> HoldsCorrected(g, v)
  }

  /**
   * `Matches` with the guards as written. The month pattern is still
   * compared by name: that comparison belongs to the holiday lookup, not
   * to the guards.
   */
  predicate MatchesAsWritten(h: Holiday, v: DateView, diaspora: bool) {
    && v.date.day in h.days && v.date.month in h.months && InScope(h.scope, diaspora)
    && forall g :: g in h.guards ==> Holds(g, v)
  }

  // ---------------------------------------------------------------------
  // HOLIDAYS
  // ---------------------------------------------------------------------

  /** The number of rows of `HOLIDAYS`. */
  const HolidayCount := 48

  /** Row `i` of `HOLIDAYS`. */
  function HolidayAt(i: int): Holiday
    requires 0 <= i < HolidayCount
  {
    match i
    case 0 => Holiday(NoHolidayType, "", [], [], Anywhere, [])
    case 1 => Holiday(ErevYomTov, "erev_rosh_hashana", [29], [Elul], Anywhere, [])
    case 2 => Holiday(YomTov, "rosh_hashana_i", [1], [Tishrei], Anywhere, [])
    case 3 => Holiday(YomTov, "rosh_hashana_ii", [2], [Tishrei], Anywhere, [])
    case 4 => Holiday(FastDay, "tzom_gedaliah", [3, 4], [Tishrei], Anywhere,
        [MoveIfNotOnDow(Move(3, 4, 5, 6))])
    case 5 => Holiday(ErevYomTov, "erev_yom_kippur", [9], [Tishrei], Anywhere, [])
    case 6 => Holiday(YomTov, "yom_kippur", [10], [Tishrei], Anywhere, [])
    case 7 => Holiday(ErevYomTov, "erev_sukkot", [14], [Tishrei], Anywhere, [])
    case 8 => Holiday(YomTov, "sukkot", [15], [Tishrei], Anywhere, [])
    case 9 => Holiday(HolHamoed, "hol_hamoed_sukkot", [16], [Tishrei], IsraelOnly, [])
    case 10 => Holiday(HolHamoed, "hol_hamoed_sukkot", [17, 18, 19, 20], [Tishrei], Anywhere, [])
    case 11 => Holiday(ErevYomTov, "hoshana_raba", [21], [Tishrei], Anywhere, [])
    case 12 => Holiday(YomTov, "simchat_torah", [23], [Tishrei], DiasporaOnly, [])
    case 13 => Holiday(MelachaPermittedHoliday, "chanukah", [25, 26, 27, 28, 29, 30], [Kislev],
        Anywhere, [])
    case 14 => Holiday(MelachaPermittedHoliday, "chanukah", [1, 2, 3], [Tevet], Anywhere,
        [ChanukahTevet])
    case 15 => Holiday(FastDay, "asara_btevet", [10], [Tevet], Anywhere, [])
    case 16 => Holiday(MinorHoliday, "tu_bshvat", [15], [Shvat], Anywhere, [])
    case 17 => Holiday(FastDay, "taanit_esther", [11, 13], [Adar, AdarII], Anywhere,
        [MoveIfNotOnDow(Move(13, 11, 5, 3)), CorrectAdar])
    case 18 => Holiday(MelachaPermittedHoliday, "purim", [14], [Adar, AdarII], Anywhere,
        [CorrectAdar])
    case 19 => Holiday(MelachaPermittedHoliday, "shushan_purim", [15], [Adar, AdarII], Anywhere,
        [CorrectAdar])
    case 20 => Holiday(ErevYomTov, "erev_pesach", [14], [Nisan], Anywhere, [])
    case 21 => Holiday(YomTov, "pesach", [15], [Nisan], Anywhere, [])
    case 22 => Holiday(HolHamoed, "hol_hamoed_pesach", [16], [Nisan], IsraelOnly, [])
    case 23 => Holiday(HolHamoed, "hol_hamoed_pesach", [17, 18, 19], [Nisan], Anywhere, [])
    case 24 => Holiday(ErevYomTov, "hol_hamoed_pesach", [20], [Nisan], Anywhere, [])
    case 25 => Holiday(YomTov, "pesach_vii", [21], [Nisan], Anywhere, [])
    case 26 => Holiday(ModernHoliday, "yom_haatzmaut", [3, 4, 5], [Iyyar], Anywhere,
        [YearIsAfter(5708), YearIsBefore(5764), EitherMove(Move(5, 4, 4, 3), [Move(5, 3, 5, 3)])])
    case 27 => Holiday(ModernHoliday, "yom_haatzmaut", [3, 4, 5, 6], [Iyyar], Anywhere,
        [YearIsAfter(5763), EitherMove(Move(5, 4, 4, 3), [Move(5, 3, 5, 3), Move(5, 6, 0, 1)])])
    case 28 => Holiday(MinorHoliday, "lag_bomer", [18], [Iyyar], Anywhere, [])
    case 29 => Holiday(ErevYomTov, "erev_shavuot", [5], [Sivan], Anywhere, [])
    case 30 => Holiday(YomTov, "shavuot", [6], [Sivan], Anywhere, [])
    case 31 => Holiday(FastDay, "tzom_tammuz", [17, 18], [Tammuz], Anywhere,
        [MoveIfNotOnDow(Move(17, 18, 5, 6))])
    case 32 => Holiday(FastDay, "tisha_bav", [9, 10], [Av], Anywhere,
        [MoveIfNotOnDow(Move(9, 10, 5, 6))])
    case 33 => Holiday(MinorHoliday, "tu_bav", [15], [Av], Anywhere, [])
    case 34 => Holiday(MemorialDay, "yom_hashoah", [26, 27, 28], [Nisan], Anywhere,
        [EitherMove(Move(27, 28, 6, 0), [Move(27, 26, 4, 3)]), YearIsAfter(5718)])
    case 35 => Holiday(MemorialDay, "yom_hazikaron", [2, 3, 4], [Iyyar], Anywhere,
        [YearIsAfter(5708), YearIsBefore(5764), EitherMove(Move(4, 3, 3, 2), [Move(4, 2, 4, 2)])])
    case 36 => Holiday(MemorialDay, "yom_hazikaron", [2, 3, 4, 5], [Iyyar], Anywhere,
        [YearIsAfter(5763), EitherMove(Move(4, 3, 3, 2), [Move(4, 2, 4, 2), Move(4, 5, 6, 0)])])
    case 37 => Holiday(ModernHoliday, "yom_yerushalayim", [28], [Iyyar], Anywhere,
        [YearIsAfter(5727)])
    case 38 => Holiday(YomTov, "shmini_atzeret", [22], [Tishrei], Anywhere, [])
    case 39 => Holiday(YomTov, "pesach_viii", [22], [Nisan], DiasporaOnly, [])
    case 40 => Holiday(YomTov, "shavuot_ii", [7], [Sivan], DiasporaOnly, [])
    case 41 => Holiday(YomTov, "sukkot_ii", [16], [Tishrei], DiasporaOnly, [])
    case 42 => Holiday(YomTov, "pesach_ii", [16], [Nisan], DiasporaOnly, [])
    case 43 => Holiday(IsraelNationalHoliday, "family_day", [30], [Shvat], IsraelOnly,
        [YearIsAfter(5734)])
    case 44 => Holiday(MemorialDay, "memorial_day_unknown", [7], [Adar, AdarII], IsraelOnly,
        [CorrectAdar])
    case 45 => Holiday(MemorialDay, "rabin_memorial_day", [11, 12], [Marcheshvan], IsraelOnly,
        [MoveIfNotOnDow(Move(12, 11, 4, 3)), YearIsAfter(5757)])
    case 46 => Holiday(MemorialDay, "zeev_zhabotinsky_day", [29], [Tammuz], IsraelOnly,
        [YearIsAfter(5764)])
    case _ => Holiday(RoshChodesh, "rosh_chodesh", [1, 30], TableMonths, Anywhere,
        [CorrectAdar, LegalMonthLength, NotRoshChodesh])
  }

  // ---------------------------------------------------------------------
  // What the guards mean
  // ---------------------------------------------------------------------

  /**
   * `not_rosh_chodesh` and `legal_month_length` name only months whose
   * numbers agree in both enumerations, so comparing numbers is harmless.
   */
  lemma NotRoshChodeshNumbersAgree(v: DateView)
    ensures Holds(NotRoshChodesh, v) <==> HoldsCorrected(NotRoshChodesh, v)
  {
  }

  lemma LegalMonthLengthNumbersAgree(v: DateView)
    ensures Holds(LegalMonthLength, v) <==> HoldsCorrected(LegalMonthLength, v)
  {
  }

  /** `not_rosh_chodesh` is false exactly on 1 Tishrei. */
  lemma NotRoshChodeshMeaning(v: DateView)
    ensures !Holds(NotRoshChodesh, v) <==> v.date.month == Tishrei && v.date.day == 1
  {
  }

  /**
   * `legal_month_length` admits day 29, and day 30 exactly in a month that
   * has 30 days; in particular never day 1.
   */
  lemma LegalMonthLengthMeaning(v: DateView)
    requires v.date.year != 0
    ensures Holds(LegalMonthLength, v) <==>
            v.date.day == 29 || (v.date.day == 30 && Days(v.date.month, v.date.year) == 30)
    ensures v.date.day == 1 ==> !Holds(LegalMonthLength, v)
  {
  }

  /** `correct_adar`, read by month name, admits exactly the months of the year. */
  lemma CorrectAdarMeaning(v: DateView)
    ensures HoldsCorrected(CorrectAdar, v) <==> MonthInYear(v.date.month, v.date.year)
  {
  }

  /**
   * `correct_adar` as written: Av and Elul carry the numbers htables.py
   * gives Adar I and Adar II, so they are rejected in common years, while
   * Adar I and Adar II (numbers 7 and 8) are never rejected.
   */
  lemma CorrectAdarAsWrittenMeaning(v: DateView)
    ensures Holds(CorrectAdar, v) <==>
            if v.date.month in {Av, Elul} then IsLeapYear(v.date.year)
            else v.date.month == Adar ==> !IsLeapYear(v.date.year)
  {
  }

  // ---------------------------------------------------------------------
  // Moves: each observance falls on exactly one day
  // ---------------------------------------------------------------------

  /** A move whose two weekdays are those of its two days in one week. */
  predicate Consistent(m: Move) {
    && 0 <= m.dowNotOrig < 7 && 0 <= m.dowReplacement < 7
    && (m.dowNotOrig + m.replacement - m.original) % 7 == m.dowReplacement
  }

  /** Moves of one observance: one original day, consistent, each avoiding its own weekday. */
  predicate WellFormedMoves(moves: seq<Move>) {
    && |moves| > 0
    && (forall k :: 0 <= k < |moves| ==> moves[k].original == moves[0].original && Consistent(moves[k]))
    && (forall j, k :: 0 <= j < k < |moves| ==> moves[j].dowNotOrig != moves[k].dowNotOrig)
  }

  /** The position of the first move at or after `from` that avoids weekday `w`, or `|moves|`. */
  function AvoidingMove(moves: seq<Move>, w: int, from: int): (k: int)
    requires 0 <= from <= |moves|
    ensures from <= k <= |moves|
    ensures k < |moves| ==> moves[k].dowNotOrig == w
    ensures forall j :: from <= j < k ==> moves[j].dowNotOrig != w
    decreases |moves| - from
  {
    if from == |moves| then from
    else if moves[from].dowNotOrig == w then from
    else AvoidingMove(moves, w, from + 1)
  }

  /** The day the moves observe when the original day has weekday `w`. */
  function ObservedDay(moves: seq<Move>, w: int): int
    requires |moves| > 0
  {
    var k := AvoidingMove(moves, w, 0);
    if k < |moves| then moves[k].replacement else moves[0].original
  }

  /** Day `day` of a month whose day `original` has weekday `w`. */
  function DayAround(year: int, month: Month, original: int, w: int, day: int): (v: DateView)
    ensures v.date == HebrewDate(year, month, day) && 0 <= v.weekday < 7
    ensures v.weekday == (w + day - original) % 7
  {
    DateView(HebrewDate(year, month, day), (w + day - original) % 7)
  }

  /** Two weekdays shifted by the same number of days stay equal or stay different. */
  lemma SameShift(a: int, b: int, c: int)
    requires 0 <= a < 7 && 0 <= b < 7
    ensures (a + c) % 7 == (b + c) % 7 <==> a == b
  {
    ModSevenShift(c, a);
    ModSevenShift(c, b);
  }

  /** A replacement day has its move's weekday exactly when the original day has the avoided one. */
  lemma ReplacementWeekday(m: Move, w: int)
    requires Consistent(m) && 0 <= w < 7
    ensures (w + m.replacement - m.original) % 7 == m.dowReplacement <==> w == m.dowNotOrig
  {
    SameShift(w, m.dowNotOrig, m.replacement - m.original);
  }

  /**
   * Combined moves hold on exactly one day of the month: the replacement of
   * the move that avoids the original day's weekday, or else the original.
   */
  lemma {:induction false} MovesObservedOnce(moves: seq<Move>, year: int, month: Month, w: int, day: int)
    requires WellFormedMoves(moves) && 0 <= w < 7
    ensures MovesHold(moves, DayAround(year, month, moves[0].original, w, day))
        <==> day == ObservedDay(moves, w)
  {
    var o := moves[0].original;
    var v := DayAround(year, month, o, w, day);
    var k := AvoidingMove(moves, w, 0);
    if k < |moves| {
      ReplacementWeekday(moves[k], w);
      if MovesHold(moves, v) {
        var j :| 0 <= j < |moves| && day == moves[j].replacement && v.weekday == moves[j].dowReplacement;
        ReplacementWeekday(moves[j], w);
        assert j == k;
      }
    } else {
      if day == o {
        assert forall j :: 0 <= j < |moves| ==> v.weekday != moves[j].dowNotOrig;
      } else {
        forall j | 0 <= j < |moves|
          ensures !(day == moves[j].replacement && v.weekday == moves[j].dowReplacement)
        {
          ReplacementWeekday(moves[j], w);
        }
      }
    }
  }

  /** A single move is the combination of the one move. */
  lemma SingleMove(m: Move, v: DateView)
    ensures MoveHolds(m, v) <==> MovesHold([m], v)
  {
    if MoveHolds(m, v) && v.date.day == m.replacement && v.weekday == m.dowReplacement {
      assert [m][0] == m;
    }
  }

  /** The moves a guard carries, in the order the row writes them. */
  function GuardMoves(g: Guard): (moves: seq<Move>)
    ensures g.MoveIfNotOnDow? ==> moves == [g.move]
    ensures g.EitherMove? ==> |moves| == |g.others| + 1 && moves[0] == g.first
    ensures !g.MoveIfNotOnDow? && !g.EitherMove? ==> moves == []
  {
    match g
    case MoveIfNotOnDow(m) => [m]
    case EitherMove(first, others) => [first] + others
    case _ => []
  }

  /** A guard carrying moves holds, as intended, exactly when its moves combined hold. */
  lemma CorrectedMoveGuard(g: Guard, v: DateView)
    requires |GuardMoves(g)| > 0
    ensures HoldsCorrected(g, v) <==> MovesHold(GuardMoves(g), v)
  {
    if g.MoveIfNotOnDow? {
      SingleMove(g.move, v);
    }
  }

  /** Days of one month are seen with weekdays counted on from any one of them. */
  lemma ViewAround(d: HebrewDate, day: int)
    requires MonthInYear(d.month, d.year)
    ensures ViewOf(d.(day := day)) == DayAround(d.year, d.month, d.day, ViewOf(d).weekday, day)
  {
    assert Jdn(d.(day := day)) == Jdn(d) + (day - d.day);
    ModSevenShift(Jdn(d), day - d.day);
  }

  /** The guards of the table that carry moves. */
  const MoveGuards: seq<Guard> := [
    MoveIfNotOnDow(Move(3, 4, 5, 6)),
    MoveIfNotOnDow(Move(13, 11, 5, 3)),
    EitherMove(Move(5, 4, 4, 3), [Move(5, 3, 5, 3)]),
    EitherMove(Move(5, 4, 4, 3), [Move(5, 3, 5, 3), Move(5, 6, 0, 1)]),
    MoveIfNotOnDow(Move(17, 18, 5, 6)),
    MoveIfNotOnDow(Move(9, 10, 5, 6)),
    EitherMove(Move(27, 28, 6, 0), [Move(27, 26, 4, 3)]),
    EitherMove(Move(4, 3, 3, 2), [Move(4, 2, 4, 2)]),
    EitherMove(Move(4, 3, 3, 2), [Move(4, 2, 4, 2), Move(4, 5, 6, 0)]),
    MoveIfNotOnDow(Move(12, 11, 4, 3))]

  /** The rows of those guards, in the same order. */
  const MoveRows: seq<int> := [4, 17, 26, 27, 31, 32, 34, 35, 36, 45]

  /** Where row `i` would sit in `MoveRows`. */
  function MoveIndex(i: int): int {
    if i == 4 then 0 else if i == 17 then 1 else if i == 26 then 2 else if i == 27 then 3
    else if i == 31 then 4 else if i == 32 then 5 else if i == 34 then 6 else if i == 35 then 7
    else if i == 36 then 8 else 9
  }

  /** A guard `g` of row `i` that carries moves is listed, with its row, at `MoveIndex(i)`. */
  predicate ListedAt(i: int, g: Guard) {
    var k := MoveIndex(i);
    0 <= k < |MoveRows| && MoveRows[k] == i && MoveGuards[k] == g
  }

  // The rows are checked in four ranges, each proved apart, so that no single
  // case analysis over all 48 rows has to fit in the solver's budget.
  lemma MovesListedEarly(i: int, g: Guard)
    requires 0 <= i < 16 && g in HolidayAt(i).guards && |GuardMoves(g)| > 0
    ensures ListedAt(i, g)
  {
  }

  lemma MovesListedMiddle(i: int, g: Guard)
    requires 16 <= i < 32 && g in HolidayAt(i).guards && |GuardMoves(g)| > 0
    ensures ListedAt(i, g)
  {
  }

  lemma MovesListedLate(i: int, g: Guard)
    requires 32 <= i < 40 && g in HolidayAt(i).guards && |GuardMoves(g)| > 0
    ensures ListedAt(i, g)
  {
  }

  lemma MovesListedLast(i: int, g: Guard)
    requires 40 <= i < HolidayCount && g in HolidayAt(i).guards && |GuardMoves(g)| > 0
    ensures ListedAt(i, g)
  {
  }

  /** The rows listed in `MoveRows` carry the guards of `MoveGuards`, and no other row carries moves. */
  lemma MoveGuardsOfRows(i: int, g: Guard)
    requires 0 <= i < HolidayCount && g in HolidayAt(i).guards && |GuardMoves(g)| > 0
    ensures exists k :: 0 <= k < |MoveRows| && MoveRows[k] == i && MoveGuards[k] == g
  {
    if i < 16 { MovesListedEarly(i, g); }
    else if i < 32 { MovesListedMiddle(i, g); }
    else if i < 40 { MovesListedLate(i, g); }
    else { MovesListedLast(i, g); }
    var k := MoveIndex(i);
    assert MoveRows[k] == i && MoveGuards[k] == g;
  }

  /** Guard `k` of `MoveGuards` is well formed and its days are days of its row. */
  predicate GuardFitsRow(k: int)
    requires 0 <= k < |MoveGuards|
  {
    var moves := GuardMoves(MoveGuards[k]);
    && WellFormedMoves(moves)
    && 0 <= MoveRows[k] < HolidayCount && MoveGuards[k] in HolidayAt(MoveRows[k]).guards
    && moves[0].original in HolidayAt(MoveRows[k]).days
    && forall j :: 0 <= j < |moves| ==> moves[j].replacement in HolidayAt(MoveRows[k]).days
  }

  // The ten guards are checked in pairs, each pair proved apart, for the same
  // reason as the row ranges above; MoveGuardWellFormed joins them.

  /** The fast-day move guards of Tishrei and Adar fit their rows. */
  lemma FastMoveGuardsFit(k: int)
    requires 0 <= k < 2
    ensures GuardFitsRow(k)
  {
    if k == 0 { assert GuardFitsRow(0); }
    else { assert GuardFitsRow(1); }
  }

  /** The two Yom HaAtzmaut move guards fit their rows. */
  lemma IndependenceMoveGuardsFit(k: int)
    requires 2 <= k < 4
    ensures GuardFitsRow(k)
  {
    if k == 2 { EarlyIndependenceGuardFits(); }
    else { IndependenceGuardFits(); }
  }

  lemma EarlyIndependenceGuardFits()
    ensures GuardFitsRow(2)
  {
  }

  lemma IndependenceGuardFits()
    ensures GuardFitsRow(3)
  {
  }

  /** The Tammuz and Av fast guards fit their rows. */
  lemma SummerFastMoveGuardsFit(k: int)
    requires 4 <= k < 6
    ensures GuardFitsRow(k)
  {
    if k == 4 { assert GuardFitsRow(4); }
    else { assert GuardFitsRow(5); }
  }

  /** The Yom HaShoah guard and the first Yom HaZikaron guard fit their rows. */
  lemma MemorialMoveGuardsFit(k: int)
    requires 6 <= k < 8
    ensures GuardFitsRow(k)
  {
    if k == 6 { assert GuardFitsRow(6); }
    else { assert GuardFitsRow(7); }
  }

  /** The last Yom HaZikaron guard and the Rabin memorial day guard fit their rows. */
  lemma LastMoveGuardsFit(k: int)
    requires 8 <= k < |MoveGuards|
    ensures GuardFitsRow(k)
  {
    if k == 8 { assert GuardFitsRow(8); }
    else { assert GuardFitsRow(9); }
  }

  /** Every move guard of the table fits its row. */
  lemma MoveGuardWellFormed(k: int)
    requires 0 <= k < |MoveGuards|
    ensures GuardFitsRow(k)
  {
    if k < 2 { FastMoveGuardsFit(k); }
    else if k < 4 { IndependenceMoveGuardsFit(k); }
    else if k < 6 { SummerFastMoveGuardsFit(k); }
    else if k < 8 { MemorialMoveGuardsFit(k); }
    else { LastMoveGuardsFit(k); }
  }

  /**
   * Every move guard of the table is well formed, and the days it may
   * observe (its original day and every replacement) are days of its row.
   */
  lemma RowMovesWellFormed(i: int, g: Guard)
    requires 0 <= i < HolidayCount && g in HolidayAt(i).guards && |GuardMoves(g)| > 0
    ensures WellFormedMoves(GuardMoves(g))
    ensures GuardMoves(g)[0].original in HolidayAt(i).days
    ensures forall k :: 0 <= k < |GuardMoves(g)| ==> GuardMoves(g)[k].replacement in HolidayAt(i).days
  {
    MoveGuardsOfRows(i, g);
    var k :| 0 <= k < |MoveRows| && MoveRows[k] == i && MoveGuards[k] == g;
    MoveGuardWellFormed(k);
  }

  /**
   * Each move guard of the table, read as intended, admits exactly one day
   * of its month: `ObservedDay` of the original day's weekday, a day of the
   * row.
   */
  lemma RowObservedOnce(i: int, g: Guard, original: HebrewDate, day: int)
    requires 0 <= i < HolidayCount && g in HolidayAt(i).guards && |GuardMoves(g)| > 0
    requires MonthInYear(original.month, original.year)
    requires original.day == GuardMoves(g)[0].original
    ensures var observed := ObservedDay(GuardMoves(g), ViewOf(original).weekday);
            && observed in HolidayAt(i).days
            && (HoldsCorrected(g, ViewOf(original.(day := day))) <==> day == observed)
  {
    var moves := GuardMoves(g);
    var w := ViewOf(original).weekday;
    RowMovesWellFormed(i, g);
    ViewAround(original, day);
    CorrectedMoveGuard(g, ViewOf(original.(day := day)));
    MovesObservedOnce(moves, original.year, original.month, w, day);
  }

  // ---------------------------------------------------------------------
  // Rows
  // ---------------------------------------------------------------------

  /** Row 47, Rosh Chodesh: days 1 and 30 of every month, under three guards. */
  lemma RoshChodeshRowShape()
    ensures HolidayAt(47).days == [1, 30] && HolidayAt(47).months == TableMonths
    ensures HolidayAt(47).scope == Anywhere
    ensures HolidayAt(47).guards == [CorrectAdar, LegalMonthLength, NotRoshChodesh]
  {
  }

  /**
   * The Rosh Chodesh row, read as intended, matches a date exactly when it
   * is day 30 of its month: `legal_month_length` turns day 1 away.
   */
  lemma RoshChodeshRow(v: DateView, diaspora: bool)
    requires Valid(v.date) && v.date.year != 0
    ensures Matches(HolidayAt(47), v, diaspora) <==> v.date.day == 30
  {
    var d := v.date;
    RoshChodeshRowShape();
    JdnWithinYear(d);
    ValidationMeaning(d);
    LegalMonthLengthMeaning(v);
    CorrectAdarMeaning(v);
    NotRoshChodeshMeaning(v);
    NotRoshChodeshNumbersAgree(v);
    LegalMonthLengthNumbersAgree(v);
    assert d.month in TableMonths;
  }

  /** The Rosh Chodesh row as written also turns away 30 Av of a common year. */
  lemma RoshChodeshRowAsWritten(v: DateView, diaspora: bool)
    requires Valid(v.date) && v.date.year != 0
    ensures MatchesAsWritten(HolidayAt(47), v, diaspora) <==>
            v.date.day == 30 && (v.date.month == Av ==> IsLeapYear(v.date.year))
  {
    var d := v.date;
    RoshChodeshRowShape();
    JdnWithinYear(d);
    ValidationMeaning(d);
    MonthLengths(d.month, d.year);
    LegalMonthLengthMeaning(v);
    CorrectAdarAsWrittenMeaning(v);
    NotRoshChodeshMeaning(v);
    assert d.month in TableMonths;
  }

  /** 30 Av 5785 is a date of a common year, a Rosh Chodesh the written row misses. */
  lemma RoshChodeshAv5785(diaspora: bool)
    ensures Valid(HebrewDate(5785, Av, 30)) && MonthInYear(Av, 5785)
    ensures Matches(HolidayAt(47), ViewOf(HebrewDate(5785, Av, 30)), diaspora)
    ensures !MatchesAsWritten(HolidayAt(47), ViewOf(HebrewDate(5785, Av, 30)), diaspora)
  {
    var d := HebrewDate(5785, Av, 30);
    assert !IsLeapYear(5785);
    MonthLengths(Av, 5785);
    ValidationMeaning(d);
    JdnWithinYear(d);
    RoshChodeshRow(ViewOf(d), diaspora);
    RoshChodeshRowAsWritten(ViewOf(d), diaspora);
  }

  /** The Chanukah rows, 13 and 14, by month and day. */
  lemma ChanukahRows(v: DateView, diaspora: bool)
    ensures Matches(HolidayAt(13), v, diaspora) || Matches(HolidayAt(14), v, diaspora) <==>
            || (v.date.month == Kislev && 25 <= v.date.day <= 30)
            || (v.date.month == Tevet && (v.date.day in {1, 2} || (v.date.day == 3 && ShortKislev(v.date.year))))
  {
    var kislev := HolidayAt(13);
    var tevet := HolidayAt(14);
    assert kislev.days == [25, 26, 27, 28, 29, 30] && kislev.months == [Kislev];
    assert kislev.scope == Anywhere && kislev.guards == [];
    assert tevet.days == [1, 2, 3] && tevet.months == [Tevet];
    assert tevet.scope == Anywhere && tevet.guards == [ChanukahTevet];
    assert Matches(kislev, v, diaspora) <==> v.date.month == Kislev && 25 <= v.date.day <= 30;
    assert Matches(tevet, v, diaspora) <==>
           v.date.month == Tevet && v.date.day in [1, 2, 3] && HoldsCorrected(ChanukahTevet, v);
  }

  /** Within one year, Julian day numbers differ by the days between the two dates. */
  lemma JdnWithinOneYear(a: HebrewDate, b: HebrewDate)
    requires a.year == b.year && MonthInYear(a.month, a.year) && MonthInYear(b.month, b.year)
    ensures Jdn(a) - Jdn(b) == DaysBeforeMonth(a.year, a.month) + a.day - DaysBeforeMonth(b.year, b.month) - b.day
  {
  }

  /**
   * Chanukah is the two rows 13 (25 Kislev to 30 Kislev) and 14 (1 to 3
   * Tevet, day 3 only after a short Kislev): together they match exactly
   * the eight days that start on 25 Kislev.
   */
  lemma ChanukahEightDays(v: DateView, diaspora: bool)
    requires Valid(v.date) && v.date.year != 0
    ensures MonthInYear(v.date.month, v.date.year) && MonthInYear(Kislev, v.date.year)
    ensures Matches(HolidayAt(13), v, diaspora) || Matches(HolidayAt(14), v, diaspora) <==>
            0 <= Jdn(v.date) - Jdn(HebrewDate(v.date.year, Kislev, 25)) < 8
  {
    var d := v.date;
    JdnWithinYear(d);
    ValidationMeaning(d);
    MonthLengths(d.month, d.year);
    MonthLengths(Kislev, d.year);
    MonthLengths(Marcheshvan, d.year);
    JdnWithinOneYear(d, HebrewDate(d.year, Kislev, 25));
    ChanukahRows(v, diaspora);
  }

  /** The moves of the Yom HaAtzmaut row for years after 5763. */
  const IndependenceDayMoves: seq<Move> := [Move(5, 4, 4, 3), Move(5, 3, 5, 3), Move(5, 6, 0, 1)]

  /**
   * Row 27 as written keeps only its first move: when 5 Iyyar falls on a
   * Saturday (weekday 5) it matches 5 Iyyar itself, and neither 3 nor 4
   * Iyyar; read as intended it matches 3 Iyyar and not 5 Iyyar.
   */
  lemma IndependenceDayOnSaturday(year: int, diaspora: bool)
    requires year > 5763
    ensures HolidayAt(27).guards[1] == EitherMove(IndependenceDayMoves[0], IndependenceDayMoves[1..])
    ensures MatchesAsWritten(HolidayAt(27), DayAround(year, Iyyar, 5, 5, 5), diaspora)
    ensures !MatchesAsWritten(HolidayAt(27), DayAround(year, Iyyar, 5, 5, 3), diaspora)
    ensures !MatchesAsWritten(HolidayAt(27), DayAround(year, Iyyar, 5, 5, 4), diaspora)
    ensures ObservedDay(IndependenceDayMoves, 5) == 3
    ensures Matches(HolidayAt(27), DayAround(year, Iyyar, 5, 5, 3), diaspora)
    ensures !Matches(HolidayAt(27), DayAround(year, Iyyar, 5, 5, 5), diaspora)
  {
    IndependenceDayAsWritten(year, diaspora);
    IndependenceDayAsIntended(year, diaspora);
  }

  lemma IndependenceDayAsWritten(year: int, diaspora: bool)
    requires year > 5763
    ensures HolidayAt(27).guards[1] == EitherMove(IndependenceDayMoves[0], IndependenceDayMoves[1..])
    ensures MatchesAsWritten(HolidayAt(27), DayAround(year, Iyyar, 5, 5, 5), diaspora)
    ensures !MatchesAsWritten(HolidayAt(27), DayAround(year, Iyyar, 5, 5, 3), diaspora)
    ensures !MatchesAsWritten(HolidayAt(27), DayAround(year, Iyyar, 5, 5, 4), diaspora)
  {
    var h := HolidayAt(27);
    var first := IndependenceDayMoves[0];
    assert h.guards == [YearIsAfter(5763), EitherMove(first, IndependenceDayMoves[1..])];
    assert h.days == [3, 4, 5, 6] && h.months == [Iyyar] && h.scope == Anywhere;
    var on3, on4, on5 := DayAround(year, Iyyar, 5, 5, 3), DayAround(year, Iyyar, 5, 5, 4), DayAround(year, Iyyar, 5, 5, 5);
    assert on3.weekday == 3 && on4.weekday == 4 && on5.weekday == 5;
    assert Holds(h.guards[0], on5) && Holds(h.guards[1], on5);
    assert !Holds(h.guards[1], on3) && !Holds(h.guards[1], on4);
  }

  lemma IndependenceDayAsIntended(year: int, diaspora: bool)
    requires year > 5763
    ensures ObservedDay(IndependenceDayMoves, 5) == 3
    ensures Matches(HolidayAt(27), DayAround(year, Iyyar, 5, 5, 3), diaspora)
    ensures !Matches(HolidayAt(27), DayAround(year, Iyyar, 5, 5, 5), diaspora)
  {
    var g := HolidayAt(27).guards[1];
    assert GuardMoves(g) == IndependenceDayMoves;
    MoveGuardWellFormed(3);
    MovesObservedOnce(IndependenceDayMoves, year, Iyyar, 5, 3);
    MovesObservedOnce(IndependenceDayMoves, year, Iyyar, 5, 5);
    assert HoldsCorrected(g, DayAround(year, Iyyar, 5, 5, 3));
    assert !HoldsCorrected(g, DayAround(year, Iyyar, 5, 5, 5));
  }

  /** The day counts of years 5785 and 5786, step by step. */
  lemma DaysFrom5785()
    ensures DaysFrom3744(5785) == 745468 && DaysFrom3744(5786) == 745823
  {
    ConstantsAgree();
    assert (2041 * 7 + 1) / 19 == 752 && (2041 * 7 + 1) % 19 == 0;
    assert 25244 * PartsInMonth + 8339 == 1001513551;
    assert 1001513551 / PartsInDay == 38638 && 1001513551 % PartsInDay == 16591;
    assert 1001513551 % PartsInWeek == 146191 && 146191 / PartsInDay == 5;
    assert (2042 * 7 + 1) / 19 == 752 && (2042 * 7 + 1) % 19 == 7;
    assert 25256 * PartsInMonth + 8339 == 1001989627;
    assert 1001989627 / PartsInDay == 38657 && 1001989627 % PartsInDay == 187;
    assert 1001989627 % PartsInWeek == 77947 && 77947 / PartsInDay == 3;
  }

  /** 5 Iyyar 5785 is a Saturday, a year in which the written row keeps the day. */
  lemma IndependenceDay5785(diaspora: bool)
    ensures MonthInYear(Iyyar, 5785)
    ensures ViewOf(HebrewDate(5785, Iyyar, 5)) == DayAround(5785, Iyyar, 5, 5, 5)
    ensures MatchesAsWritten(HolidayAt(27), ViewOf(HebrewDate(5785, Iyyar, 5)), diaspora)
    ensures !Matches(HolidayAt(27), ViewOf(HebrewDate(5785, Iyyar, 5)), diaspora)
  {
    DaysFrom5785();
    assert !IsLeapYear(5785) && YearSize(5785) == 355;
    assert Jdn(HebrewDate(5785, Iyyar, 5)) == 2460799;
    IndependenceDayOnSaturday(5785, diaspora);
  }
}
