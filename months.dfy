/**
 * The Hebrew months of hdate/hebrew_date.py: their two numberings (calendar
 * order from Tishrei, biblical order from Nisan), their lengths, the months
 * of a year and the month that follows another, and month comparison under
 * the Adar comparison modes.
 *
 * The months are symbolic constructors. The integers attached to them by the
 * two source files (hebrew_date.py and htables.py number them differently)
 * are functions of the constructor and are never mixed.
 */
module MonthOrdering {
  import opened CalendarMath
  import opened Wrappers

  datatype Month =
    | Tishrei | Marcheshvan | Kislev | Tevet | Shvat
    | Adar      // Adar of a common year
    | AdarI     // first Adar of a leap year
    | AdarII
    | Nisan | Iyyar | Sivan | Tammuz | Av | Elul

  /** The members in definition order, that is `list(Months)`. */
  const AllMonths: seq<Month> :=
    [Tishrei, Marcheshvan, Kislev, Tevet, Shvat, Adar, AdarI, AdarII,
     Nisan, Iyyar, Sivan, Tammuz, Av, Elul]

  /** The month's value in calendar order (hebrew_date.py numbering). */
  function Value(m: Month): int {
    match m
    case Tishrei => 1 case Marcheshvan => 2 case Kislev => 3 case Tevet => 4
    case Shvat => 5 case Adar => 6 case AdarI => 7 case AdarII => 8
    case Nisan => 9 case Iyyar => 10 case Sivan => 11 case Tammuz => 12
    case Av => 13 case Elul => 14
  }

  /** The month's ordinal counting from Nisan; Adar and Adar I share 12. */
  function BiblicalOrder(m: Month): int {
    match m
    case Tishrei => 7 case Marcheshvan => 8 case Kislev => 9 case Tevet => 10
    case Shvat => 11 case Adar => 12 case AdarI => 12 case AdarII => 13
    case Nisan => 1 case Iyyar => 2 case Sivan => 3 case Tammuz => 4
    case Av => 5 case Elul => 6
  }

  /** `Months(value)`: the month with a calendar value, or ValueError (None). */
  function MonthOf(v: int): (r: Option<Month>)
    ensures r.Some? <==> 1 <= v <= 14
    ensures r.Some? ==> Value(r.value) == v
  {
    if 1 <= v <= 14 then Some(AllMonths[v - 1]) else None
  }

  /** `Months.days(year)`: Marcheshvan and Kislev vary with the year's length, and year 0 gives both 30. */
  function Days(m: Month, year: int): int {
    match m
    case Marcheshvan => if LongCheshvan(year) || year == 0 then 30 else 29
    case Kislev => if !ShortKislev(year) || year == 0 then 30 else 29
    case Tishrei => 30 case Shvat => 30 case AdarI => 30 case Nisan => 30
    case Sivan => 30 case Av => 30
    case Tevet => 29 case Adar => 29 case AdarII => 29 case Iyyar => 29
    case Tammuz => 29 case Elul => 29
  }

  /** The month after `m` in `year`; Elul wraps to Tishrei. */
  function NextMonth(m: Month, year: int): Month {
    if m == Elul then Tishrei
    else if m in {Adar, AdarII} then Nisan
    else if IsLeapYear(year) && m == Shvat then AdarI
    else AllMonths[Value(m)]   // Months(value + 1)
  }

  const LeapMonths: seq<Month> :=
    [Tishrei, Marcheshvan, Kislev, Tevet, Shvat, AdarI, AdarII, Nisan, Iyyar, Sivan, Tammuz, Av, Elul]

  const CommonMonths: seq<Month> :=
    [Tishrei, Marcheshvan, Kislev, Tevet, Shvat, Adar, Nisan, Iyyar, Sivan, Tammuz, Av, Elul]

  /** `Months.in_year`: the months of a year in calendar order. */
  function InYear(year: int): (r: seq<Month>)
    ensures IsLeapYear(year) ==> |r| == 13 && Adar !in r && AdarI in r && AdarII in r
    ensures !IsLeapYear(year) ==> |r| == 12 && Adar in r && AdarI !in r && AdarII !in r
    ensures r[0] == Tishrei && r[|r| - 1] == Elul
  {
    if IsLeapYear(year) then LeapMonths else CommonMonths
  }

  /** `in_year` lists the months in calendar order. */
  lemma InYearOrdered(year: int)
    ensures forall i, j :: 0 <= i < j < |InYear(year)| ==> Value(InYear(year)[i]) < Value(InYear(year)[j])
  {
    var ms := InYear(year);
    forall i, j | 0 <= i < j < |ms|
      ensures Value(ms[i]) < Value(ms[j])
    {
      if IsLeapYear(year) {
        assert forall k :: 0 <= k < |ms| ==> Value(ms[k]) == if k < 5 then k + 1 else k + 2;
      } else {
        assert forall k :: 0 <= k < |ms| ==> Value(ms[k]) == if k < 6 then k + 1 else k + 3;
      }
    }
  }

  /** Membership in `InYear(year)`: a leap year has every month but Adar, a common year every month but Adar I and Adar II. */
  predicate MonthInYear(m: Month, year: int) {
    if IsLeapYear(year) then m != Adar else m != AdarI && m != AdarII
  }

  lemma InYearMembers(year: int, m: Month)
    ensures m in InYear(year) <==> MonthInYear(m, year)
  {
    if MonthInYear(m, year) {
      var i := MonthIndex(year, m);
    }
  }

  /** The position of `m` in `InYear(year)`. */
  function MonthIndex(year: int, m: Month): (i: nat)
    requires MonthInYear(m, year)
    ensures i < |InYear(year)| && InYear(year)[i] == m
  {
    if Value(m) <= 6 || IsLeapYear(year) then
      (if Value(m) <= 5 || !IsLeapYear(year) then Value(m) - 1 else Value(m) - 2)
    else Value(m) - 3
  }

  /** Days of the months of `year` before `m` (closed form of the month walk). */
  function DaysBeforeMonth(year: int, m: Month): int
    requires MonthInYear(m, year)
  {
    var c := Days(Marcheshvan, year) + Days(Kislev, year);
    var nisan := (if IsLeapYear(year) then 148 else 118) + c;
    match m
    case Tishrei => 0
    case Marcheshvan => 30
    case Kislev => 30 + Days(Marcheshvan, year)
    case Tevet => 30 + c
    case Shvat => 59 + c
    case Adar => 89 + c
    case AdarI => 89 + c
    case AdarII => 119 + c
    case Nisan => nisan
    case Iyyar => nisan + 30
    case Sivan => nisan + 59
    case Tammuz => nisan + 89
    case Av => nisan + 118
    case Elul => nisan + 148
  }

  /** Sum of the lengths of `ms` in `year`. */
  function SumOfDays(ms: seq<Month>, year: int): int {
    if ms == [] then 0 else SumOfDays(ms[..|ms| - 1], year) + Days(ms[|ms| - 1], year)
  }

  // ---------------------------------------------------------------------
  // Comparison modes
  // ---------------------------------------------------------------------

  /** `ComparisonMode`: a flag value and the calendar values it treats as equal. */
  datatype ComparisonMode = Strict | AdarIsAdarI | AdarIsAdarII | AdarIsAny

  function Flag(mode: ComparisonMode): int {
    match mode
    case Strict => 0 case AdarIsAdarI => 1 case AdarIsAdarII => 2 case AdarIsAny => 3
  }

  /** The equal-month sets exactly as written; `{6 - 8}` is the set {-2}. */
  function EqualMonthValues(mode: ComparisonMode): set<int> {
    match mode
    case Strict => {}
    case AdarIsAdarI => {6, 7}
    case AdarIsAdarII => {6, 8}
    case AdarIsAny => {6 - 8}
  }

  /** `mode_a | mode_b`: the union of the two modes' equal-month sets. */
  function Combined(a: ComparisonMode, b: ComparisonMode): set<int> {
    EqualMonthValues(a) + EqualMonthValues(b)
  }

  /** The `order_type` argument: "calendar", or anything else for biblical order. */
  datatype OrderType = Calendar | Biblical

  function Ordinal(m: Month, order: OrderType): int {
    if order == Calendar then Value(m) else BiblicalOrder(m)
  }

  /**
   * `self.compare(other, order_type)` where `self` carries mode `selfMode` and
   * `other` carries `otherMode`: zero when both calendar values lie in the
   * combined set, otherwise the difference of ordinals.
   */
  function Compare(m: Month, other: Month, order: OrderType, selfMode: ComparisonMode, otherMode: ComparisonMode): int {
    var equal := Combined(selfMode, otherMode);
    if Value(m) in equal && Value(other) in equal then 0
    else Ordinal(m, order) - Ordinal(other, order)
  }

  /** `self.compare(k)` for a plain integer `k`: no mode applies. */
  function CompareToInt(m: Month, k: int, order: OrderType): int {
    Ordinal(m, order) - k
  }

  /** `==`, `<` and `<=` on months use calendar order. */
  predicate MonthEq(m: Month, other: Month, selfMode: ComparisonMode, otherMode: ComparisonMode) {
    Compare(m, other, Calendar, selfMode, otherMode) == 0
  }

  predicate MonthLt(m: Month, other: Month, selfMode: ComparisonMode, otherMode: ComparisonMode) {
    Compare(m, other, Calendar, selfMode, otherMode) < 0
  }

  predicate MonthLe(m: Month, other: Month, selfMode: ComparisonMode, otherMode: ComparisonMode) {
    Compare(m, other, Calendar, selfMode, otherMode) <= 0
  }

  // ---------------------------------------------------------------------
  // Lemmas
  // ---------------------------------------------------------------------

  /** Calendar values are a bijection between the months and 1..14. */
  lemma ValueBijective(m: Month, n: Month)
    ensures 1 <= Value(m) <= 14 && AllMonths[Value(m) - 1] == m
    ensures MonthOf(Value(m)) == Some(m)
    ensures Value(m) == Value(n) ==> m == n
  {
  }

  /** The leap test is the (7y + 1) mod 19 < 7 rule. */
  lemma {:induction false} LeapYearRule(year: int)
    ensures IsLeapYear(year) <==> (7 * year + 1) % 19 < 7
    ensures IsLeapYear(year) <==> IsLeapYear(year + 19)
  {
    var r := year % 19;
    var q := year / 19;
    assert 7 * year + 1 == 19 * (7 * q) + (7 * r + 1);
    NineteenMultiple(7 * q, 7 * r + 1);
    NineteenMultiple(1, year);
    LeapResidues(r);
  }

  lemma NineteenMultiple(k: int, x: int)
    ensures (19 * k + x) % 19 == x % 19
  {
    assert 19 * k + x == 19 * (k + x / 19) + x % 19;
  }

  lemma LeapResidues(r: int)
    requires 0 <= r < 19
    ensures r in {0, 3, 6, 8, 11, 14, 17} <==> (7 * r + 1) % 19 < 7
  {
    var c := (7 * r + 1) / 19;
    assert 0 <= c <= 6;
    assert (7 * r + 1) % 19 == 7 * r + 1 - 19 * c;
  }

  /** The month lengths: six fixed 30-day months, six fixed 29-day months, and Marcheshvan and Kislev. */
  lemma {:induction false} MonthLengths(m: Month, year: int)
    ensures m in {Tishrei, Shvat, AdarI, Nisan, Sivan, Av} ==> Days(m, year) == 30
    ensures m in {Tevet, Adar, AdarII, Iyyar, Tammuz, Elul} ==> Days(m, year) == 29
    ensures Days(Marcheshvan, year) == 30 <==> LongCheshvan(year) || year == 0
    ensures Days(Kislev, year) == 29 <==> ShortKislev(year) && year != 0
    ensures 29 <= Days(m, year) <= 30
  {
  }

  /** A year cannot be both deficient and complete. */
  lemma ShortKislevExcludesLongCheshvan(year: int)
    ensures !(ShortKislev(year) && LongCheshvan(year))
  {
  }

  /** Walking `NextMonth` from Tishrei visits `InYear(year)` in order and wraps at Elul. */
  lemma {:induction false} NextMonthWalk(year: int, i: nat)
    requires i < |InYear(year)|
    ensures i + 1 < |InYear(year)| ==> NextMonth(InYear(year)[i], year) == InYear(year)[i + 1]
    ensures i + 1 == |InYear(year)| ==> NextMonth(InYear(year)[i], year) == Tishrei
  {
    if IsLeapYear(year) {
      assert InYear(year) == LeapMonths;
      NextMonthWalkLeap(year, i);
    } else {
      assert InYear(year) == CommonMonths;
      NextMonthWalkCommon(year, i);
    }
  }

  lemma NextMonthWalkLeap(year: int, i: nat)
    requires IsLeapYear(year) && i < |LeapMonths|
    ensures i + 1 < |LeapMonths| ==> NextMonth(LeapMonths[i], year) == LeapMonths[i + 1]
    ensures i + 1 == |LeapMonths| ==> NextMonth(LeapMonths[i], year) == Tishrei
  {
  }

  lemma NextMonthWalkCommon(year: int, i: nat)
    requires !IsLeapYear(year) && i < |CommonMonths|
    ensures i + 1 < |CommonMonths| ==> NextMonth(CommonMonths[i], year) == CommonMonths[i + 1]
    ensures i + 1 == |CommonMonths| ==> NextMonth(CommonMonths[i], year) == Tishrei
  {
  }

  /** Each month's first day follows the previous month's last day. */
  lemma {:induction false} DaysBeforeStep(year: int, i: nat)
    requires i + 1 < |InYear(year)|
    ensures DaysBeforeMonth(year, InYear(year)[i + 1])
            == DaysBeforeMonth(year, InYear(year)[i]) + Days(InYear(year)[i], year)
  {
    if IsLeapYear(year) {
      assert InYear(year) == LeapMonths;
      DaysBeforeStepLeap(year, i);
    } else {
      assert InYear(year) == CommonMonths;
      DaysBeforeStepCommon(year, i);
    }
  }

  lemma DaysBeforeStepLeap(year: int, i: nat)
    requires IsLeapYear(year) && i + 1 < |LeapMonths|
    ensures DaysBeforeMonth(year, LeapMonths[i + 1]) == DaysBeforeMonth(year, LeapMonths[i]) + Days(LeapMonths[i], year)
  {
  }

  lemma DaysBeforeStepCommon(year: int, i: nat)
    requires !IsLeapYear(year) && i + 1 < |CommonMonths|
    ensures DaysBeforeMonth(year, CommonMonths[i + 1]) == DaysBeforeMonth(year, CommonMonths[i]) + Days(CommonMonths[i], year)
  {
  }

  /** The closed form is the sum of the lengths of the months before `m`. */
  lemma {:induction false} DaysBeforeIsPrefixSum(year: int, i: nat)
    requires i < |InYear(year)|
    ensures DaysBeforeMonth(year, InYear(year)[i]) == SumOfDays(InYear(year)[..i], year)
  {
    var ms := InYear(year);
    if i > 0 {
      DaysBeforeIsPrefixSum(year, i - 1);
      DaysBeforeStep(year, i - 1);
      assert ms[..i][..i - 1] == ms[..i - 1];
    }
  }

  /** The days of a year: the months of `InYear` sum to its length (year 0 has 385). */
  lemma {:induction false} MonthSum(year: int)
    ensures var total := SumOfDays(InYear(year), year);
            && (!IsLeapYear(year) ==> total in {353, 354, 355})
            && (IsLeapYear(year) ==> total in {383, 384, 385})
            && (year != 0 ==> total == YearSize(year))
            && total == DaysBeforeMonth(year, Elul) + Days(Elul, year)
  {
    var ms := InYear(year);
    var n := |ms| - 1;
    DaysBeforeIsPrefixSum(year, n);
    assert ms[..n + 1] == ms;
    assert ms[..n + 1][..n] == ms[..n];
    YearSizeLegal(year);
  }

  /** The months before `m` and `m` itself never reach past the end of the year. */
  lemma {:induction false} DaysBeforeBounds(year: int, m: Month)
    requires MonthInYear(m, year)
    ensures 0 <= DaysBeforeMonth(year, m)
    ensures DaysBeforeMonth(year, m) + Days(m, year) <= DaysBeforeMonth(year, Elul) + Days(Elul, year)
  {
  }

  /** Months later in the year start after earlier months end. */
  lemma {:induction false} DaysBeforeMonotone(year: int, m: Month, n: Month)
    requires MonthInYear(m, year) && MonthInYear(n, year)
    ensures Value(m) < Value(n) ==> DaysBeforeMonth(year, m) + Days(m, year) <= DaysBeforeMonth(year, n)
  {
  }

  /** A month compares equal to itself in every mode and both orders. */
  lemma CompareReflexive(m: Month, order: OrderType, a: ComparisonMode, b: ComparisonMode)
    ensures Compare(m, m, order, a, b) == 0
  {
  }

  /** `==` holds iff the months are the same, or both lie in the union of the two modes' sets. */
  lemma MonthEqMeaning(m: Month, n: Month, a: ComparisonMode, b: ComparisonMode)
    ensures MonthEq(m, n, a, b) <==> m == n || (Value(m) in Combined(a, b) && Value(n) in Combined(a, b))
  {
  }

  /** `==` is symmetric once the two modes are swapped along with the months. */
  lemma MonthEqSymmetric(m: Month, n: Month, a: ComparisonMode, b: ComparisonMode)
    ensures MonthEq(m, n, a, b) <==> MonthEq(n, m, b, a)
  {
    MonthEqMeaning(m, n, a, b);
    MonthEqMeaning(n, m, b, a);
    assert Combined(a, b) == Combined(b, a);
  }

  /**
   * The literal quirks of the modes: ADAR_IS_ANY on its own equates nothing
   * (its set is {-2}); combining ADAR_IS_ADAR_I with ADAR_IS_ADAR_II equates all
   * three Adars; in biblical order Adar and Adar I compare equal even strictly.
   */
  lemma ModeQuirks()
    ensures !MonthEq(Adar, AdarI, AdarIsAny, AdarIsAny) && !MonthEq(Adar, AdarII, AdarIsAny, AdarIsAny)
    ensures MonthEq(AdarI, AdarII, AdarIsAdarI, AdarIsAdarII)
    ensures MonthEq(Adar, AdarI, AdarIsAdarI, Strict) && !MonthEq(AdarI, AdarII, AdarIsAdarI, Strict)
    ensures Compare(Adar, AdarI, Biblical, Strict, Strict) == 0 && Adar != AdarI
    ensures Flag(AdarIsAdarI) + Flag(AdarIsAdarII) == Flag(AdarIsAny)
  {
  }

  /** In strict mode `<` is the calendar order; Adar I precedes Adar II. */
  lemma StrictOrder(m: Month, n: Month)
    ensures MonthLt(m, n, Strict, Strict) <==> Value(m) < Value(n)
    ensures MonthLe(m, n, Strict, Strict) <==> Value(m) <= Value(n)
    ensures MonthEq(m, n, Strict, Strict) <==> m == n
    ensures MonthLt(AdarI, AdarII, Strict, Strict) && MonthLt(Shvat, Adar, Strict, Strict)
  {
  }

  /** Comparing with the integer value of a month is a strict comparison. */
  lemma CompareToIntAgrees(m: Month, n: Month, order: OrderType)
    ensures CompareToInt(m, Ordinal(n, order), order) == Compare(m, n, order, Strict, Strict)
  {
  }

  /** `NextMonth` never leaves the months of the year. */
  lemma NextMonthStaysInYear(m: Month, year: int)
    requires MonthInYear(m, year)
    ensures MonthInYear(NextMonth(m, year), year)
  {
    NextMonthWalk(year, MonthIndex(year, m));
    InYearMembers(year, NextMonth(m, year));
  }
}
