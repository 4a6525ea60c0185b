# py-libhdate calendar core in Dafny

This project models the Hebrew-calendar core of py-libhdate and proves properties of that model. The core has three parts:

- **Calendar arithmetic** (`hdate/hebrew_date.py`):
  - the molad-based day count `_days_from_3744`, with its three Rosh Hashana postponement rules, and `year_size`;
  - the 19-year leap cycle;
  - the `Months` enumeration: lengths, `next_month`, `in_year`, and `compare` under the comparison modes;
  - the `HebrewDate` value: validation, `replace`, comparisons, addition by a month-walking loop, subtraction, `to_jdn` and `from_jdn`.
- **Rule tables** (`hdate/htables.py`):
  - `erange`;
  - the parasha reading table `PARASHA_SEQUENCES`, keyed by year-type signatures;
  - the guard factories of the holiday rows, and the `HOLIDAYS` rows themselves.
- **The `HDate` object** (`hdate/date.py`):
  - its Hebrew/Gregorian pair of cached fields;
  - the week-day remap, `is_shabbat`, `upcoming_shabbat` and `upcoming_shabbat_or_yom_tov`;
  - the `first_day`/`last_day` walks;
  - `get_reading`, which chooses the weekly Torah reading.

Modules, one file each:

| file | module | models |
|---|---|---|
| `calendar_math.dfy` | `CalendarMath` | parts of an hour, week-days, `is_leap_year`, `_days_from_3744`, `year_size`, `short_kislev`, `long_cheshvan` |
| `months.dfy` | `MonthOrdering` | `Months`, `ComparisonMode`, `next_month`, `in_year`, `days`, `compare`, `==`/`<`/`<=` |
| `hebrew_date.dfy` | `HebrewDates` | `HebrewDate`: `_validate`, `replace`, comparisons, `+`, `-`, `to_jdn`, `from_jdn`, `dow` |
| `parasha_table.dfy` | `ParashaTable` | `erange`, `Parasha`, `PARASHA_SEQUENCES` |
| `holiday_table.dfy` | `HolidayTable` | htables.py's `Months` numbers, the guard factories, `Holiday`, `HOLIDAYS` |
| `hdate.dfy` | `HDates` | `HDate` and its Shabbat, Yom Tov and reading logic |
| `wrappers.dfy` | `Wrappers` | an `Option` type |

Conventions of the model:

- **Months are symbolic.** There is one `Month` datatype. hebrew_date.py numbers the months with Adar = 6, Adar I = 7 and Nisan = 9 (`MonthOrdering.Value`). htables.py numbers them with Nisan = 7 and Adar I = 13 (`HolidayTable.TableValue`). The two numberings are kept apart and named wherever the source mixes them.
- **Gregorian dates are Julian day numbers.** `datetime.date.weekday()` is the day number mod 7, since day 0 of the count is a Monday.
- **Python floor division matches Dafny.** The source's `//` and `%` have positive divisors, and for those Python's floor division agrees with Dafny's Euclidean `/` and `%`. This holds even for the negative offsets that year 0 and years before 3744 produce.
- **Errors are values.** A raised exception becomes the error half of a `Result`: the `ValueError`s of validation, the `StopIteration` of `next` and the `IndexError` of indexing past the readings.
- **Imperative code stays imperative.** The source's loops are `method`s with `while` loops and invariants: `HebrewDates.ToJdn`, `HebrewDates.WalkDays` (the loop of `__add__`), `HDates.FirstDay` and `HDates.LastDay`. Two more operations are methods without a loop of their own:
  - `HebrewDates.Add` validates the date and then runs `WalkDays`;
  - `HebrewDates.FromJdn` calls `ToJdn` and `Add`.
- **`HDate` is a class.** Its setters are methods that change its fields.
- **Where code and docs disagree, the model follows the code.** `erange`'s docstring says the range is exclusive. The code includes the end, and so does the model. The docstrings of `first_day` and `last_day` say a day that is neither Yom Tov nor Shabbat is returned as it is. The code looks only at the neighbouring days, so a plain Sunday after Shabbat gets the Saturday back. `HDates.FirstDay` and `HDates.LastDay` follow the code; see "## Findings".

## Model

| member | source | states |
|---|---|---|
| CalendarMath.Chalakim | hdate/hebrew_date.py:16-18 | For hours ≥ 0 and parts in 0..1079, the part count splits back into exactly those hours and parts. |
| CalendarMath.ConstantsAgree | hdate/hebrew_date.py:21-24 | A day is 24 hours of 1080 parts. A week is 7 days. A month is one day plus 12 hours 793 parts beyond 28 days. The molad and threshold constants are the named hour/part pairs. |
| CalendarMath.Postponement | hdate/hebrew_date.py:354-374 | The postponement rules (GaTaRaD, BeTUTaKPaT, Lo ADU Rosh) add 0, 1 or 2 days to the molad's day. |
| CalendarMath.LeapAgreesWithCycle | hdate/hebrew_date.py:336-340 | A year is leap exactly when the `leap_left` of `_days_from_3744` is at least 12. This ties `is_leap_year` to the molad count. |
| CalendarMath.YearSizeLegal | hdate/hebrew_date.py:329-383 | For every integer year, `year_size` is 353, 354 or 355 in a common year and 383, 384 or 385 in a leap year. |
| CalendarMath.YearSizeShape | hdate/hebrew_date.py:329-383 | The same bounds. Also, a leap year whose Rosh Hashana starts on Tuesday never has 385 days. |
| CalendarMath.NewYearWeekday | hdate/hebrew_date.py:329-377 | Rosh Hashana's week-day `(jdn + 1) % 7 + 1` is always Monday, Tuesday, Thursday or Saturday, never Sunday, Wednesday or Friday. |
| CalendarMath.YearKinds | hdate/hebrew_date.py:329-383 | The Rosh Hashana week-day limits the year's length: Monday or Saturday allow 353, 355, 383 or 385 days; Tuesday allows 354 or 384; Thursday allows 354, 355, 383 or 385. |
| MonthOrdering.MonthOf | hdate/hebrew_date.py:79-95 | `Months(v)` names a month exactly for v in 1..14, and that month's value is v. |
| MonthOrdering.ValueBijective | hdate/hebrew_date.py:79-95 | Each month has one value in 1..14, distinct months have distinct values, and the value maps back to the month. |
| MonthOrdering.LeapYearRule | hdate/hebrew_date.py:74-76 | A year is leap iff (7·year + 1) mod 19 < 7, and leap years repeat every 19 years. |
| MonthOrdering.LeapResidues | hdate/hebrew_date.py:74-76 | The residues 0, 3, 6, 8, 11, 14, 17 are exactly those r with (7r + 1) mod 19 < 7. |
| MonthOrdering.InYear | hdate/hebrew_date.py:126-131 | A leap year has 13 months: Adar I and Adar II but no Adar. A common year has 12: Adar but neither Adar I nor Adar II. Both start at Tishrei and end at Elul. |
| MonthOrdering.InYearOrdered | hdate/hebrew_date.py:126-131 | `in_year` lists its months in increasing calendar value. |
| MonthOrdering.InYearMembers | hdate/hebrew_date.py:126-131 | A month is in `in_year(y)` exactly when it is not the Adar that the year's leap status excludes. |
| MonthOrdering.MonthLengths | hdate/hebrew_date.py:82-95 | Fixed lengths: 30 days for Tishrei, Shvat, Adar I, Nisan, Sivan and Av; 29 for Tevet, Adar, Adar II, Iyyar, Tammuz and Elul. Marcheshvan has 30 days iff `long_cheshvan` or year 0. Kislev has 29 iff `short_kislev` and year ≠ 0. |
| MonthOrdering.ShortKislevExcludesLongCheshvan | hdate/hebrew_date.py:64-71 | No year has both a short Kislev and a long Cheshvan. |
| MonthOrdering.NextMonthWalk | hdate/hebrew_date.py:116-124 | `next_month` takes each month of `in_year` to the one after it, and Elul to Tishrei. So the walk from Tishrei visits exactly the year's months, in order. |
| MonthOrdering.NextMonthStaysInYear | hdate/hebrew_date.py:116-124 | `next_month` of a month of the year is a month of the year. |
| MonthOrdering.DaysBeforeIsPrefixSum | hdate/hebrew_date.py:290-298 | The days before a month equal the sum of the lengths of the months before it in `in_year`. This is what `to_jdn`'s loop adds up. |
| MonthOrdering.DaysBeforeBounds | hdate/hebrew_date.py:290-298 | Every month of the year begins at or after the start of the year and ends by the end of Elul. |
| MonthOrdering.DaysBeforeMonotone | hdate/hebrew_date.py:290-298 | A month with a smaller value ends before a later month of the same year begins. |
| MonthOrdering.MonthSum | hdate/hebrew_date.py:126-139 | The month lengths of a year add up to 353..355, or 383..385 in a leap year, and to `year_size` for every year except 0. |
| MonthOrdering.CompareReflexive | hdate/hebrew_date.py:145-166 | `compare(m, m)` is 0 for every pair of modes and both orders. |
| MonthOrdering.MonthEqMeaning | hdate/hebrew_date.py:145-171 | Two months are `==` iff they are the same month, or both values lie in the union of the two modes' equal sets. |
| MonthOrdering.MonthEqSymmetric | hdate/hebrew_date.py:145-171 | `==` is symmetric once each month keeps its own mode. |
| MonthOrdering.ModeQuirks | hdate/hebrew_date.py:39-61 | ADAR_IS_ANY's set is `{6 - 8}` = {-2}, so it equates no Adars. ADAR_IS_ADAR_I equates Adar with Adar I, even against a strict month. The two single flags add up to ADAR_IS_ANY's. In biblical order, Adar and Adar I compare equal. |
| MonthOrdering.StrictOrder | hdate/hebrew_date.py:168-181 | Under strict modes, `<` and `<=` follow the calendar values and `==` is identity. |
| MonthOrdering.CompareToIntAgrees | hdate/hebrew_date.py:145-166 | Comparing with a plain integer gives the same result as comparing with the month of that ordinal under strict modes. |
| HebrewDates.Validate | hdate/hebrew_date.py:209-220 | A successful validation returns the date unchanged. |
| HebrewDates.ValidationMeaning | hdate/hebrew_date.py:209-220 | A date is valid iff (year 0 or its month is in `in_year`) and 1 ≤ day ≤ the month's length. A month outside the year is reported before a bad day. |
| HebrewDates.FromValues | hdate/hebrew_date.py:200-220 | Construction from a month number fails with `NoSuchMonth` outside 1..14. Otherwise it succeeds exactly when the date validates, keeping the given year, month and day. |
| HebrewDates.Replace | hdate/hebrew_date.py:222-231 | `replace` succeeds iff the original date is valid: the original is validated, not the copy. The copy carries the replaced fields and the original's others. On failure the error is the original's validation error. |
| HebrewDates.RelativeComparison | hdate/hebrew_date.py:239-256 | When either year is 0, `==` and `<` compare month and day only. Two different non-zero years are never `==`, and `<` follows the years. |
| HebrewDates.StrictComparison | hdate/hebrew_date.py:239-256 | For non-zero years under strict modes, `<` is lexicographic order on (year, month, day), `==` is identity, and `<=` is `<` or `==`. |
| HebrewDates.ComparisonAgreesWithJdn | hdate/hebrew_date.py:239-256 | On valid dates of years ≥ 1, `<` and `==` agree with the order of their Julian day numbers. |
| HebrewDates.ToJdn | hdate/hebrew_date.py:290-298 | The month-walking loop returns the Julian day number: `_days_from_3744`, plus the days of the earlier months, plus the day, plus 1715118. |
| HebrewDates.Sub | hdate/hebrew_date.py:274-285 | For two non-zero years the difference is the difference of their Julian day numbers. |
| HebrewDates.SubOfDatedYears | hdate/hebrew_date.py:274-285 | For valid dates of years ≥ 1, subtraction terminates and yields the Julian day number difference. |
| HebrewDates.SubAntisymmetric | hdate/hebrew_date.py:274-285 | a − b = −(b − a), and a − b is 0 iff a and b are the same date. |
| HebrewDates.SubRelative | hdate/hebrew_date.py:274-285 | A year-0 date minus a dated one is taken in the other date's year. It is defined iff the date is valid in that year. |
| HebrewDates.SubFromRelative | hdate/hebrew_date.py:274-285 | A dated date minus a year-0 one takes the latter in the former's year. It is defined iff that date is valid there, and it is then the difference of Julian day numbers in that year. |
| HebrewDates.SubBothRelative | hdate/hebrew_date.py:274-285 | Two year-0 dates are compared in year 0. The difference is defined iff both are valid, and the first date's validation error comes first. |
| HebrewDates.JdnAcrossMonth | hdate/hebrew_date.py:262-271 | Day 0 of the next month, as the addition loop writes it, is the same day as the last day of the current month. |
| HebrewDates.MonthStep | hdate/hebrew_date.py:262-271 | One pass of the addition loop keeps `jdn(current) + days remaining` unchanged and does not lower the year. |
| HebrewDates.WalkDays | hdate/hebrew_date.py:262-271 | The loop of `__add__`:<br>- if n fits in the rest of the month, only the day changes, negative n included;<br>- for n ≥ 0 it ends on a valid date;<br>- for years ≥ 1 the Julian day number grows by exactly n. |
| HebrewDates.Add | hdate/hebrew_date.py:258-272 | `d + n`:<br>- an invalid d fails with its validation error;<br>- if n fits in the month, only the day changes;<br>- for n ≥ 0 the result is valid and n days later;<br>- for years ≥ 1, `(d + n) - d == n`. |
| HebrewDates.NewYearIncreasing | hdate/hebrew_date.py:329-383 | Rosh Hashana's Julian day number strictly increases with the year. |
| HebrewDates.JdnWithinYear | hdate/hebrew_date.py:290-298 | A valid date's Julian day number lies between its year's Rosh Hashana and the next one. |
| HebrewDates.JdnOrder | hdate/hebrew_date.py:290-298 | For dates of years ≥ 1, lexicographic order is Julian day order, and `to_jdn` is injective. |
| HebrewDates.DateOfJdn | hdate/hebrew_date.py:300-317 | Every Julian day from Rosh Hashana of year 1 on is the Julian day number of a valid Hebrew date. |
| HebrewDates.DateOfJdnInverse | hdate/hebrew_date.py:300-317 | `from_jdn(to_jdn(d)) == d` for every valid date of a year ≥ 1. |
| HebrewDates.FromJdn | hdate/hebrew_date.py:300-317 | Given a year guess that is the day's own Hebrew year or the year before it, `from_jdn` returns the date whose `to_jdn` is the input. |
| HebrewDates.RoshHashanaWeekday | hdate/hebrew_date.py:379-397 | `dow` of 1 Tishrei is Monday, Tuesday, Thursday or Saturday. A leap year starting on Tuesday never has 385 days. `year_size` is the gap between consecutive 1 Tishrei. |
| HebrewDates.PesachOffset | hdate/hebrew_date.py:290-298 | 15 Nisan falls `year_size − 163` days after Rosh Hashana. |
| ParashaTable.AllParashot | hdate/htables.py:28-92 | `Parasha` has 62 members, numbered 0 to 61 in declaration order. |
| ParashaTable.ERange | hdate/htables.py:14-25 | `erange(a, b)` lists the members from a through b inclusive. It is empty when a comes after b. |
| ParashaTable.ERangeMembers | hdate/htables.py:14-25 | x is in `erange(a, b)` iff its position lies between a's and b's. |
| ParashaTable.RunIsERange | hdate/htables.py:14-25 | Over `Parasha`, `erange(a, b)` is the run of consecutive members a, a+1, …, b. |
| ParashaTable.FamilyIndex | hdate/date.py:284-286 | `next(...)` yields the first item of the table whose key tuple contains the year type. |
| ParashaTable.ReadingsFor | hdate/date.py:284-286 | The lookup finds nothing (`StopIteration`) exactly when no key tuple lists the year type. Otherwise it yields the readings of an item that lists it. |
| ParashaTable.KeysDistinct | hdate/htables.py:95-353 | No year type appears in the key tuples of two items. |
| ParashaTable.ReadingsForItem | hdate/htables.py:95-353 | A listed year type yields the readings of the item that lists it. |
| ParashaTable.KeyShapes | hdate/htables.py:95-353 | Every key is 0 or 1000 (diaspora) plus one of 14 year kinds: hundreds digit in {2, 3, 5, 7}, tens digit in {0, 1, 2}. |
| ParashaTable.ReadingsForEveryKind | hdate/htables.py:95-353 | For each legal pair of Rosh Hashana week-day and year length, in both Israel and the diaspora, the signature is listed. Its readings hold one entry per Shabbat of the year. |
| ParashaTable.OpeningWeeks | hdate/htables.py:95-353 | The first readings follow the Rosh Hashana week-day: Vayeilech, Haazinu for Monday or Tuesday; Haazinu, none for Thursday; none, Haazinu, none for Saturday. |
| HolidayTable.ViewOf | hdate/htables.py:414-426 | A guard sees the Hebrew date and the Python week-day (0..6) of its Gregorian day; that week-day is the date's `dow` shifted to Python's count (Monday = 0). |
| HolidayTable.NotRoshChodeshMeaning | hdate/htables.py:443-445 | `not_rosh_chodesh` is false exactly on 1 Tishrei. |
| HolidayTable.NotRoshChodeshNumbersAgree | hdate/htables.py:443-445 | Comparing by htables.py's numbers picks the same month as comparing by name. |
| HolidayTable.LegalMonthLengthMeaning | hdate/htables.py:448-472 | For non-zero years, `legal_month_length` holds iff the day is 29, or the day is 30 in a 30-day month. It is false on day 1. |
| HolidayTable.LegalMonthLengthNumbersAgree | hdate/htables.py:448-472 | The number comparison happens to pick the same months as the intended names: the six htables numbers name the same six 30-day months in hebrew_date.py's numbering. |
| HolidayTable.CorrectAdarMeaning | hdate/htables.py:429-440 | `correct_adar` with months compared by name holds iff the month is in the year's `in_year`. |
| HolidayTable.CorrectAdarAsWrittenMeaning | hdate/htables.py:429-440 | As written, the guard takes Av and Elul (13, 14) for Adar I and Adar II, so it holds for them only in leap years. Adar itself is judged correctly. |
| HolidayTable.MovesObservedOnce | hdate/htables.py:414-426 | For consistent moves, the combined `move_if_not_on_dow` guard holds on exactly one day of the month, the observed day. |
| HolidayTable.SingleMove | hdate/htables.py:414-426 | One move alone is the `move_if_not_on_dow` lambda. |
| HolidayTable.MoveGuardsOfRows | hdate/htables.py:502-711 | Every guard of `HOLIDAYS` built from `move_if_not_on_dow` is one of ten, in rows 4, 17, 26, 27, 31, 32, 34, 35, 36 and 45. |
| HolidayTable.RowMovesWellFormed | hdate/htables.py:502-711 | In every row, each move's replacement week-day is the avoided week-day shifted by the distance moved. The original and replacement days are among the row's days. |
| HolidayTable.RowObservedOnce | hdate/htables.py:502-711 | In every row with moves, the intended guard holds on exactly one of the row's days in a given month. |
| HolidayTable.RoshChodeshRowShape | hdate/htables.py:704-710 | The `rosh_chodesh` row: days 1 and 30, all months, everywhere, guarded by `correct_adar`, `legal_month_length` and `not_rosh_chodesh`. |
| HolidayTable.RoshChodeshRow | hdate/htables.py:704-710 | With the intended guards, a valid date of a non-zero year matches `rosh_chodesh` iff its day is 30. |
| HolidayTable.RoshChodeshRowAsWritten | hdate/htables.py:704-710 | As written, a valid date matches iff its day is 30 and, when the month is Av, the year is leap. |
| HolidayTable.RoshChodeshAv5785 | hdate/htables.py:429-440 | 30 Av 5785 is valid. It matches `rosh_chodesh` under the intended guards but not as written. |
| HolidayTable.ChanukahRows | hdate/htables.py:532-549 | The two Chanukah rows match Kislev 25–30 and Tevet 1–2, plus Tevet 3 only in a short-Kislev year. |
| HolidayTable.ChanukahEightDays | hdate/htables.py:532-549 | On valid dates, Chanukah is exactly the eight days starting at 25 Kislev. |
| HolidayTable.IndependenceDayOnSaturday | hdate/htables.py:599-610 | After 5763, when 5 Iyyar is a Saturday the row as written observes that Saturday, not 3 or 4 Iyyar. The intended guard moves it to 3 Iyyar. |
| HolidayTable.IndependenceDayAsWritten | hdate/htables.py:599-610 | As written, the `or` of the moves keeps the first move: Saturday 5 Iyyar matches, and 3 and 4 Iyyar do not. |
| HolidayTable.IndependenceDayAsIntended | hdate/htables.py:599-610 | With every move in force, Saturday 5 Iyyar moves to Thursday 3 Iyyar. |
| HolidayTable.IndependenceDay5785 | hdate/htables.py:599-610 | 5 Iyyar 5785 is a Saturday. It matches the row as written but not as intended. |
| HDates.FirstNewYearBeforeGregorian | hdate/date.py:32-51 | Rosh Hashana of year 1 (Julian day 347998) precedes every `datetime.date`, so any Gregorian date converts to a year ≥ 1. |
| HDates.DowOfWeekday | hdate/date.py:149-156 | The remap w ↦ w + 2 (w ≠ 6), 6 ↦ 1 equals (w + 1) mod 7 + 1. |
| HDates.DowAgrees | hdate/date.py:149-156 | `HDate.dow` equals `HebrewDate.dow` of the same day. |
| HDates.ShabbatIsSaturday | hdate/date.py:120-127 | `is_shabbat` (weekday 5) holds iff `dow` is Saturday. |
| HDates.UpcomingShabbat | hdate/date.py:176-186 | `upcoming_shabbat` is the first Shabbat on or after the day, at most six days ahead. It is the day itself iff the day is Shabbat. |
| HDates.ShabbatAhead | hdate/date.py:176-186 | Off Shabbat, advancing `(12 − weekday) % 7` days lands on Shabbat with no Shabbat in between. |
| HDates.UpcomingShabbatOrYomTov | hdate/date.py:188-202 | The result is the first Shabbat or Yom Tov on or after the day. |
| HDates.FirstDay | hdate/date.py:204-217 | The backward walk ends at a day whose previous day is neither Yom Tov nor Shabbat. Every day from there to the start is one. The result is the day itself iff its previous day is neither. |
| HDates.LastDay | hdate/date.py:219-232 | The forward walk ends at a day whose next day is neither Yom Tov nor Shabbat. Every day after the start up to there is one. The result is the day itself iff its next day is neither. |
| HDates.FirstDayAsDocumented | hdate/date.py:206-213 | As the docstring describes: a day that is neither Yom Tov nor Shabbat is returned unchanged. A day off yields the first day of its run of days off. |
| HDates.LastDayAsDocumented | hdate/date.py:221-228 | As the docstring describes: a day that is neither Yom Tov nor Shabbat is returned unchanged. A day off yields the last day of its run of days off. |
| HDates.ShabbatNeighbours | hdate/date.py:214-216 | The day before is Shabbat iff the day is a Sunday, and the day after is Shabbat iff it is a Friday. Neither such day is Shabbat itself. |
| HDates.HDate.FromGregorian | hdate/date.py:32-51 | Built from a Gregorian day, the object stores that day and marks "gdate". Its Hebrew date is `from_jdn` of the day. |
| HDates.HDate.FromHebrew | hdate/date.py:32-51 | Built from a Hebrew date, the object stores that date and marks "hdate". Its Gregorian day is the date's `to_jdn`. |
| HDates.HDate.HebrewDateOf | hdate/date.py:68-77 | The `hdate` getter returns a valid date of a year ≥ 1. |
| HDates.HDate.GregorianDateOf | hdate/date.py:89-94 | The `gdate` getter returns the stored day when "gdate" was set last. |
| HDates.HDate.ViewsAgree | hdate/date.py:68-94 | The two getters describe the same day: `to_jdn(hdate) == gdate`. |
| HDates.HDate.SetHebrewDate | hdate/date.py:79-86 | The setter stores the date and marks "hdate", leaving the other fields alone. Reading `hdate` back returns that date, and `gdate` returns its Julian day number. |
| HDates.HDate.SetGregorianDate | hdate/date.py:96-100 | The setter stores the day and marks "gdate", leaving the other fields alone. Reading `gdate` back returns that day, and `hdate` returns its conversion. |
| HDates.SetThenRead | hdate/date.py:68-100 | Converting either way and back returns what was set. |
| HDates.SignatureListed | hdate/date.py:251-259 | Every year's signature, in Israel or the diaspora, is in the table. Its readings hold one entry per Shabbat of the year. |
| HDates.RoshHashanaKind | hdate/date.py:251-259 | Every year's Rosh Hashana week-day and length form one of the table's 14 year kinds. |
| HDates.PesachWeekday | hdate/date.py:251-259 | The Pesach digit of the signature follows from the Rosh Hashana week-day and the year length. |
| HDates.WeekPosition | hdate/date.py:263-266 | `(days + dow(RH) − 1) mod 7` is the date's own week-day, so `weeks` counts Sunday-to-Saturday weeks from the week of Rosh Hashana. |
| HDates.DaysSinceNewYearBounds | hdate/date.py:263-264 | `days` lies in 0 .. `year_size` − 1. |
| HDates.ShabbatWeekInRange | hdate/date.py:263-295 | A Shabbat's week index always lies inside the year's readings. |
| HDates.ShabbatReading | hdate/date.py:268-295 | On Shabbat, the reading is Vezot Habracha in the Simchat Torah cases and `readings[weeks]` otherwise. |
| HDates.LateDaysReadNextYear | hdate/date.py:288-294 | A day past the year's readings is not Shabbat, and its coming Shabbat lies in the next year. Outside the Simchat Torah cases, its reading is that Shabbat's. |
| HDates.GetReadingTotal | hdate/date.py:249-295 | `get_reading` never raises, neither `StopIteration` nor `IndexError`, on any valid date of a year ≥ 1. |
| HDates.WeekdayReadsComingShabbat | hdate/date.py:249-295 | Outside the Simchat Torah cases, a weekday reads the reading of its coming Shabbat in the same year. |
| HDates.SameWeekAsComingShabbat | hdate/date.py:263-266 | A day and its coming Shabbat in the same year have the same week index. |

## Left out

- Display and I/O are not modelled:
  - `hdate/translator.py`, `utils/translations.py`, the `__str__` methods and `hebrew_number`;
  - `DIGITS`, `LANG`/`DESC`/`DAYS` and `get_all_holidays`;
  - the `parasha` and `hebrew_date` string properties;
  - logging.
- The Omer and Daf Yomi properties and tables are not part of this model. Their lookup code lies outside the core.
- `hdate.converters` (Gregorian ↔ Julian day) is not part of this model. A Gregorian date is its Julian day number, and its week-day is the number mod 7. The `datetime.date` range is the predicate `HDates.IsGregorianDay`.
- `hdate/holidays.py` (the holiday database and its `lookup`) is not part of this model, so two things are assumptions of the model:
  - `HolidayTable.Matches` takes a row to match when day and month are in its pattern, its scope admits the flag, and every guard holds;
  - "is Yom Tov" is a parameter `isYomTov` over Julian days, and `upcoming_yom_tov` is the parameter `nextYomTov` of `HDates.UpcomingShabbatOrYomTov`.
- `hdate/parasha.py` is not part of this model. `get_reading` (hdate/date.py:19, 284-286) reads `PARASHA_SEQUENCES` from that file. The model reads the table of hdate/htables.py:95-353 instead and assumes the two are equal. HDates.GetReading, HDates.GetReadingTotal and HDates.SignatureListed hold under that assumption.
- HolidayTable.MatchesAsWritten: it compares a row's month pattern (`month in h.months`) by name, as `HolidayTable.Matches` does. The comparison happens in the lookup of `hdate/holidays.py`, which is outside this model. Only the guards of hdate/htables.py, whose code is in the model, are modelled with the numeric comparison.
- HebrewDates.Replace: the keyword values are typed (`Option<int>`, `Option<Month>`). The source's `setattr` copy does no conversion. An integer `month=` staying an int, or an unknown keyword becoming a new attribute, is not modelled.
- `set_comparison_mode` and `ComparisonMode.__or__` write to shared enumeration members. The model passes each month's mode as an explicit parameter, and the union of two modes is a pure set union.
  - The validation and `to_jdn` loops compare months under strict modes.
  - A non-strict mode set globally could make `in_year` membership accept an Adar of the wrong kind; that effect is not modelled.
- `Months.__add__` is not modelled; only `next_month`'s `self._value_ + 1` is.
- `Months.days(None)`, which raises `ValueError` for the two variable months, is not modelled. Every call in the core passes a year.
- The `TypeError`s of `erange` (members of different enumerations), of the `hdate` setter (a value that is not a `HebrewDate`) and of the `NotImplemented` returns of the operators are excluded by the model's types.
- Dates of year 0 inside `HDate` are not modelled; the object holds dates of years ≥ 1.
- ParashaTable.ERange: it is generic over a sequence of members, not over Python `Enum` classes.
- HebrewDates.ToJdn: it requires the month to be in `in_year(year)`. Otherwise the source's loop never ends.
- HebrewDates.FromJdn: it takes the converter's year guess as a parameter. It requires that Rosh Hashana of the guess is at most the day, and the day is before Rosh Hashana two years on. This is what the Gregorian year + 3760 guarantees.
- HebrewDates.Sub: its `ensures` covers two non-zero years. The year-0 cases are lemmas: `HebrewDates.SubRelative` covers the relative-minus-dated case, `HebrewDates.SubFromRelative` the dated-minus-relative case, and `HebrewDates.SubBothRelative` two relative dates. The last requires `to_jdn` to end, as `Sub` does. Validation of year 0 skips the `in_year` test, so a valid year-0 date in a month outside year 0 would make the source's loop run forever.
- HDates.GetReading: it requires a valid date of a year ≥ 1.
- HDates.FirstDay: it requires some earlier day that is neither Yom Tov nor Shabbat. Without one the source's loop never ends.
- HDates.LastDay: it requires some later day that is neither Yom Tov nor Shabbat. Without one the source's loop never ends.
- HDates.HDate.FromHebrew and HDates.HDate.SetHebrewDate: they accept any valid date of a year ≥ 1. The source converts it with `to_gdate` (hdate/date.py:49, 94), which fails when the day lies outside `datetime.date`'s range (`HDates.IsGregorianDay`). That failure is not modelled.
- HolidayTable.RoshChodeshRow: the row matches only day 30, because `legal_month_length` is false on day 1. Day 1 of a month is therefore never Rosh Chodesh through this row. Whether the holiday database adds it by other means lies outside this model, so it is not claimed as a finding.

## Findings

| source | as written | input that shows it | evidently intended | confidence | as-written member | corrected member |
|---|---|---|---|---|---|---|
| hdate/htables.py:429-440 | `correct_adar` compares a hebrew_date.py month (Av = 13, Elul = 14) with htables.py's `ADAR_I` = 13 and `ADAR_II` = 14 by number, so Av and Elul count as Adar I/II and pass only in leap years. This rests on two premises about the object that hdate/holidays.py (outside this model) passes in: its `hdate.month` is a hebrew_date.py `Months`, whose `__eq__` compares numbers, and its `is_leap_year` tells whether the year is leap (the `HDate` of hdate/date.py has no such attribute) | 30 Av 5785, a common year, fails the guard, so the `rosh_chodesh` row (lines 704-710) does not match it | compare months by name: the guard holds iff the month belongs to the year | low, since it depends on the two premises; not executed | HolidayTable.RoshChodeshAv5785 | HolidayTable.RoshChodeshRow |
| hdate/htables.py:599-610 | `move_if_not_on_dow(5, 4, 4, 3) or move_if_not_on_dow(5, 3, 5, 3) or ...` evaluates to the first lambda, since a function is truthy, so only the Friday move is in force | 5 Iyyar 5785 is a Saturday (weekday 5): the row matches that Saturday and not Thursday 3 Iyyar | every move in force: a Saturday 5 Iyyar moves to Thursday 3 Iyyar | high; not executed | HolidayTable.IndependenceDay5785 | HolidayTable.RowObservedOnce |
| hdate/date.py:204-232 | `first_day` walks back while the previous day is Yom Tov or Shabbat, and `last_day` walks on while the next day is. Neither looks at the day itself, yet both docstrings say a day that is neither is returned unchanged | a Sunday that is not Yom Tov, after a Shabbat: `first_day` returns the Saturday before it. A Friday that is not Yom Tov, before a Shabbat: `last_day` returns the Saturday after it | a day that is neither Yom Tov nor Shabbat is its own first and last day | medium, since the docstring may be what is wrong; not executed | HDates.FirstDay, HDates.LastDay | HDates.FirstDayAsDocumented, HDates.LastDayAsDocumented |
