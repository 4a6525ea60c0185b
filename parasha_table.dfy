/**
 * The weekly Torah readings of hdate/htables.py: the `Parasha` enumeration,
 * the `erange` helper that expands a run of enumeration members, and the
 * table of reading sequences keyed by year type.
 *
 * A year type is the four-digit signature 1000 * diaspora + 100 * (week-day of
 * Rosh Hashana) + 10 * (year length mod 10, minus 3) + (week-day of 15 Nisan);
 * each family of signatures shares one sequence, whose entry `w` is the
 * reading of the Shabbat in week `w` after Rosh Hashana.
 */
module ParashaTable {
  import opened Wrappers

  /** `Parasha` is an integer enumeration: its members are the numbers 0 to 61. */
  type Parasha = p: int | 0 <= p <= 61

  const NoParasha: Parasha := 0
  const Bereshit: Parasha := 1
  const Noach: Parasha := 2
  const LechLecha: Parasha := 3
  const Vayera: Parasha := 4
  const ChayeiSara: Parasha := 5
  const Toldot: Parasha := 6
  const Vayetzei: Parasha := 7
  const Vayishlach: Parasha := 8
  const Vayeshev: Parasha := 9
  const Miketz: Parasha := 10
  const Vayigash: Parasha := 11
  const Vayechi: Parasha := 12
  const Shemot: Parasha := 13
  const Vaera: Parasha := 14
  const Bo: Parasha := 15
  const Beshalach: Parasha := 16
  const Yitro: Parasha := 17
  const Mishpatim: Parasha := 18
  const Terumah: Parasha := 19
  const Tetzaveh: Parasha := 20
  const KiTisa: Parasha := 21
  const Vayakhel: Parasha := 22
  const Pekudei: Parasha := 23
  const Vayikra: Parasha := 24
  const Tzav: Parasha := 25
  const Shmini: Parasha := 26
  const Tazria: Parasha := 27
  const Metzora: Parasha := 28
  const AchreiMot: Parasha := 29
  const Kedoshim: Parasha := 30
  const Emor: Parasha := 31
  const Behar: Parasha := 32
  const Bechukotai: Parasha := 33
  const Bamidbar: Parasha := 34
  const Nasso: Parasha := 35
  const Behaalotcha: Parasha := 36
  const Shlach: Parasha := 37
  const Korach: Parasha := 38
  const Chukat: Parasha := 39
  const Balak: Parasha := 40
  const Pinchas: Parasha := 41
  const Matot: Parasha := 42
  const Masei: Parasha := 43
  const Devarim: Parasha := 44
  const Vaetchanan: Parasha := 45
  const Eikev: Parasha := 46
  const Reeh: Parasha := 47
  const Shoftim: Parasha := 48
  const KiTeitzei: Parasha := 49
  const KiTavo: Parasha := 50
  const Nitzavim: Parasha := 51
  const Vayeilech: Parasha := 52
  const Haazinu: Parasha := 53
  const VezotHabracha: Parasha := 54
  const VayakhelPekudei: Parasha := 55
  const TazriaMetzora: Parasha := 56
  const AchreiMotKedoshim: Parasha := 57
  const BeharBechukotai: Parasha := 58
  const ChukatBalak: Parasha := 59
  const MatotMasei: Parasha := 60
  const NitzavimVayeilech: Parasha := 61

  /** The members of `Parasha` in definition order: each at its own number. */
  function AllParashot(): (r: seq<Parasha>)
    ensures |r| == 62 && forall i :: 0 <= i < 62 ==> r[i] == i
  {
    seq(62, i requires 0 <= i < 62 => i as Parasha)
  }

  // ---------------------------------------------------------------------
  // erange
  // ---------------------------------------------------------------------

  /** Python's `list.index`: the position of the first occurrence of `x`. */
  function IndexOf<T(==)>(members: seq<T>, x: T): (i: nat)
    requires x in members
    ensures i < |members| && members[i] == x && x !in members[..i]
  {
    if members[0] == x then 0
    else
      assert members == [members[0]] + members[1..];
      1 + IndexOf(members[1..], x)
  }

  /**
   * `erange(start, end)`: the members of the enumeration from `start` through
   * `end`, both included, in definition order; nothing when `start` comes
   * after `end`.
   */
  function ERange<T(==)>(members: seq<T>, start: T, end: T): (r: seq<T>)
    requires start in members && end in members
    ensures |r| == if IndexOf(members, start) <= IndexOf(members, end)
                   then IndexOf(members, end) - IndexOf(members, start) + 1 else 0
    ensures forall k :: 0 <= k < |r| ==> r[k] == members[IndexOf(members, start) + k]
  {
    var startIdx := IndexOf(members, start);
    var endIdx := IndexOf(members, end) + 1;
    if startIdx <= endIdx then members[startIdx..endIdx] else []
  }

  /** On distinct members, `erange` keeps exactly those between its two ends. */
  lemma ERangeMembers<T>(members: seq<T>, start: T, end: T, x: T)
    requires start in members && end in members
    requires forall i, j :: 0 <= i < j < |members| ==> members[i] != members[j]
    ensures x in ERange(members, start, end) <==>
              x in members && IndexOf(members, start) <= IndexOf(members, x) <= IndexOf(members, end)
  {
    if x in ERange(members, start, end) {
      ERangeMemberBetween(members, start, end, x);
    }
    if x in members && IndexOf(members, start) <= IndexOf(members, x) <= IndexOf(members, end) {
      var r := ERange(members, start, end);
      var i := IndexOf(members, x);
      var s := IndexOf(members, start);
      assert r[i - s] == members[i];
    }
  }

  /** A member `erange` returns lies between its two ends. */
  lemma ERangeMemberBetween<T>(members: seq<T>, start: T, end: T, x: T)
    requires start in members && end in members
    requires forall i, j :: 0 <= i < j < |members| ==> members[i] != members[j]
    requires x in ERange(members, start, end)
    ensures x in members && IndexOf(members, start) <= IndexOf(members, x) <= IndexOf(members, end)
  {
    var r := ERange(members, start, end);
    var s := IndexOf(members, start);
    var e := IndexOf(members, end);
    var k :| 0 <= k < |r| && r[k] == x;
    assert s <= e && |r| == e - s + 1;
    assert x == members[s + k];
    IndexOfDistinct(members, s + k);
    assert IndexOf(members, x) == s + k;
  }

  lemma IndexOfDistinct<T>(members: seq<T>, i: int)
    requires forall i, j :: 0 <= i < j < |members| ==> members[i] != members[j]
    requires 0 <= i < |members|
    ensures IndexOf(members, members[i]) == i
  {
    var j := IndexOf(members, members[i]);
  }

  /** Every parasha is at its own number in the enumeration. */
  lemma {:induction false} ParashaIndex(p: Parasha)
    ensures p in AllParashot() && IndexOf(AllParashot(), p) == p
  {
    assert AllParashot()[p] == p;
    var i := IndexOf(AllParashot(), p);
    assert AllParashot()[i] == i;
  }

  /**
   * The consecutive readings from `start` through `end`, written directly;
   * `RunIsERange` shows it is what `erange` computes over `Parasha`.
   */
  function Run(start: Parasha, end: Parasha): (r: seq<Parasha>)
    ensures |r| == if start <= end then end - start + 1 else 0
  {
    if start <= end then seq(end - start + 1, k requires 0 <= k <= end - start => (start + k) as Parasha)
    else []
  }

  /** `erange` over the members of `Parasha` yields exactly `Run`. */
  lemma RunIsERange(start: Parasha, end: Parasha)
    ensures start in AllParashot() && end in AllParashot()
    ensures ERange(AllParashot(), start, end) == Run(start, end)
    ensures forall k :: 0 <= k < |Run(start, end)| ==> Run(start, end)[k] == start + k
  {
    ParashaIndex(start);
    ParashaIndex(end);
    var e := ERange(AllParashot(), start, end);
    var r := Run(start, end);
    assert |e| == |r|;
    forall k | 0 <= k < |r|
      ensures e[k] == r[k]
    {
      assert e[k] == AllParashot()[start + k];
    }
  }

  // ---------------------------------------------------------------------
  // PARASHA_SEQUENCES
  // ---------------------------------------------------------------------

  /** The year types of each item of `PARASHA_SEQUENCES`, in the source's order. */
  function YearTypesAt(i: int): (r: seq<int>)
    requires 0 <= i < 18
  {
    match i
    case 0 => [1725]
    case 1 => [1703]
    case 2 => [1523, 523]
    case 3 => [1501, 501]
    case 4 => [1317, 1227]
    case 5 => [1205]
    case 6 => [521, 1521]
    case 7 => [1225, 1315]
    case 8 => [1701]
    case 9 => [1723]
    case 10 => [1517]
    case 11 => [703, 725]
    case 12 => [317, 227]
    case 13 => [205]
    case 14 => [701]
    case 15 => [315, 203, 225, 1203]
    case 16 => [723]
    case _ => [517]
  }

  /** The readings of each item of `PARASHA_SEQUENCES`, in the source's order. */
  function ReadingsAt(i: int): (r: seq<Parasha>)
    requires 0 <= i < 18
  {
    match i
    case 0 =>
      [NoParasha, Haazinu, NoParasha] + Run(NoParasha, Metzora) + [NoParasha]
      + Run(AchreiMot, Bamidbar) + [NoParasha] + Run(Nasso, Korach)
      + [ChukatBalak, Pinchas, MatotMasei] + Run(Devarim, KiTavo) + [NitzavimVayeilech]
    case 1 =>
      [NoParasha, Haazinu, NoParasha] + Run(NoParasha, Metzora) + [NoParasha]
      + Run(AchreiMot, Pinchas) + [MatotMasei] + Run(Devarim, KiTavo) + [NitzavimVayeilech]
    case 2 =>
      [Haazinu, NoParasha] + Run(NoParasha, AchreiMot) + [NoParasha]
      + Run(Kedoshim, KiTavo) + [NitzavimVayeilech]
    case 3 =>
      [Haazinu, NoParasha] + Run(NoParasha, AchreiMot) + [NoParasha] + Run(Kedoshim, Nitzavim)
    case 4 =>
      [Vayeilech, Haazinu] + Run(NoParasha, Metzora) + [NoParasha, NoParasha]
      + Run(AchreiMot, Pinchas) + [MatotMasei] + Run(Devarim, Nitzavim)
    case 5 =>
      [Vayeilech, Haazinu] + Run(NoParasha, Metzora) + [NoParasha]
      + Run(AchreiMot, Bamidbar) + [NoParasha] + Run(Nasso, Korach)
      + [ChukatBalak, Pinchas, MatotMasei] + Run(Devarim, KiTavo) + [NitzavimVayeilech]
    case 6 =>
      [Haazinu, NoParasha] + Run(NoParasha, Tzav) + [NoParasha, Shmini, TazriaMetzora,
      AchreiMotKedoshim, Emor, BeharBechukotai] + Run(Bamidbar, Pinchas) + [MatotMasei]
      + Run(Devarim, Nitzavim)
    case 7 =>
      [Vayeilech, Haazinu] + Run(NoParasha, KiTisa) + [VayakhelPekudei, Vayikra, Tzav,
      NoParasha, Shmini, TazriaMetzora, AchreiMotKedoshim, Emor, BeharBechukotai,
      Bamidbar, NoParasha] + Run(Nasso, Korach) + [ChukatBalak, Pinchas, MatotMasei]
      + Run(Devarim, KiTavo) + [NitzavimVayeilech]
    case 8 =>
      [NoParasha, Haazinu, NoParasha] + Run(NoParasha, KiTisa) + [VayakhelPekudei, Vayikra,
      Tzav, NoParasha, Shmini, TazriaMetzora, AchreiMotKedoshim, Emor, BeharBechukotai]
      + Run(Bamidbar, Pinchas) + [MatotMasei] + Run(Devarim, Nitzavim)
    case 9 =>
      [NoParasha, Haazinu, NoParasha] + Run(NoParasha, KiTisa) + [VayakhelPekudei, Vayikra,
      Tzav, NoParasha, Shmini, TazriaMetzora, AchreiMotKedoshim, Emor, BeharBechukotai]
      + Run(Bamidbar, Pinchas) + [MatotMasei] + Run(Devarim, KiTavo) + [NitzavimVayeilech]
    case 10 =>
      [Haazinu, NoParasha] + Run(NoParasha, KiTisa) + [VayakhelPekudei, Vayikra, Tzav,
      NoParasha, NoParasha, Shmini, TazriaMetzora, AchreiMotKedoshim, Emor, BeharBechukotai]
      + Run(Bamidbar, Pinchas) + [MatotMasei] + Run(Devarim, Nitzavim)
    case 11 =>
      [NoParasha, Haazinu, NoParasha, VezotHabracha] + Run(Bereshit, Metzora) + [NoParasha]
      + Run(AchreiMot, Pinchas) + [MatotMasei] + Run(Devarim, KiTavo) + [NitzavimVayeilech]
    case 12 =>
      [Vayeilech, Haazinu] + Run(NoParasha, Metzora) + [NoParasha] + Run(AchreiMot, Nitzavim)
    case 13 =>
      [Vayeilech, Haazinu] + Run(NoParasha, Metzora) + [NoParasha]
      + Run(AchreiMot, Pinchas) + [MatotMasei] + Run(Devarim, KiTavo) + [NitzavimVayeilech]
    case 14 =>
      [NoParasha, Haazinu, NoParasha, VezotHabracha] + Run(Bereshit, KiTisa)
      + [VayakhelPekudei, Vayikra, Tzav, NoParasha, Shmini, TazriaMetzora, AchreiMotKedoshim,
      Emor, BeharBechukotai] + Run(Bamidbar, Pinchas) + [MatotMasei] + Run(Devarim, Nitzavim)
    case 15 =>
      [Vayeilech, Haazinu] + Run(NoParasha, KiTisa) + [VayakhelPekudei, Vayikra, Tzav,
      NoParasha, Shmini, TazriaMetzora, AchreiMotKedoshim, Emor, BeharBechukotai]
      + Run(Bamidbar, Pinchas) + [MatotMasei] + Run(Devarim, KiTavo) + [NitzavimVayeilech]
    case 16 =>
      [NoParasha, Haazinu, NoParasha, VezotHabracha] + Run(Bereshit, KiTisa)
      + [VayakhelPekudei, Vayikra, Tzav, NoParasha, Shmini, TazriaMetzora, AchreiMotKedoshim,
      Emor, BeharBechukotai] + Run(Bamidbar, Pinchas) + [MatotMasei] + Run(Devarim, KiTavo)
      + [NitzavimVayeilech]
    case _ =>
      [Haazinu, NoParasha] + Run(NoParasha, KiTisa) + [VayakhelPekudei, Vayikra, Tzav,
      NoParasha, Shmini, TazriaMetzora, AchreiMotKedoshim] + Run(Emor, Pinchas) + [MatotMasei]
      + Run(Devarim, Nitzavim)
  }

  /** The number of items of `PARASHA_SEQUENCES`. */
  const Items := 18

  /** The year types without the diaspora digit that occur in the table. */
  const YearKinds: set<int> := {203, 205, 225, 227, 315, 317, 501, 517, 521, 523, 701, 703, 723, 725}

  /**
   * The position of the first item at or after `from` whose year types
   * include `yearType`, or `Items` when there is none: Python's `next` over
   * the table's items, which then raises StopIteration.
   */
  function FamilyIndex(yearType: int, from: int): (i: int)
    requires 0 <= from <= Items
    ensures from <= i <= Items
    ensures i < Items ==> yearType in YearTypesAt(i)
    ensures forall j :: from <= j < i ==> yearType !in YearTypesAt(j)
    decreases Items - from
  {
    if from == Items then Items
    else if yearType in YearTypesAt(from) then from
    else FamilyIndex(yearType, from + 1)
  }

  /** The readings the table gives a year type, if any item lists it. */
  function ReadingsFor(yearType: int): (r: Option<seq<Parasha>>)
    ensures r.None? <==> forall i :: 0 <= i < Items ==> yearType !in YearTypesAt(i)
    ensures r.Some? ==> exists i :: 0 <= i < Items && yearType in YearTypesAt(i) && r.value == ReadingsAt(i)
  {
    var i := FamilyIndex(yearType, 0);
    if i < Items then Some(ReadingsAt(i)) else None
  }

  /** No year type is listed by two items, so the first match is the only one. */
  lemma {:induction false} KeysDistinct(i: int, j: int, yearType: int)
    requires 0 <= i < Items && 0 <= j < Items
    requires yearType in YearTypesAt(i) && yearType in YearTypesAt(j)
    ensures i == j
  {
  }

  /** A year type finds the readings of the item that lists it. */
  lemma ReadingsForItem(yearType: int, i: int)
    requires 0 <= i < Items && yearType in YearTypesAt(i)
    ensures ReadingsFor(yearType) == Some(ReadingsAt(i))
  {
    KeysDistinct(i, FamilyIndex(yearType, 0), yearType);
  }

  /** Every listed year type is a diaspora digit over one of the fourteen kinds of year. */
  lemma {:induction false} KeyShapes(i: int, yearType: int)
    requires 0 <= i < Items && yearType in YearTypesAt(i)
    ensures yearType / 1000 in {0, 1} && yearType % 1000 in YearKinds
  {
  }

  /**
   * The signature `get_reading` computes (hdate/date.py): the diaspora digit,
   * the week-day of Rosh Hashana, the year length mod 10 minus 3 and the
   * week-day of 15 Nisan.
   */
  function YearType(diaspora: bool, roshHashanaDow: int, yearSize: int, pesachDow: int): int
  {
    (if diaspora then 1000 else 0) + 100 * roshHashanaDow + 10 * (yearSize % 10 - 3) + pesachDow
  }

  /**
   * The week-day (1 = Sunday) of Rosh Hashana and the length a Hebrew year
   * can have together: the fourteen kinds of year.
   */
  predicate IsYearKind(dow: int, size: int)
  {
    || ((dow == 2 || dow == 7) && size in {353, 355, 383, 385})
    || (dow == 3 && size in {354, 384})
    || (dow == 5 && size in {354, 355, 383, 385})
  }

  /**
   * For every kind of year, in and out of the diaspora, the table has a
   * sequence, and it holds one entry for each week that starts in the year:
   * its length is the number of Shabbatot of the year.
   */
  lemma ReadingsForEveryKind(diaspora: bool, dow: int, size: int)
    requires IsYearKind(dow, size)
    ensures var r := ReadingsFor(YearType(diaspora, dow, size, (dow - 1 + size - 163) % 7 + 1));
            r.Some? && |r.value| == (size - 8 + dow) / 7 + 1
  {
    if dow == 2 {
      MondayYears(diaspora, dow, size);
    } else if dow == 3 {
      TuesdayYears(diaspora, dow, size);
    } else if dow == 5 {
      ThursdayYears(diaspora, dow, size);
    } else {
      SaturdayYears(diaspora, dow, size);
    }
  }

  lemma MondayYears(diaspora: bool, dow: int, size: int)
    requires dow == 2 && IsYearKind(dow, size)
    ensures var r := ReadingsFor(YearType(diaspora, dow, size, (dow - 1 + size - 163) % 7 + 1));
            r.Some? && |r.value| == (size - 8 + dow) / 7 + 1
  {
    var yearType := YearType(diaspora, dow, size, (dow - 1 + size - 163) % 7 + 1);
    if size == 353 {
      if diaspora {
        assert yearType == 1203;
        Listed(1203, 15, 50);
      } else {
        assert yearType == 203;
        Listed(203, 15, 50);
      }
    } else if size == 355 {
      if diaspora {
        assert yearType == 1225;
        Listed(1225, 7, 50);
      } else {
        assert yearType == 225;
        Listed(225, 15, 50);
      }
    } else if size == 383 {
      if diaspora {
        assert yearType == 1205;
        Listed(1205, 5, 54);
      } else {
        assert yearType == 205;
        Listed(205, 13, 54);
      }
    } else {
      if diaspora {
        assert yearType == 1227;
        Listed(1227, 4, 55);
      } else {
        assert yearType == 227;
        Listed(227, 12, 55);
      }
    }
  }

  lemma TuesdayYears(diaspora: bool, dow: int, size: int)
    requires dow == 3 && IsYearKind(dow, size)
    ensures var r := ReadingsFor(YearType(diaspora, dow, size, (dow - 1 + size - 163) % 7 + 1));
            r.Some? && |r.value| == (size - 8 + dow) / 7 + 1
  {
    var yearType := YearType(diaspora, dow, size, (dow - 1 + size - 163) % 7 + 1);
    if size == 354 {
      if diaspora {
        assert yearType == 1315;
        Listed(1315, 7, 50);
      } else {
        assert yearType == 315;
        Listed(315, 15, 50);
      }
    } else {
      if diaspora {
        assert yearType == 1317;
        Listed(1317, 4, 55);
      } else {
        assert yearType == 317;
        Listed(317, 12, 55);
      }
    }
  }

  lemma ThursdayYears(diaspora: bool, dow: int, size: int)
    requires dow == 5 && IsYearKind(dow, size)
    ensures var r := ReadingsFor(YearType(diaspora, dow, size, (dow - 1 + size - 163) % 7 + 1));
            r.Some? && |r.value| == (size - 8 + dow) / 7 + 1
  {
    var yearType := YearType(diaspora, dow, size, (dow - 1 + size - 163) % 7 + 1);
    if size == 354 {
      if diaspora {
        assert yearType == 1517;
        Listed(1517, 10, 51);
      } else {
        assert yearType == 517;
        Listed(517, 17, 51);
      }
    } else if size == 355 {
      if diaspora {
        assert yearType == 1521;
        Listed(1521, 6, 51);
      } else {
        assert yearType == 521;
        Listed(521, 6, 51);
      }
    } else if size == 383 {
      if diaspora {
        assert yearType == 1501;
        Listed(1501, 3, 55);
      } else {
        assert yearType == 501;
        Listed(501, 3, 55);
      }
    } else {
      if diaspora {
        assert yearType == 1523;
        Listed(1523, 2, 55);
      } else {
        assert yearType == 523;
        Listed(523, 2, 55);
      }
    }
  }

  lemma SaturdayYears(diaspora: bool, dow: int, size: int)
    requires dow == 7 && IsYearKind(dow, size)
    ensures var r := ReadingsFor(YearType(diaspora, dow, size, (dow - 1 + size - 163) % 7 + 1));
            r.Some? && |r.value| == (size - 8 + dow) / 7 + 1
  {
    var yearType := YearType(diaspora, dow, size, (dow - 1 + size - 163) % 7 + 1);
    if size == 353 {
      if diaspora {
        assert yearType == 1701;
        Listed(1701, 8, 51);
      } else {
        assert yearType == 701;
        Listed(701, 14, 51);
      }
    } else if size == 355 {
      if diaspora {
        assert yearType == 1723;
        Listed(1723, 9, 51);
      } else {
        assert yearType == 723;
        Listed(723, 16, 51);
      }
    } else if size == 383 {
      if diaspora {
        assert yearType == 1703;
        Listed(1703, 1, 55);
      } else {
        assert yearType == 703;
        Listed(703, 11, 55);
      }
    } else {
      if diaspora {
        assert yearType == 1725;
        Listed(1725, 0, 55);
      } else {
        assert yearType == 725;
        Listed(725, 11, 55);
      }
    }
  }

  /** A listed year type finds a sequence of the length of its item's. */
  lemma Listed(yearType: int, i: int, n: int)
    requires 0 <= i < Items && yearType in YearTypesAt(i) && |ReadingsAt(i)| == n
    ensures ReadingsFor(yearType).Some? && |ReadingsFor(yearType).value| == n
  {
    ReadingsForItem(yearType, i);
  }

  /** The readings of the first weeks of an item, by the week-day of its Rosh Hashana. */
  predicate OpensByWeekday(i: int, roshHashanaDow: int)
    requires 0 <= i < Items
  {
    var r := ReadingsAt(i);
    && |r| >= 3
    && (roshHashanaDow in {2, 3} ==> r[0] == Vayeilech && r[1] == Haazinu)
    && (roshHashanaDow == 5 ==> r[0] == Haazinu && r[1] == NoParasha)
    && (roshHashanaDow == 7 ==> r[0] == NoParasha && r[1] == Haazinu && r[2] == NoParasha)
  }

  /**
   * The first week of every item depends only on the week-day of Rosh
   * Hashana, the hundreds digit of the year types the item lists.
   */
  lemma {:induction false} OpeningWeeks(i: int, yearType: int)
    requires 0 <= i < Items && yearType in YearTypesAt(i)
    ensures OpensByWeekday(i, yearType % 1000 / 100)
  {
    if i < 6 {
      OpeningWeeksEarly(i, yearType);
    } else if i < 12 {
      OpeningWeeksMiddle(i, yearType);
    } else {
      OpeningWeeksLate(i, yearType);
    }
  }

  lemma OpeningWeeksEarly(i: int, yearType: int)
    requires 0 <= i < 6 && yearType in YearTypesAt(i)
    ensures OpensByWeekday(i, yearType % 1000 / 100)
  {
    if i == 0 { assert OpensByWeekday(0, 7); }
    else if i == 1 { assert OpensByWeekday(1, 7); }
    else if i == 2 { assert OpensByWeekday(2, 5); }
    else if i == 3 { assert OpensByWeekday(3, 5); }
    else if i == 4 { assert OpensByWeekday(4, 3) && OpensByWeekday(4, 2); }
    else { assert OpensByWeekday(5, 2); }
  }

  lemma OpeningWeeksMiddle(i: int, yearType: int)
    requires 6 <= i < 12 && yearType in YearTypesAt(i)
    ensures OpensByWeekday(i, yearType % 1000 / 100)
  {
    if i == 6 { assert OpensByWeekday(6, 5); }
    else if i == 7 { assert OpensByWeekday(7, 2) && OpensByWeekday(7, 3); }
    else if i == 8 { assert OpensByWeekday(8, 7); }
    else if i == 9 { assert OpensByWeekday(9, 7); }
    else if i == 10 { assert OpensByWeekday(10, 5); }
    else { assert OpensByWeekday(11, 7); }
  }

  lemma OpeningWeeksLate(i: int, yearType: int)
    requires 12 <= i < Items && yearType in YearTypesAt(i)
    ensures OpensByWeekday(i, yearType % 1000 / 100)
  {
    if i == 12 { assert OpensByWeekday(12, 3) && OpensByWeekday(12, 2); }
    else if i == 13 { assert OpensByWeekday(13, 2); }
    else if i == 14 { assert OpensByWeekday(14, 7); }
    else if i == 15 { assert OpensByWeekday(15, 3) && OpensByWeekday(15, 2); }
    else if i == 16 { assert OpensByWeekday(16, 7); }
    else { assert OpensByWeekday(17, 5); }
  }
}
