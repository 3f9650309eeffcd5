/** Interest on a late invoice, each day weighed by the year it lies in. */
module LateInterests {
  import opened Calendar
  import opened Rounding
  import Invoices

  /** A common multiple of both lengths of a year, so that every day is a whole number of parts. */
  const PARTS_PER_YEAR: int := 365 * 366

  function DayParts(year: int): (parts: int)
    ensures 365 <= parts <= 366
    ensures DaysInYear(year) * parts == PARTS_PER_YEAR
  {
    PARTS_PER_YEAR / DaysInYear(year)
  }

  function PartsOfDay(on: Day): int {
    DayParts(YearOf(on))
  }

  /** A weight of each day, summed over so many days from `from`. */
  function Summed(weight: Day -> int, from: Day, days: int): int
    decreases days
  {
    if days <= 0 then 0 else Summed(weight, from, days - 1) + weight(from + days - 1)
  }

  /** Day by day: so many days from `from`, each at the parts of the year it lies in. */
  function PartsOf(from: Day, days: int): int {
    Summed(PartsOfDay, from, days)
  }

  ghost predicate EachAt(weight: Day -> int, begin: Day, end: Day, each: int) {
    forall on :: begin <= on < end ==> weight(on) == each
  }

  lemma {:induction false} SameWeight(weight: Day -> int, from: Day, before: nat, days: nat, each: int)
    requires EachAt(weight, from + before, from + before + days, each)
    ensures Summed(weight, from, before + days) == Summed(weight, from, before) + days * each
  {
    if days > 0 {
      SameWeight(weight, from, before, days - 1, each);
      assert days * each == (days - 1) * each + each;
    }
  }

  lemma {:induction false} SumSplits(weight: Day -> int, from: Day, first: nat, second: nat)
    ensures Summed(weight, from, first + second) == Summed(weight, from, first) + Summed(weight, from + first, second)
  {
    if second > 0 {
      SumSplits(weight, from, first, second - 1);
      assert from + (first + second) - 1 == from + first + second - 1;
    }
  }

  lemma {:induction false} SumBetween(weight: Day -> int, from: Day, days: nat, low: int, high: int)
    requires forall on :: low <= weight(on) <= high
    ensures low * days <= Summed(weight, from, days) <= high * days
  {
    if days > 0 {
      SumBetween(weight, from, days - 1, low, high);
      assert low * days == low * (days - 1) + low && high * days == high * (days - 1) + high;
    }
  }

  lemma DaysOfAYear(year: int)
    ensures EachAt(PartsOfDay, YearStart(year), YearStart(year + 1), DayParts(year))
  {
    forall on | YearStart(year) <= on < YearStart(year + 1) ensures PartsOfDay(on) == DayParts(year) {
      YearIs(on, year);
    }
  }

  /** Where the loop stands: all days before `day` are counted, as long as some are left. */
  ghost predicate CountedSoFar(weight: Day -> int, from: Day, days: int, day: Day, left: int, parts: int) {
    && (left > 0 ==> day == from + days - left)
    && (days > 0 ==> 0 <= left <= days)
    && (days <= 0 ==> left == days)
    && parts == if days > 0 then Summed(weight, from, days - left) else 0
  }

  lemma OneYearMore(weight: Day -> int, from: Day, days: int, day: Day, left: int, parts: int,
                    begin: Day, nextYear: Day, each: int, inThisYear: int)
    requires CountedSoFar(weight, from, days, day, left, parts) && 0 < left <= days
    requires EachAt(weight, begin, nextYear, each) && begin <= day < nextYear
    requires inThisYear == if left < nextYear - day then left else nextYear - day
    ensures CountedSoFar(weight, from, days, nextYear, left - inThisYear, parts + inThisYear * each)
  {
    SameWeight(weight, from, days - left, inThisYear, each);
  }

  method YearPartsOf(from: Day, days: int) returns (parts: int)
    ensures parts == PartsOf(from, days)
  {
    parts := 0;
    var day, left := from, days;
    while left > 0
      invariant CountedSoFar(PartsOfDay, from, days, day, left, parts)
    {
      var year := YearOf(day);
      YearOfIs(day);
      var nextYear := YearStart(year + 1);
      var inThisYear := if left < nextYear - day then left else nextYear - day;
      DaysOfAYear(year);
      OneYearMore(PartsOfDay, from, days, day, left, parts, YearStart(year), nextYear, DayParts(year), inThisYear);
      parts := parts + inThisYear * (PARTS_PER_YEAR / DaysInYear(year));
      left := left - inThisYear;
      day := nextYear;
    }
  }

  /** A period may be split anywhere. */
  lemma PeriodSplits(from: Day, first: nat, second: nat)
    ensures PartsOf(from, first + second) == PartsOf(from, first) + PartsOf(from + first, second)
  {
    SumSplits(PartsOfDay, from, first, second);
  }

  lemma DaysAreParts(from: Day, days: nat)
    ensures 365 * days <= PartsOf(from, days) <= 366 * days
  {
    SumBetween(PartsOfDay, from, days, 365, 366);
  }

  /** A year ends where the next begins, and its days come to one year. */
  ghost predicate IsWhole(weight: Day -> int, starts: int -> Day, parts: int, year: int) {
    && starts(year) <= starts(year + 1)
    && Summed(weight, starts(year), starts(year + 1) - starts(year)) == parts
  }

  lemma {:induction false} YearAfterYear(weight: Day -> int, starts: int -> Day, parts: int, year: int, years: nat)
    requires forall each :: IsWhole(weight, starts, parts, each)
    ensures starts(year) <= starts(year + years)
    ensures Summed(weight, starts(year), starts(year + years) - starts(year)) == years * parts
  {
    if years > 0 {
      var last := year + years - 1;
      YearAfterYear(weight, starts, parts, year, years - 1);
      assert IsWhole(weight, starts, parts, last);
      SumSplits(weight, starts(year), starts(last) - starts(year), starts(last + 1) - starts(last));
      assert years * parts == (years - 1) * parts + parts;
    }
  }

  lemma {:induction false} EqualDays(weight: Day -> int, begin: Day, end: Day, days: nat, each: int)
    requires end == begin + days && EachAt(weight, begin, end, each)
    ensures Summed(weight, begin, end - begin) == days * each
  {
    SameWeight(weight, begin, 0, days, each);
  }

  lemma YearIsWhole(year: int)
    ensures IsWhole(PartsOfDay, YearStart, PARTS_PER_YEAR, year)
  {
    YearLength(year);
    DaysOfAYear(year);
    EqualDays(PartsOfDay, YearStart(year), YearStart(year + 1), DaysInYear(year), DayParts(year));
  }

  /** So many calendar years are exactly so many years, leap years or not. */
  lemma CalendarYearsAreWhole(year: int, years: nat)
    ensures YearStart(year) <= YearStart(year + years)
    ensures PartsOf(YearStart(year), YearStart(year + years) - YearStart(year)) == years * PARTS_PER_YEAR
  {
    forall each ensures IsWhole(PartsOfDay, YearStart, PARTS_PER_YEAR, each) {
      YearIsWhole(each);
    }
    YearAfterYear(PartsOfDay, YearStart, PARTS_PER_YEAR, year, years);
  }

  // --- Interest --------------------------------------------------------------------------------------

  datatype Debtor = Business | Consumer

  datatype LateInterest = LateInterest(
    basisPoints: int, baseRateBasisPoints: int, premiumBasisPoints: int, interestCents: int, flatFeeCents: int)

  /** The values of the day an invoice fell late. */
  datatype LateRules = LateRules(baseRate: int, premium: Debtor -> int, flatFee: int)

  /** `Math.sign(a) * Math.round(Math.abs(a) * parts / PARTS_PER_YEAR)`. */
  function ForParts(perYear: int, parts: int): int {
    if perYear >= 0 then RoundOver(perYear * parts, PARTS_PER_YEAR) else -RoundOver(-perYear * parts, PARTS_PER_YEAR)
  }

  function LateInterestOn(rules: LateRules, principalCents: int, days: int, debtor: Debtor, on: Day): LateInterest {
    var basisPoints := rules.baseRate + rules.premium(debtor);
    var perYear := Invoices.ApplyRate(principalCents, basisPoints);
    LateInterest(basisPoints, rules.baseRate, rules.premium(debtor), ForParts(perYear, PartsOf(on, days)),
                 if debtor == Business then rules.flatFee else 0)
  }

  lemma MorePartsMoreInterest(perYear: int, fewer: int, more: int)
    requires fewer <= more
    ensures perYear >= 0 ==> ForParts(perYear, fewer) <= ForParts(perYear, more)
    ensures perYear <= 0 ==> ForParts(perYear, fewer) >= ForParts(perYear, more)
  {
    if perYear >= 0 {
      TimesMonotone(fewer, more, perYear);
      RoundMonotone(perYear * fewer, perYear * more, PARTS_PER_YEAR);
    } else {
      TimesMonotone(fewer, more, -perYear);
      RoundMonotone(-perYear * fewer, -perYear * more, PARTS_PER_YEAR);
    }
  }

  lemma MoreDaysMoreParts(from: Day, fewer: int, more: int)
    requires fewer <= more
    ensures PartsOf(from, fewer) <= PartsOf(from, more)
  {
    if fewer > 0 {
      PeriodSplits(from, fewer, more - fewer);
      DaysAreParts(from + fewer, more - fewer);
    } else if more > 0 {
      DaysAreParts(from, more);
    }
  }

  lemma RateOnNothingOrMore(cents: int, basisPoints: int)
    requires cents >= 0 && basisPoints >= 0
    ensures Invoices.ApplyRate(cents, basisPoints) >= 0
  {
    TimesMonotone(0, cents, basisPoints);
  }

  lemma NoneIsTheLeast(perYear: int, fewer: int, more: int)
    requires perYear >= 0 && 0 <= fewer <= more
    ensures 0 <= ForParts(perYear, fewer) <= ForParts(perYear, more)
  {
    MorePartsMoreInterest(perYear, 0, fewer);
    MorePartsMoreInterest(perYear, fewer, more);
  }

  /** What is owed never falls while the days go by, when the principal and the rate are not negative. */
  lemma InterestNeverFalls(rules: LateRules, principalCents: int, fewer: int, more: int, debtor: Debtor, on: Day)
    requires principalCents >= 0 && rules.baseRate + rules.premium(debtor) >= 0 && fewer <= more
    ensures 0 <= LateInterestOn(rules, principalCents, fewer, debtor, on).interestCents
              <= LateInterestOn(rules, principalCents, more, debtor, on).interestCents
  {
    RateOnNothingOrMore(principalCents, rules.baseRate + rules.premium(debtor));
    MoreDaysMoreParts(on, fewer, more);
    MoreDaysMoreParts(on, if fewer < 0 then fewer else 0, fewer);
    NoneIsTheLeast(Invoices.ApplyRate(principalCents, rules.baseRate + rules.premium(debtor)),
                   PartsOf(on, fewer), PartsOf(on, more));
  }

  lemma Product(perYear: int, years: int, parts: int)
    ensures perYear * (years * parts) == (perYear * years) * parts
    ensures -perYear * (years * parts) == -(perYear * years) * parts
  {
    assert -perYear * (years * parts) == -(perYear * (years * parts));
  }

  lemma WholeYears(perYear: int, years: nat)
    ensures ForParts(perYear, years * PARTS_PER_YEAR) == perYear * years
  {
    RoundOfWhole(perYear * years, PARTS_PER_YEAR);
    RoundOfWhole(-(perYear * years), PARTS_PER_YEAR);
    Product(perYear, years, PARTS_PER_YEAR);
  }

  /** Full calendar years carry the annual interest each, which is the rate on the principal to the nearest cent. */
  lemma CalendarYearsCarryTheAnnualRate(rules: LateRules, principalCents: int, debtor: Debtor, year: int, years: nat)
    returns (perYear: int)
    ensures Invoices.IsRateOf(perYear, principalCents, rules.baseRate + rules.premium(debtor))
    ensures var from, end := YearStart(year), YearStart(year + years);
      LateInterestOn(rules, principalCents, end - from, debtor, from).interestCents == perYear * years
  {
    perYear := Invoices.ApplyRate(principalCents, rules.baseRate + rules.premium(debtor));
    Invoices.RateIsApplied(principalCents, rules.baseRate + rules.premium(debtor));
    CalendarYearsAreWhole(year, years);
    WholeYears(perYear, years);
  }

  /** An amount is so many parts of a year of an annual one, to the nearest cent, a half away from zero. */
  ghost predicate IsPartOf(cents: int, perYear: int, parts: int) {
    && (perYear >= 0 ==> -133_590 <= 2 * (perYear * parts) - 267_180 * cents < 133_590)
    && (perYear < 0 ==> -133_590 < 2 * (perYear * parts) - 267_180 * cents <= 133_590)
  }

  lemma PartIsNearest(perYear: int, parts: int)
    ensures IsPartOf(ForParts(perYear, parts), perYear, parts)
  {
    assert -perYear * parts == -(perYear * parts);
  }

  /** Interest for any days: the annual one rounded, and its part rounded; a business owes the flat fee besides. */
  lemma InterestIsItsPart(rules: LateRules, principalCents: int, days: int, debtor: Debtor, on: Day) returns (perYear: int)
    ensures Invoices.IsRateOf(perYear, principalCents, rules.baseRate + rules.premium(debtor))
    ensures var owed := LateInterestOn(rules, principalCents, days, debtor, on);
      && IsPartOf(owed.interestCents, perYear, PartsOf(on, days))
      && owed.basisPoints == owed.baseRateBasisPoints + owed.premiumBasisPoints
      && owed.baseRateBasisPoints == rules.baseRate && owed.premiumBasisPoints == rules.premium(debtor)
      && (debtor.Business? ==> owed.flatFeeCents == rules.flatFee) && (debtor.Consumer? ==> owed.flatFeeCents == 0)
  {
    perYear := Invoices.ApplyRate(principalCents, rules.baseRate + rules.premium(debtor));
    Invoices.RateIsApplied(principalCents, rules.baseRate + rules.premium(debtor));
    PartIsNearest(perYear, PartsOf(on, days));
  }

  lemma SplitParts(perYear: int, first: int, second: int)
    ensures -1 <= ForParts(perYear, first + second) - ForParts(perYear, first) - ForParts(perYear, second) <= 1
  {
    var (p, s) := (if perYear >= 0 then perYear else -perYear, PARTS_PER_YEAR);
    assert p * (first + second) == p * first + p * second;
    ThreeRoundings(p * first, p * second);
  }

  lemma ThreeRoundings(a: int, b: int)
    ensures -1 <= RoundOver(a + b, PARTS_PER_YEAR) - RoundOver(a, PARTS_PER_YEAR) - RoundOver(b, PARTS_PER_YEAR) <= 1
  {}

  /** Billed in two periods at the same rates, the interest is at most a cent off. */
  lemma SplittingCostsAtMostACent(rules: LateRules, principalCents: int, first: nat, second: nat, debtor: Debtor, on: Day)
    ensures var whole := LateInterestOn(rules, principalCents, first + second, debtor, on).interestCents;
      var parts := LateInterestOn(rules, principalCents, first, debtor, on).interestCents
                 + LateInterestOn(rules, principalCents, second, debtor, on + first).interestCents;
      -1 <= whole - parts <= 1
  {
    PeriodSplits(on, first, second);
    SplitParts(Invoices.ApplyRate(principalCents, rules.baseRate + rules.premium(debtor)),
               PartsOf(on, first), PartsOf(on + first, second));
  }
}
