/**
 * Days of the Gregorian calendar as whole numbers, counted from the 1st of
 * January of the year 0, and months counted as `year * 12 + month` with
 * January 0, the way `addMonths` counts them.
 */
module Calendar {
  type Day = int

  predicate IsLeap(year: int) {
    (year % 4 == 0 && year % 100 != 0) || year % 400 == 0
  }

  function DaysInYear(year: int): (days: int)
    ensures 365 <= days <= 366
  {
    if IsLeap(year) then 366 else 365
  }

  const MONTH_LENGTHS: seq<int> := [31, 28, 31, 30, 31, 30, 31, 31, 30, 31, 30, 31]

  function MonthLength(month: int): (days: int)
    ensures 28 <= days <= 31
  {
    if month % 12 == 1 && IsLeap(month / 12) then 29 else MONTH_LENGTHS[month % 12]
  }

  /** The first day of a month: each month begins where the one before it ends. */
  function MonthStart(month: int): Day
    decreases if month < 0 then -month else month
  {
    if month == 0 then 0
    else if month > 0 then MonthStart(month - 1) + MonthLength(month - 1)
    else MonthStart(month + 1) - MonthLength(month)
  }

  function YearStart(year: int): Day {
    MonthStart(12 * year)
  }

  lemma NextMonth(month: int)
    ensures MonthStart(month + 1) == MonthStart(month) + MonthLength(month)
  {}

  const DAYS_BEFORE_MONTH: seq<int> := [0, 31, 59, 90, 120, 151, 181, 212, 243, 273, 304, 334, 365]

  lemma DivideMonth(month: int, year: int, k: int)
    requires month == 12 * year + k && 0 <= k < 12
    ensures month / 12 == year && month % 12 == k
  {}

  lemma {:induction false} DaysBefore(year: int, k: nat)
    requires k <= 12
    ensures MonthStart(12 * year + k)
         == YearStart(year) + DAYS_BEFORE_MONTH[k] + if k >= 2 && IsLeap(year) then 1 else 0
  {
    if k > 0 {
      var before := 12 * year + k - 1;
      DaysBefore(year, k - 1);
      NextMonth(before);
      DivideMonth(before, year, k - 1);
    }
  }

  lemma YearLength(year: int)
    ensures YearStart(year + 1) == YearStart(year) + DaysInYear(year)
  {
    DaysBefore(year, 12);
  }

  lemma {:induction false} MonthsApart(earlier: int, later: int)
    requires earlier <= later
    ensures MonthStart(earlier) + 28 * (later - earlier) <= MonthStart(later)
    decreases later - earlier
  {
    if earlier < later {
      MonthsApart(earlier, later - 1);
      NextMonth(later - 1);
    }
  }

  /** The month a day lies in, found from a month to start at. */
  function MonthFrom(on: Day, month: int): (m: int)
    ensures MonthStart(m) <= on < MonthStart(m + 1)
    decreases on < MonthStart(month), if on < MonthStart(month) then MonthStart(month) - on else on - MonthStart(month)
  {
    NextMonth(month);
    NextMonth(month - 1);
    if on < MonthStart(month) then MonthFrom(on, month - 1)
    else if on < MonthStart(month + 1) then month
    else MonthFrom(on, month + 1)
  }

  function MonthOf(on: Day): (m: int)
    ensures MonthStart(m) <= on < MonthStart(m + 1)
  {
    MonthFrom(on, 0)
  }

  /** The day of the month, 1 for its first. */
  function DayOfMonth(on: Day): (date: int)
    ensures 1 <= date <= MonthLength(MonthOf(on)) <= 31
    ensures MonthStart(MonthOf(on)) + date - 1 == on
  {
    NextMonth(MonthOf(on));
    on - MonthStart(MonthOf(on)) + 1
  }

  function YearOf(on: Day): int {
    MonthOf(on) / 12
  }

  lemma MonthOfIs(on: Day, month: int)
    requires MonthStart(month) <= on < MonthStart(month + 1)
    ensures MonthOf(on) == month
  {
    if MonthOf(on) < month {
      MonthsApart(MonthOf(on) + 1, month);
    } else if month < MonthOf(on) {
      MonthsApart(month + 1, MonthOf(on));
    }
  }

  lemma {:induction false} FirstOfMonth(month: int)
    ensures MonthOf(MonthStart(month)) == month && DayOfMonth(MonthStart(month)) == 1
  {
    NextMonth(month);
    MonthOfIs(MonthStart(month), month);
  }

  lemma MonthOfMonotone(a: Day, b: Day)
    requires a <= b
    ensures MonthOf(a) <= MonthOf(b)
  {
    if MonthOf(b) < MonthOf(a) {
      MonthsApart(MonthOf(b) + 1, MonthOf(a));
    }
  }

  lemma YearOfIs(on: Day)
    ensures YearStart(YearOf(on)) <= on < YearStart(YearOf(on) + 1)
  {
    var first := 12 * YearOf(on);
    assert first <= MonthOf(on) < first + 12;
    MonthsApart(first, MonthOf(on));
    MonthsApart(MonthOf(on) + 1, first + 12);
  }

  /** Weekdays counted from Monday; the 1st of January of the year 0 is a Saturday. */
  function WeekdayOf(on: Day): (w: int)
    ensures 0 <= w < 7
  {
    (on + 5) % 7
  }

  /** A date in a month, clamped to the length of the month. */
  function InMonth(month: int, date: int): Day {
    MonthStart(month) - 1 + if date < MonthLength(month) then date else MonthLength(month)
  }

  function AddMonths(on: Day, months: int): Day {
    InMonth(MonthOf(on) + months, DayOfMonth(on))
  }

  lemma InMonthIs(month: int, date: int)
    requires date >= 1
    ensures MonthOf(InMonth(month, date)) == month
    ensures DayOfMonth(InMonth(month, date)) == if date < MonthLength(month) then date else MonthLength(month)
  {
    NextMonth(month);
    MonthOfIs(InMonth(month, date), month);
  }

  lemma AddMonthsIs(on: Day, months: int)
    ensures MonthOf(AddMonths(on, months)) == MonthOf(on) + months
    ensures var length := MonthLength(MonthOf(on) + months);
      DayOfMonth(AddMonths(on, months)) == if DayOfMonth(on) < length then DayOfMonth(on) else length
  {
    InMonthIs(MonthOf(on) + months, DayOfMonth(on));
  }

  lemma LaterMonthIsLater(a: Day, b: Day)
    requires MonthOf(a) < MonthOf(b)
    ensures a < b
  {
    MonthsApart(MonthOf(a) + 1, MonthOf(b));
  }

  lemma AddMonthsStrict(on: Day, fewer: int, more: int)
    requires fewer < more
    ensures AddMonths(on, fewer) < AddMonths(on, more)
  {
    AddMonthsIs(on, fewer);
    AddMonthsIs(on, more);
    LaterMonthIsLater(AddMonths(on, fewer), AddMonths(on, more));
  }

  lemma AddNoMonths(on: Day)
    ensures AddMonths(on, 0) == on
  {}

  lemma AddMonthsMonotone(a: Day, b: Day, months: int)
    requires a <= b
    ensures AddMonths(a, months) <= AddMonths(b, months)
  {
    MonthOfMonotone(a, b);
    if MonthOf(a) < MonthOf(b) {
      AddMonthsIs(a, months);
      AddMonthsIs(b, months);
      LaterMonthIsLater(AddMonths(a, months), AddMonths(b, months));
    }
  }

  /** The days of a day of the month that a month lacks. */
  function Lacking(on: Day, month: int): int {
    if MonthLength(month) < DayOfMonth(on) then DayOfMonth(on) - MonthLength(month) else 0
  }

  /** Going so many months one way and back loses exactly the days the month between lacks. */
  lemma AddMonthsThereAndBack(on: Day, months: int, back: int)
    requires months + back == 0
    ensures AddMonths(AddMonths(on, months), back) == on - Lacking(on, MonthOf(on) + months)
  {
    AddMonthsIs(on, months);
  }

  /** Counting months from a day of a month. */
  lemma AddMonthsFrom(month: int, date: int, months: int)
    requires 1 <= date <= MonthLength(month)
    ensures AddMonths(InMonth(month, date), months) == InMonth(month + months, date)
  {
    InMonthIs(month, date);
  }

  lemma {:induction false} MonthRange(lo: int, hi: int, on: Day)
    requires MonthStart(lo) <= on < MonthStart(hi)
    ensures lo <= MonthOf(on) < hi
  {
    if MonthOf(on) < lo {
      MonthsApart(MonthOf(on) + 1, lo);
    }
    if hi <= MonthOf(on) {
      MonthsApart(hi, MonthOf(on));
    }
  }

  lemma TwelveMonths(month: int, first: int, year: int)
    requires first == 12 * year && first <= month < first + 12
    ensures month / 12 == year
  {}

  lemma {:induction false} YearFromMonths(on: Day, year: int, first: int, next: int)
    requires first == 12 * year && next == first + 12 && MonthStart(first) <= on < MonthStart(next)
    ensures YearOf(on) == year
  {
    MonthRange(first, next, on);
    TwelveMonths(MonthOf(on), first, year);
  }

  lemma YearIs(on: Day, year: int)
    requires YearStart(year) <= on < YearStart(year + 1)
    ensures YearOf(on) == year
  {
    YearFromMonths(on, year, 12 * year, 12 * (year + 1));
  }

  // --- The calendar in numbers -----------------------------------------------------------------------

  lemma OneMoreOfFour(year: int, q: int, r: int)
    requires year == 4 * q + r && 0 <= r < 4
    ensures year % 4 == r && (year + 4) / 4 == q + 1 && (year + 3) / 4 == if r == 0 then q else q + 1
  {}

  lemma OneMoreOfAHundred(year: int, q: int, r: int)
    requires year == 100 * q + r && 0 <= r < 100
    ensures year % 100 == r && (year + 100) / 100 == q + 1 && (year + 99) / 100 == if r == 0 then q else q + 1
  {}

  lemma OneMoreOfFourHundred(year: int, q: int, r: int)
    requires year == 400 * q + r && 0 <= r < 400
    ensures year % 400 == r && (year + 400) / 400 == q + 1 && (year + 399) / 400 == if r == 0 then q else q + 1
  {}

  lemma Divides(year: int, a: int, b: int, c: int)
    requires a == year % 4 && b == year % 100 && c == year % 400
    ensures (c == 0 ==> b == 0) && (b == 0 ==> a == 0)
  {
    var century, four := year / 100, year / 400;
    if c == 0 {
      OneMoreOfAHundred(year, 4 * four, 0);
    }
    if b == 0 {
      OneMoreOfFour(year, 25 * century, 0);
    }
  }

  /** How many leap days there are before a year: one every four, but not every hundred, but every four hundred years. */
  function LeapDays(year: int): int {
    (year + 3) / 4 - (year + 99) / 100 + (year + 399) / 400
  }

  lemma OneLeapDayMore(year: int)
    ensures 365 + LeapDays(year + 1) == LeapDays(year) + DaysInYear(year)
  {
    OneMoreOfFour(year, year / 4, year % 4);
    OneMoreOfAHundred(year, year / 100, year % 100);
    OneMoreOfFourHundred(year, year / 400, year % 400);
    Divides(year, year % 4, year % 100, year % 400);
  }

  /** The 1st of January of a year, worked out without the years before it. */
  lemma {:induction false} YearStartIs(year: int, start: Day)
    requires start == YearStart(year)
    ensures start == 365 * year + LeapDays(year)
    decreases if year < 0 then -year else year
  {
    if year > 0 {
      YearStartIs(year - 1, YearStart(year - 1));
      YearLength(year - 1);
      OneLeapDayMore(year - 1);
    } else if year < 0 {
      YearStartIs(year + 1, YearStart(year + 1));
      YearLength(year);
      OneLeapDayMore(year);
    }
  }

  lemma FourCenturiesOn(x: int)
    ensures (x + 400) / 4 == x / 4 + 100 && (x + 400) / 100 == x / 100 + 4 && (x + 400) / 400 == x / 400 + 1
  {}

  lemma SameWeekday(on: Day, later: Day)
    requires later == on + 146_097
    ensures WeekdayOf(later) == WeekdayOf(on)
  {
    assert later + 5 == on + 5 + 7 * 20_871;
  }

  lemma LeapDaysOfFourCenturies(year: int)
    ensures LeapDays(year + 400) == LeapDays(year) + 97
  {
    FourCenturiesOn(year + 3);
    FourCenturiesOn(year + 99);
    FourCenturiesOn(year + 399);
  }

  /** The calendar repeats after 400 years, and so do its weekdays. */
  lemma FourHundredYears(year: int)
    ensures YearStart(year + 400) == YearStart(year) + 146_097
    ensures WeekdayOf(YearStart(year + 400)) == WeekdayOf(YearStart(year))
  {
    var start, end := YearStart(year), YearStart(year + 400);
    YearStartIs(year, start);
    YearStartIs(year + 400, end);
    LeapDaysOfFourCenturies(year);
    SameWeekday(start, end);
  }

  lemma NextWeekday(on: Day)
    ensures WeekdayOf(on + 1) == (WeekdayOf(on) + 1) % 7
  {}

  lemma NumbersOf2000(year: int)
    requires year == 2000
    ensures LeapDays(year) == 485
  {}

  /** Weekdays follow each other, and the 1st of January 2000 was a Saturday, 5 when Monday is 0. */
  lemma WeekdaysOfTheCalendar(on: Day, year: int, newYear: Day)
    requires year == 2000 && newYear == YearStart(year)
    ensures WeekdayOf(on + 1) == (WeekdayOf(on) + 1) % 7
    ensures newYear == 730_485 && WeekdayOf(newYear) == 5
  {
    assert newYear == 730_485 by {
      YearStartIs(year, newYear);
      NumbersOf2000(year);
    }
    NextWeekday(on);
  }
}
