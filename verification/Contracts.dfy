/** Maintenance contracts: terms and notice, and the day each term, visit and period falls on. */
module Contracts {
  import opened Wrappers
  import opened Calendar
  import opened Rounding

  datatype Renewal = NoRenewal | FixedRenewal | IndefiniteRenewal

  datatype Terms = Terms(startsOn: Day, termMonths: int, renewal: Renewal, renewalMonths: Option<int>, noticeMonths: int)

  /** How many terms, visits and periods the loops look through. */
  const TERMS_LOOKED := 1200

  // --- Days a fixed number of months apart -----------------------------------------------------------

  type MonthCount = (Day, int) -> Day

  /**
   * All that terms, visits and periods need of counting months: more months
   * are later, a later day stays no earlier, and going back and forth never
   * ends later than it began.
   */
  ghost predicate Counts(add: MonthCount) {
    && (forall on, fewer, more :: fewer < more ==> add(on, fewer) < add(on, more))
    && (forall a, b, months :: a <= b ==> add(a, months) <= add(b, months))
    && (forall on :: add(on, 0) == on)
    && (forall on, i, j :: i + j == 0 ==> add(add(on, i), j) <= on)
  }

  /** The months of the calendar count so, though clamping to the end of a month makes days fall together. */
  lemma CalendarCounts()
    ensures Counts(AddMonths)
  {
    forall on, fewer, more | fewer < more ensures AddMonths(on, fewer) < AddMonths(on, more) {
      AddMonthsStrict(on, fewer, more);
    }
    forall a, b, months | a <= b ensures AddMonths(a, months) <= AddMonths(b, months) {
      AddMonthsMonotone(a, b, months);
    }
    forall on ensures AddMonths(on, 0) == on {
      AddNoMonths(on);
    }
    forall on, i, j | i + j == 0 ensures AddMonths(AddMonths(on, i), j) <= on {
      BackAndForthIsNotLater(on, i, j);
    }
  }

  lemma BackAndForthIsNotLater(on: Day, i: int, j: int)
    requires i + j == 0
    ensures AddMonths(AddMonths(on, i), j) <= on
  {
    AddMonthsThereAndBack(on, i, j);
  }

  type Schedule = int -> Day

  function Every(add: MonthCount, start: Day, firstMonths: int, months: int): Schedule {
    i => add(start, firstMonths + i * months)
  }

  ghost predicate Rises(at: Schedule) {
    forall i, j :: i < j ==> at(i) < at(j)
  }

  /** Counted from the start each time, the days keep their order. */
  lemma EveryRises(add: MonthCount, start: Day, firstMonths: int, months: int)
    requires Counts(add) && months >= 1
    ensures Rises(Every(add, start, firstMonths, months))
  {
    forall i: int, j: int | i < j ensures add(start, firstMonths + i * months) < add(start, firstMonths + j * months) {
      TimesStrict(i, j, months);
    }
  }

  /** The first index from one on for which a test holds, or the bound. */
  function FirstFrom(test: int -> bool, from: nat, bound: nat): (i: nat)
    requires from <= bound
    ensures from <= i <= bound
    ensures i < bound ==> test(i)
    ensures forall j :: from <= j < i ==> !test(j)
    decreases bound - from
  {
    if from == bound || test(from) then from else FirstFrom(test, from + 1, bound)
  }

  // --- Terms and notice ------------------------------------------------------------------------------

  function RenewalMonths(terms: Terms): int {
    if terms.renewalMonths.Some? then terms.renewalMonths.value else 0
  }

  /** The last days of the terms by their number, 0 for the first. */
  function Ends(add: MonthCount, terms: Terms): Schedule {
    i => Every(add, terms.startsOn, terms.termMonths, RenewalMonths(terms))(i) - 1
  }

  /** A notice has to be in by then to end the contract with the term. */
  function LastNoticeDay(add: MonthCount, termEndsOn: Day, noticeMonths: int): Day {
    add(termEndsOn + 1, -noticeMonths) - 1
  }

  predicate RunsOn(terms: Terms) {
    terms.renewal == IndefiniteRenewal || RenewalMonths(terms) < 1
  }

  function Reaches(ends: Schedule, on: Day): int -> bool {
    i => on <= ends(i)
  }

  function InTimeFor(add: MonthCount, ends: Schedule, noticeMonths: int, receivedOn: Day): int -> bool {
    i => receivedOn <= LastNoticeDay(add, ends(i), noticeMonths)
  }

  /** The search for the running term, by the index it finds. */
  function TermEnd(add: MonthCount, terms: Terms, on: Day): Option<Day> {
    var ends := Ends(add, terms);
    if on <= ends(0) || terms.renewal == NoRenewal then Some(ends(0))
    else if RunsOn(terms) then None
    else
      var i := FirstFrom(Reaches(ends, on), 1, TERMS_LOOKED);
      if i < TERMS_LOOKED then Some(ends(i)) else None
  }

  method TermEndOn(add: MonthCount, terms: Terms, on: Day) returns (end: Option<Day>)
    ensures end == TermEnd(add, terms, on)
  {
    var ends := Ends(add, terms);
    var first := ends(0);
    if on <= first || terms.renewal == NoRenewal {
      return Some(first);
    }
    if terms.renewal == IndefiniteRenewal || RenewalMonths(terms) < 1 {
      return None;
    }
    for index := 1 to TERMS_LOOKED
      invariant FirstFrom(Reaches(ends, on), 1, TERMS_LOOKED) == FirstFrom(Reaches(ends, on), index, TERMS_LOOKED)
    {
      if on <= ends(index) {
        return Some(ends(index));
      }
    }
    return None;
  }

  /** The end a notice brings, by the index of the term it finds. */
  function NoticeEnd(add: MonthCount, terms: Terms, receivedOn: Day): Day {
    var ends := Ends(add, terms);
    if terms.renewal == NoRenewal then ends(0)
    else if receivedOn <= LastNoticeDay(add, ends(0), terms.noticeMonths) then ends(0)
    else if RunsOn(terms) then add(receivedOn, terms.noticeMonths)
    else ends(FirstFrom(InTimeFor(add, ends, terms.noticeMonths, receivedOn), 1, TERMS_LOOKED))
  }

  method EndAfterNotice(add: MonthCount, terms: Terms, receivedOn: Day) returns (end: Day)
    ensures end == NoticeEnd(add, terms, receivedOn)
  {
    var ends := Ends(add, terms);
    var first := ends(0);
    if terms.renewal == NoRenewal {
      return first;
    }
    if receivedOn <= LastNoticeDay(add, first, terms.noticeMonths) {
      return first;
    }
    if terms.renewal == IndefiniteRenewal || RenewalMonths(terms) < 1 {
      return add(receivedOn, terms.noticeMonths);
    }
    ghost var test := InTimeFor(add, ends, terms.noticeMonths, receivedOn);
    for index := 1 to TERMS_LOOKED
      invariant FirstFrom(test, 1, TERMS_LOOKED) == FirstFrom(test, index, TERMS_LOOKED)
    {
      if receivedOn <= LastNoticeDay(add, ends(index), terms.noticeMonths) {
        return ends(index);
      }
    }
    return ends(TERMS_LOOKED);
  }

  lemma NoticeDaysRise(add: MonthCount, earlier: Day, later: Day, noticeMonths: int)
    requires Counts(add) && earlier <= later
    ensures LastNoticeDay(add, earlier, noticeMonths) <= LastNoticeDay(add, later, noticeMonths)
    ensures noticeMonths >= 0 ==> LastNoticeDay(add, earlier, noticeMonths) <= earlier
  {
    assert add(earlier + 1, -noticeMonths) <= add(later + 1, -noticeMonths);
    assert noticeMonths > 0 ==> add(earlier + 1, -noticeMonths) < add(earlier + 1, 0);
  }

  lemma NoticePeriodRuns(add: MonthCount, end: Day, noticeMonths: int, receivedOn: Day)
    requires Counts(add) && receivedOn <= LastNoticeDay(add, end, noticeMonths)
    ensures add(receivedOn, noticeMonths) <= end + 1
  {
    assert add(receivedOn, noticeMonths) <= add(add(end + 1, -noticeMonths), noticeMonths) <= end + 1;
  }

  ghost predicate RenewsByTerms(terms: Terms) {
    terms.renewal == FixedRenewal && RenewalMonths(terms) >= 1 && terms.noticeMonths >= 0
  }

  lemma TermsRise(add: MonthCount, terms: Terms)
    requires Counts(add) && RenewsByTerms(terms)
    ensures Rises(Ends(add, terms))
  {
    EveryRises(add, terms.startsOn, terms.termMonths, RenewalMonths(terms));
  }

  /** The first index does not depend on where the search begins, once those before are known not to pass. */
  lemma {:induction false} FirstIs(test: int -> bool, from: nat, bound: nat, i: nat)
    requires from <= i <= bound && (i < bound ==> test(i)) && forall j :: from <= j < i ==> !test(j)
    ensures FirstFrom(test, from, bound) == i
  {
    var f := FirstFrom(test, from, bound);
    assert test(f) || f == bound;
    assert test(i) || i == bound;
  }

  /** The number of the term a notice ends, among those looked through. */
  function TermOfNotice(add: MonthCount, ends: Schedule, noticeMonths: int, receivedOn: Day): nat {
    FirstFrom(InTimeFor(add, ends, noticeMonths, receivedOn), 0, TERMS_LOOKED)
  }

  /** A notice in time for a term is in time for every later one. */
  lemma InTimeStays(add: MonthCount, ends: Schedule, noticeMonths: int, receivedOn: Day, i: int, j: int)
    requires Counts(add) && Rises(ends) && i <= j && InTimeFor(add, ends, noticeMonths, receivedOn)(i)
    ensures InTimeFor(add, ends, noticeMonths, receivedOn)(j)
  {
    assert i < j ==> ends(i) < ends(j);
    NoticeDaysRise(add, ends(i), ends(j), noticeMonths);
  }

  ghost predicate UpwardClosed(test: int -> bool) {
    forall i, j :: i <= j && test(i) ==> test(j)
  }

  lemma InTimeIsUpwardClosed(add: MonthCount, ends: Schedule, noticeMonths: int, receivedOn: Day)
    requires Counts(add) && Rises(ends)
    ensures UpwardClosed(InTimeFor(add, ends, noticeMonths, receivedOn))
  {
    var test := InTimeFor(add, ends, noticeMonths, receivedOn);
    forall i, j | i <= j && test(i) ensures test(j) {
      InTimeStays(add, ends, noticeMonths, receivedOn, i, j);
    }
  }

  /** The search from the second term on, after the first was asked for by itself, is one search from the first. */
  lemma NoticeEndIs(add: MonthCount, terms: Terms, receivedOn: Day)
    requires RenewsByTerms(terms)
    ensures NoticeEnd(add, terms, receivedOn)
         == Ends(add, terms)(TermOfNotice(add, Ends(add, terms), terms.noticeMonths, receivedOn))
  {
    var test := InTimeFor(add, Ends(add, terms), terms.noticeMonths, receivedOn);
    if !test(0) {
      FirstIs(test, 1, TERMS_LOOKED, FirstFrom(test, 0, TERMS_LOOKED));
    }
  }

  ghost predicate FirstToPass(test: int -> bool, i: nat) {
    (forall j :: 0 <= j < i ==> !test(j)) && (i < TERMS_LOOKED ==> forall j :: i <= j ==> test(j))
  }

  lemma FirstPasses(test: int -> bool)
    requires UpwardClosed(test)
    ensures FirstToPass(test, FirstFrom(test, 0, TERMS_LOOKED))
  {}

  /**
   * A notice ends a contract that renews by terms with the first term whose
   * last notice day it still met, and every later term would have done too. By
   * then the whole notice period has run.
   */
  lemma NoticeEndsItsTerm(add: MonthCount, terms: Terms, receivedOn: Day)
    requires Counts(add) && RenewsByTerms(terms)
    ensures var ends, n := Ends(add, terms), terms.noticeMonths;
      var i := TermOfNotice(add, ends, n, receivedOn);
      && NoticeEnd(add, terms, receivedOn) == ends(i)
      && FirstToPass(InTimeFor(add, ends, n, receivedOn), i)
      && (i < TERMS_LOOKED ==> add(receivedOn, n) <= ends(i) + 1)
  {
    var ends, n := Ends(add, terms), terms.noticeMonths;
    NoticeEndIs(add, terms, receivedOn);
    TermsRise(add, terms);
    InTimeIsUpwardClosed(add, ends, n, receivedOn);
    FirstPasses(InTimeFor(add, ends, n, receivedOn));
    PeriodRunsByThen(add, ends, n, receivedOn, TermOfNotice(add, ends, n, receivedOn));
  }

  lemma PeriodRunsByThen(add: MonthCount, ends: Schedule, noticeMonths: int, receivedOn: Day, i: int)
    requires Counts(add)
    ensures InTimeFor(add, ends, noticeMonths, receivedOn)(i) ==> add(receivedOn, noticeMonths) <= ends(i) + 1
  {
    if receivedOn <= LastNoticeDay(add, ends(i), noticeMonths) {
      NoticePeriodRuns(add, ends(i), noticeMonths, receivedOn);
    }
  }

  lemma LaterNoticeLaterTerm(add: MonthCount, ends: Schedule, noticeMonths: int, receivedOn: Day, later: Day)
    requires receivedOn <= later
    ensures TermOfNotice(add, ends, noticeMonths, receivedOn) <= TermOfNotice(add, ends, noticeMonths, later)
  {
    var j := TermOfNotice(add, ends, noticeMonths, later);
    var test, test' := InTimeFor(add, ends, noticeMonths, receivedOn), InTimeFor(add, ends, noticeMonths, later);
    assert j < TERMS_LOOKED ==> test'(j) && test(j);
  }

  /** Of a contract that renews by terms: a later notice never ends it earlier. */
  lemma LaterNoticeEndsLater(add: MonthCount, terms: Terms, receivedOn: Day, later: Day)
    requires Counts(add) && RenewsByTerms(terms) && receivedOn <= later
    ensures NoticeEnd(add, terms, receivedOn) <= NoticeEnd(add, terms, later)
  {
    var ends := Ends(add, terms);
    NoticeEndIs(add, terms, receivedOn);
    NoticeEndIs(add, terms, later);
    LaterNoticeLaterTerm(add, ends, terms.noticeMonths, receivedOn, later);
    TermsRise(add, terms);
  }

  lemma RunningTermIsNotLater(add: MonthCount, ends: Schedule, noticeMonths: int, on: Day)
    requires Counts(add) && Rises(ends) && noticeMonths >= 0
    ensures FirstFrom(Reaches(ends, on), 0, TERMS_LOOKED) <= TermOfNotice(add, ends, noticeMonths, on)
  {
    var i := TermOfNotice(add, ends, noticeMonths, on);
    if i < TERMS_LOOKED {
      assert InTimeFor(add, ends, noticeMonths, on)(i);
      NoticeDaysRise(add, ends(i), ends(i), noticeMonths);
      assert Reaches(ends, on)(i);
    }
  }

  lemma TermEndIs(add: MonthCount, terms: Terms, on: Day)
    requires RenewsByTerms(terms)
    ensures var ends := Ends(add, terms);
      var k := FirstFrom(Reaches(ends, on), 0, TERMS_LOOKED);
      if k < TERMS_LOOKED then TermEnd(add, terms, on) == Some(ends(k)) && on <= ends(k) else TermEnd(add, terms, on) == None
  {
    var ends := Ends(add, terms);
    var test := Reaches(ends, on);
    var k := FirstFrom(test, 0, TERMS_LOOKED);
    assert k < TERMS_LOOKED ==> test(k);
    if !test(0) {
      FirstIs(test, 1, TERMS_LOOKED, k);
    }
  }

  /** Of a contract that renews by terms: whatever term is running when notice is given runs to its end. */
  lemma NoticeReachesTheRunningTerm(add: MonthCount, terms: Terms, receivedOn: Day)
    requires Counts(add) && RenewsByTerms(terms)
    ensures TermEnd(add, terms, receivedOn).Some? ==>
      receivedOn <= TermEnd(add, terms, receivedOn).value <= NoticeEnd(add, terms, receivedOn)
  {
    TermsRise(add, terms);
    NoticeEndIs(add, terms, receivedOn);
    TermEndIs(add, terms, receivedOn);
    RunningTermIsNotLater(add, Ends(add, terms), terms.noticeMonths, receivedOn);
  }

  /** The day after the `i`-th term, counted from the start each time. */
  ghost predicate EndsTerm(add: MonthCount, terms: Terms, i: int, next: Day) {
    terms.renewalMonths.Some? && next == add(terms.startsOn, terms.termMonths + i * terms.renewalMonths.value)
  }

  lemma EveryIs(add: MonthCount, start: Day, firstMonths: int, months: int, i: int)
    ensures Every(add, start, firstMonths, months)(i) == add(start, firstMonths + i * months)
  {}

  lemma TermEndsInDates(add: MonthCount, terms: Terms, i: int)
    requires terms.renewalMonths.Some?
    ensures EndsTerm(add, terms, i, Ends(add, terms)(i) + 1)
  {
    EveryIs(add, terms.startsOn, terms.termMonths, RenewalMonths(terms), i);
  }

  /**
   * The running term in dates: terms follow each other in the months of the
   * renewal, the one found reaches the day, and the one before does not.
   */
  lemma RunningTermInDates(add: MonthCount, terms: Terms, on: Day) returns (i: nat, next: Day, before: Day)
    requires RenewsByTerms(terms)
    ensures i <= 1200 && EndsTerm(add, terms, i, next) && EndsTerm(add, terms, i - 1, before)
    ensures i < 1200 ==> TermEnd(add, terms, on) == Some(next - 1) && on <= next - 1
    ensures i == 1200 ==> TermEnd(add, terms, on) == None
    ensures i > 0 ==> before - 1 < on
  {
    var ends := Ends(add, terms);
    i := FirstFrom(Reaches(ends, on), 0, TERMS_LOOKED);
    next, before := ends(i) + 1, ends(i - 1) + 1;
    TermEndIs(add, terms, on);
    TermEndsInDates(add, terms, i);
    TermEndsInDates(add, terms, i - 1);
    assert i > 0 ==> !Reaches(ends, on)(i - 1);
  }

  /** The term a notice ends is the first whose last day for it the notice met. */
  lemma TermMetByNotice(add: MonthCount, ends: Schedule, noticeMonths: int, receivedOn: Day, end: Day)
      returns (i: nat, next: Day, before: Day)
    requires end == ends(TermOfNotice(add, ends, noticeMonths, receivedOn))
    ensures i <= 1200 && end == next - 1 && next == ends(i) + 1 && before == ends(i - 1) + 1
    ensures i < 1200 ==> receivedOn <= add(next, -noticeMonths) - 1
    ensures i > 0 ==> receivedOn > add(before, -noticeMonths) - 1
  {
    var test := InTimeFor(add, ends, noticeMonths, receivedOn);
    i := FirstFrom(test, 0, TERMS_LOOKED);
    next, before := ends(i) + 1, ends(i - 1) + 1;
    assert i < TERMS_LOOKED ==> test(i);
    assert i > 0 ==> !test(i - 1);
  }

  lemma TermMetInDates(add: MonthCount, terms: Terms, receivedOn: Day, end: Day) returns (i: nat, next: Day, before: Day)
    requires terms.renewalMonths.Some?
    requires end == Ends(add, terms)(TermOfNotice(add, Ends(add, terms), terms.noticeMonths, receivedOn))
    ensures i <= 1200 && EndsTerm(add, terms, i, next) && EndsTerm(add, terms, i - 1, before)
    ensures end == next - 1
    ensures i < 1200 ==> receivedOn <= add(next, -terms.noticeMonths) - 1
    ensures i > 0 ==> receivedOn > add(before, -terms.noticeMonths) - 1
  {
    i, next, before := TermMetByNotice(add, Ends(add, terms), terms.noticeMonths, receivedOn, end);
    TermEndsInDates(add, terms, i);
    TermEndsInDates(add, terms, i - 1);
  }

  /** The end a notice brings in dates: the notice meets the last day for that term, and missed the one before. */
  lemma NoticeInDates(add: MonthCount, terms: Terms, receivedOn: Day) returns (i: nat, next: Day, before: Day)
    requires RenewsByTerms(terms)
    ensures i <= 1200 && EndsTerm(add, terms, i, next) && EndsTerm(add, terms, i - 1, before)
    ensures NoticeEnd(add, terms, receivedOn) == next - 1
    ensures i < 1200 ==> receivedOn <= add(next, -terms.noticeMonths) - 1
    ensures i > 0 ==> receivedOn > add(before, -terms.noticeMonths) - 1
  {
    NoticeEndIs(add, terms, receivedOn);
    i, next, before := TermMetInDates(add, terms, receivedOn, NoticeEnd(add, terms, receivedOn));
  }

  lemma FirstTermInDates(add: MonthCount, terms: Terms)
    ensures Ends(add, terms)(0) == add(terms.startsOn, terms.termMonths) - 1
  {
    var months := RenewalMonths(terms);
    EveryIs(add, terms.startsOn, terms.termMonths, months, 0);
    assert terms.termMonths + 0 * months == terms.termMonths;
  }

  /** Without a renewal the first term is all there is, whatever the day and whenever notice is given. */
  lemma NoRenewalInDates(add: MonthCount, terms: Terms, on: Day)
    requires terms.renewal == NoRenewal
    ensures var end := add(terms.startsOn, terms.termMonths) - 1;
      TermEnd(add, terms, on) == Some(end) && NoticeEnd(add, terms, on) == end
  {
    FirstTermInDates(add, terms);
  }

  /** Running on after the first term: it has no later end, and a late notice needs its months from the day it came in. */
  lemma RunningOnInDates(add: MonthCount, terms: Terms, on: Day)
    requires terms.renewal != NoRenewal
    requires terms.renewal == IndefiniteRenewal || terms.renewalMonths.None? || terms.renewalMonths.value < 1
    ensures var next := add(terms.startsOn, terms.termMonths);
      && TermEnd(add, terms, on) == (if on < next then Some(next - 1) else None)
      && NoticeEnd(add, terms, on)
         == if on < add(next, -terms.noticeMonths) then next - 1 else add(on, terms.noticeMonths)
  {
    FirstTermInDates(add, terms);
  }

  // --- A contract that runs on -----------------------------------------------------------------------

  ghost predicate RunsOnAfterItsTerm(terms: Terms) {
    terms.renewal != NoRenewal && RunsOn(terms)
  }

  /**
   * Whether a notice can never end a contract that runs on before its first
   * term turns on the earliest notice that is too late for the term: it is
   * enough that a notice period forth from there comes no further than a day
   * short of where it was counted back from.
   */
  lemma NoticeKeepsTheFirstTerm(add: MonthCount, terms: Terms)
    requires Counts(add) && RunsOnAfterItsTerm(terms)
    ensures var n, end := terms.noticeMonths, Ends(add, terms)(0);
      (forall receivedOn :: NoticeEnd(add, terms, receivedOn) >= end) <==> add(add(end + 1, -n), n) >= end
  {
    var n, end := terms.noticeMonths, Ends(add, terms)(0);
    var tooLate := add(end + 1, -n);
    assert NoticeEnd(add, terms, tooLate) == add(tooLate, n);
    forall receivedOn ensures NoticeEnd(add, terms, receivedOn) >= end || NoticeEnd(add, terms, receivedOn) >= add(tooLate, n) {
      assert receivedOn >= tooLate ==> add(receivedOn, n) >= add(tooLate, n);
    }
  }

  lemma RunsOnEndsAt(add: MonthCount, terms: Terms, receivedOn: Day)
    requires RunsOnAfterItsTerm(terms)
    ensures var n, end := terms.noticeMonths, Ends(add, terms)(0);
      NoticeEnd(add, terms, receivedOn) == if receivedOn < add(end + 1, -n) then end else add(receivedOn, n)
  {}

  /** The two days around the last for a notice to the end of the first term. */
  lemma AroundTheLastDay(add: MonthCount, terms: Terms) returns (inTime: Day, tooLate: Day)
    requires RunsOnAfterItsTerm(terms)
    ensures var n, end := terms.noticeMonths, Ends(add, terms)(0);
      && inTime <= tooLate == add(end + 1, -n)
      && NoticeEnd(add, terms, inTime) == end && NoticeEnd(add, terms, tooLate) == add(add(end + 1, -n), n)
  {
    tooLate := add(Ends(add, terms)(0) + 1, -terms.noticeMonths);
    inTime := tooLate - 1;
    RunsOnEndsAt(add, terms, inTime);
    RunsOnEndsAt(add, terms, tooLate);
  }

  ghost predicate LaterNeverEarlier(add: MonthCount, terms: Terms) {
    forall receivedOn, later :: receivedOn <= later ==> NoticeEnd(add, terms, receivedOn) <= NoticeEnd(add, terms, later)
  }

  /** Of a contract that runs on a later notice never ends it earlier, on the very same condition. */
  lemma LaterNoticeEndsLaterIfTheTermIsKept(add: MonthCount, terms: Terms)
    requires Counts(add) && RunsOnAfterItsTerm(terms)
    ensures var n, end := terms.noticeMonths, Ends(add, terms)(0);
      LaterNeverEarlier(add, terms) <==> add(add(end + 1, -n), n) >= end
  {
    var n, end := terms.noticeMonths, Ends(add, terms)(0);
    var inTime, tooLate := AroundTheLastDay(add, terms);
    if add(tooLate, n) >= end {
      forall receivedOn, later | receivedOn <= later
        ensures NoticeEnd(add, terms, receivedOn) <= NoticeEnd(add, terms, later)
      {
        RunsOnEndsAt(add, terms, receivedOn);
        RunsOnEndsAt(add, terms, later);
        assert tooLate <= later ==> add(tooLate, n) <= add(later, n);
      }
    }
  }

  ghost predicate ReachesTheRunningTerm(add: MonthCount, terms: Terms) {
    forall receivedOn :: TermEnd(add, terms, receivedOn).Some? ==>
      NoticeEnd(add, terms, receivedOn) >= TermEnd(add, terms, receivedOn).value
  }

  /** And on that condition again a first term that is running when notice is given runs to its end. */
  lemma NoticeReachesTheFirstTermIfItIsKept(add: MonthCount, terms: Terms)
    requires Counts(add) && RunsOnAfterItsTerm(terms) && terms.noticeMonths >= 0
    ensures var n, end := terms.noticeMonths, Ends(add, terms)(0);
      ReachesTheRunningTerm(add, terms) <==> add(add(end + 1, -n), n) >= end
  {
    var n, end := terms.noticeMonths, Ends(add, terms)(0);
    var inTime, tooLate := AroundTheLastDay(add, terms);
    if n > 0 {
      assert tooLate < add(end + 1, 0);
      assert TermEnd(add, terms, tooLate) == Some(end);
    } else {
      assert tooLate == end + 1;
    }
    NoticeKeepsTheFirstTerm(add, terms);
  }

  /**
   * By the calendar that is so exactly where the month the notice period
   * reaches back to lacks at most one of the days of the day after the term.
   */
  lemma BackAndForthIsADayShort(next: Day, noticeMonths: int)
    ensures AddMonths(AddMonths(next, -noticeMonths), noticeMonths) >= next - 1
       <==> DayOfMonth(next) <= MonthLength(MonthOf(next) - noticeMonths) + 1
  {
    AddMonthsThereAndBack(next, -noticeMonths, noticeMonths);
    var month := MonthOf(next) - noticeMonths;
    ADayShort(next, AddMonths(AddMonths(next, -noticeMonths), noticeMonths), month, MonthLength(month), DayOfMonth(next));
  }

  lemma ADayShort(next: Day, reached: Day, month: int, length: int, date: int)
    requires reached == next - Lacking(next, month) && length == MonthLength(month) && date == DayOfMonth(next)
    ensures reached >= next - 1 <==> date <= length + 1
  {}

  /** It is so for every contract that starts by the 29th. */
  lemma EarlyStartIsADayShort(startsOn: Day, termMonths: int, noticeMonths: int)
    requires DayOfMonth(startsOn) <= 29
    ensures var next := AddMonths(startsOn, termMonths);
      AddMonths(AddMonths(next, -noticeMonths), noticeMonths) >= next - 1
  {
    var next := AddMonths(startsOn, termMonths);
    AddMonthsIs(startsOn, termMonths);
    BackAndForthIsADayShort(next, noticeMonths);
  }

  lemma LengthsOfMarch(february: int)
    requires february % 12 == 1
    ensures MonthLength(february + 1) == 31 && MonthLength(february - 11) == 31
  {}

  lemma AMonthBackFromTheEndOfMarch(february: int)
    requires MonthLength(february) == 28 && MonthLength(february + 1) == 31 && MonthLength(february - 11) == 31
    ensures AddMonths(InMonth(february - 11, 31), 12) == InMonth(february + 1, 31)
    ensures AddMonths(InMonth(february + 1, 31), -1) == InMonth(february, 28)
    ensures AddMonths(InMonth(february, 28), 1) == InMonth(february + 1, 28)
  {
    AddMonthsFrom(february - 11, 31, 12);
    AddMonthsFrom(february + 1, 31, -1);
    AddMonthsFrom(february, 28, 1);
  }

  lemma NoticeShort(add: MonthCount, start: Day, next: Day, receivedOn: Day, end: Day)
    requires add(start, 12) == next && add(next, -1) == receivedOn && add(receivedOn, 1) == end
    ensures var terms := Terms(start, 12, IndefiniteRenewal, None, 1);
      Ends(add, terms)(0) == next - 1 && NoticeEnd(add, terms, receivedOn) == end
  {
    var terms := Terms(start, 12, IndefiniteRenewal, None, 1);
    assert Every(add, start, 12, RenewalMonths(terms))(0) == add(start, 12 + 0 * 0);
  }

  /**
   * From the 31st of March for a year, with a month's notice: the notice of the
   * 28th of February comes a day late and ends the contract on the 28th of
   * March, two days before its first term.
   */
  lemma NoticeCanCutTheFirstTerm(february: int) returns (terms: Terms, receivedOn: Day)
    requires february % 12 == 1 && MonthLength(february) == 28
    ensures terms == Terms(InMonth(february - 11, 31), 12, IndefiniteRenewal, None, 1) && receivedOn == InMonth(february, 28)
    ensures NoticeEnd(AddMonths, terms, receivedOn) == InMonth(february + 1, 28) == Ends(AddMonths, terms)(0) - 2
  {
    terms := Terms(InMonth(february - 11, 31), 12, IndefiniteRenewal, None, 1);
    receivedOn := InMonth(february, 28);
    LengthsOfMarch(february);
    AMonthBackFromTheEndOfMarch(february);
    NoticeShort(AddMonths, terms.startsOn, InMonth(february + 1, 31), receivedOn, InMonth(february + 1, 28));
  }

  // --- Visits and periods ----------------------------------------------------------------------------

  /** Whether a day of the schedule is still to come: later than the last that was dealt with, and due at all. */
  function StillToCome(at: Schedule, after: Option<Day>, notBefore: Day): int -> bool {
    i => (after.None? || at(i) > after.value) && at(i) >= notBefore
  }

  function NextIndex(at: Schedule, after: Option<Day>, notBefore: Day): nat {
    FirstFrom(StillToCome(at, after, notBefore), 0, TERMS_LOOKED)
  }

  /** The number of the next day of the schedule, or none when it lies after the last day or beyond what is looked through. */
  function Next(at: Schedule, after: Option<Day>, notBefore: Day, lastDay: Option<Day>): Option<nat> {
    var i := NextIndex(at, after, notBefore);
    if i == TERMS_LOOKED || (lastDay.Some? && at(i) > lastDay.value) then None else Some(i)
  }

  ghost predicate IsDue(day: Day, after: Option<Day>, notBefore: Day) {
    (after.None? || day > after.value) && day >= notBefore
  }

  /** The `i`-th day of a schedule, counted from its start each time. */
  ghost predicate IsDay(add: MonthCount, start: Day, months: int, i: int, day: Day) {
    day == add(start, i * months)
  }

  /** No day of the schedule that is due comes before the `i`-th. */
  ghost predicate NoneDueBefore(add: MonthCount, start: Day, months: int, i: int, after: Option<Day>, notBefore: Day) {
    forall j, day :: 0 <= j < i && IsDay(add, start, months, j, day) ==> !IsDue(day, after, notBefore)
  }

  /** The first day due is the `i`-th, or there is none among the 1200 looked through that the contract still reaches. */
  ghost predicate IsFirstDue(add: MonthCount, start: Day, months: int, after: Option<Day>, notBefore: Day,
                             lastDay: Option<Day>, found: Option<nat>) {
    match found
    case Some(i) =>
      && i < 1200 && NoneDueBefore(add, start, months, i, after, notBefore)
      && IsDue(add(start, i * months), after, notBefore) && (lastDay.Some? ==> add(start, i * months) <= lastDay.value)
    case None =>
      forall j, day :: 0 <= j < 1200 && IsDay(add, start, months, j, day) && IsDue(day, after, notBefore) ==>
        lastDay.Some? && day > lastDay.value
  }

  lemma NextInDates(add: MonthCount, start: Day, months: int, after: Option<Day>, notBefore: Day, lastDay: Option<Day>)
    requires Counts(add) && months >= 1
    ensures IsFirstDue(add, start, months, after, notBefore, lastDay, Next(Every(add, start, 0, months), after, notBefore, lastDay))
  {
    var at := Every(add, start, 0, months);
    var test := StillToCome(at, after, notBefore);
    var i := NextIndex(at, after, notBefore);
    EveryRises(add, start, 0, months);
    forall j, day | IsDay(add, start, months, j, day) ensures at(j) == day && (test(j) <==> IsDue(day, after, notBefore)) {}
    assert i < TERMS_LOOKED ==> test(i);
    forall j, day | 0 <= j < 1200 && IsDay(add, start, months, j, day) && IsDue(day, after, notBefore)
      ensures i <= j && at(i) <= day
    {
      assert test(j);
      assert i < j ==> at(i) < at(j);
    }
    assert IsDay(add, start, months, i, at(i));
  }

  ghost predicate IsNextVisit(add: MonthCount, firstVisitOn: Day, intervalMonths: int, after: Option<Day>, notBefore: Day,
                              lastDay: Option<Day>, visit: Option<Day>) {
    exists i: Option<nat> ::
      && IsFirstDue(add, firstVisitOn, intervalMonths, after, notBefore, lastDay, i)
      && i.Some? == visit.Some?
      && (i.Some? ==> visit.value == add(firstVisitOn, i.value * intervalMonths))
  }

  method NextVisitOn(add: MonthCount, firstVisitOn: Day, intervalMonths: int,
                     lastMadeOn: Option<Day>, notBefore: Day, lastDay: Option<Day>) returns (visit: Option<Day>)
    requires Counts(add)
    ensures intervalMonths < 1 ==> visit == None
    ensures intervalMonths >= 1 ==>
      var at := Every(add, firstVisitOn, 0, intervalMonths);
      visit == match Next(at, lastMadeOn, notBefore, lastDay) case None => None case Some(i) => Some(at(i))
    ensures intervalMonths >= 1 ==> IsNextVisit(add, firstVisitOn, intervalMonths, lastMadeOn, notBefore, lastDay, visit)
  {
    if intervalMonths < 1 {
      return None;
    }
    var at := Every(add, firstVisitOn, 0, intervalMonths);
    EveryRises(add, firstVisitOn, 0, intervalMonths);
    NextInDates(add, firstVisitOn, intervalMonths, lastMadeOn, notBefore, lastDay);
    var i := NextOf(at, lastMadeOn, notBefore, lastDay);
    return if i.None? then None else Some(at(i.value));
  }

  /** The loop of visits and of periods: the last day is asked for before anything else. */
  method NextOf(at: Schedule, after: Option<Day>, notBefore: Day, lastDay: Option<Day>) returns (next: Option<nat>)
    requires Rises(at)
    ensures next == Next(at, after, notBefore, lastDay)
  {
    ghost var test := StillToCome(at, after, notBefore);
    for index := 0 to TERMS_LOOKED
      invariant FirstFrom(test, 0, TERMS_LOOKED) == FirstFrom(test, index, TERMS_LOOKED)
    {
      var day := at(index);
      if lastDay.Some? && day > lastDay.value {
        assert index <= FirstFrom(test, 0, TERMS_LOOKED);
        return None;
      }
      if (after.None? || day > after.value) && day >= notBefore {
        return Some(index);
      }
    }
    return None;
  }

  /** All that comes when each day found is made the last one, one call after the other. */
  ghost function All(at: Schedule, after: Option<Day>, notBefore: Day, lastDay: Option<Day>): seq<nat>
    requires Rises(at)
    decreases TERMS_LOOKED - NextIndex(at, after, notBefore)
  {
    match Next(at, after, notBefore, lastDay)
    case None => []
    case Some(i) =>
      MadeIsPassed(at, after, notBefore, i);
      [i] + All(at, Some(at(i)), notBefore, lastDay)
  }

  lemma MadeIsPassed(at: Schedule, after: Option<Day>, notBefore: Day, i: nat)
    requires Rises(at) && i == NextIndex(at, after, notBefore) < TERMS_LOOKED
    ensures NextIndex(at, Some(at(i)), notBefore) == i + 1
  {
    var test := StillToCome(at, Some(at(i)), notBefore);
    assert StillToCome(at, after, notBefore)(i);
    forall j | 0 <= j < i + 1 ensures !test(j) {
      assert j < i ==> at(j) < at(i);
    }
    assert at(i) < at(i + 1);
    FirstIs(test, 0, TERMS_LOOKED, i + 1);
  }

  /** Numbers one after the other from a first one, up to the last day or to the end of what is looked through. */
  ghost predicate InARow(all: seq<nat>, first: nat, at: Schedule, lastDay: Option<Day>) {
    && (forall k :: 0 <= k < |all| ==> all[k] == first + k < TERMS_LOOKED && (lastDay.Some? ==> at(first + k) <= lastDay.value))
    && (first + |all| == TERMS_LOOKED || (lastDay.Some? && at(first + |all|) > lastDay.value))
  }

  lemma RowGrows(all: seq<nat>, first: nat, rest: seq<nat>, at: Schedule, lastDay: Option<Day>)
    requires all == [first] + rest && InARow(rest, first + 1, at, lastDay)
    requires first < TERMS_LOOKED && (lastDay.Some? ==> at(first) <= lastDay.value)
    ensures InARow(all, first, at, lastDay)
  {
    forall k | 0 <= k < |all| ensures all[k] == first + k < TERMS_LOOKED && (lastDay.Some? ==> at(first + k) <= lastDay.value) {
      if k > 0 {
        assert all[k] == rest[k - 1] == first + 1 + (k - 1);
      }
    }
  }

  /**
   * Fed back call by call, the schedule comes one day after the other from the
   * first that is due, and stops only at the last day or at the end of what is
   * looked through: no day of it is skipped.
   */
  lemma {:induction false} AllInARow(at: Schedule, after: Option<Day>, notBefore: Day, lastDay: Option<Day>)
    requires Rises(at)
    ensures InARow(All(at, after, notBefore, lastDay), NextIndex(at, after, notBefore), at, lastDay)
    decreases TERMS_LOOKED - NextIndex(at, after, notBefore)
  {
    var first := NextIndex(at, after, notBefore);
    if Next(at, after, notBefore, lastDay).Some? {
      MadeIsPassed(at, after, notBefore, first);
      AllInARow(at, Some(at(first)), notBefore, lastDay);
      RowGrows(All(at, after, notBefore, lastDay), first, All(at, Some(at(first)), notBefore, lastDay), at, lastDay);
    }
  }

  datatype Rhythm = PerVisit | Monthly | Quarterly | Yearly

  function PeriodMonths(rhythm: Rhythm): Option<int> {
    match rhythm
    case PerVisit => None
    case Monthly => Some(1)
    case Quarterly => Some(3)
    case Yearly => Some(12)
  }

  datatype Period = Period(from: Day, until: Day, cut: bool)

  /** From a day of the schedule up to the next, that one excluded; less where the contract ends first. */
  function PeriodAt(at: Schedule, lastDay: Option<Day>, i: int): Period {
    var until := at(i + 1) - 1;
    var cut := lastDay.Some? && until > lastDay.value;
    Period(at(i), if cut then lastDay.value else until, cut)
  }

  /** From its day of the calendar to the day before the one a rhythm later, or to the last day if that is earlier. */
  ghost predicate IsPeriod(add: MonthCount, startsOn: Day, months: int, lastDay: Option<Day>, i: nat, period: Period) {
    var full := add(startsOn, (i + 1) * months) - 1;
    && period.from == add(startsOn, i * months)
    && period.cut == (lastDay.Some? && lastDay.value < full)
    && period.until == if period.cut then lastDay.value else full
  }

  ghost predicate IsNextPeriod(add: MonthCount, startsOn: Day, months: int, after: Option<Day>, notBefore: Day,
                               lastDay: Option<Day>, period: Option<Period>) {
    exists i: Option<nat> ::
      && IsFirstDue(add, startsOn, months, after, notBefore, lastDay, i)
      && i.Some? == period.Some?
      && (i.Some? ==> IsPeriod(add, startsOn, months, lastDay, i.value, period.value))
  }

  lemma NextPeriodInDates(add: MonthCount, startsOn: Day, months: int, after: Option<Day>, notBefore: Day, lastDay: Option<Day>)
    requires Counts(add) && months >= 1
    ensures var at := Every(add, startsOn, 0, months);
      var next := Next(at, after, notBefore, lastDay);
      IsNextPeriod(add, startsOn, months, after, notBefore, lastDay,
                   if next.None? then None else Some(PeriodAt(at, lastDay, next.value)))
  {
    var at := Every(add, startsOn, 0, months);
    var next := Next(at, after, notBefore, lastDay);
    NextInDates(add, startsOn, months, after, notBefore, lastDay);
    if next.Some? {
      EveryIs(add, startsOn, 0, months, next.value);
      EveryIs(add, startsOn, 0, months, next.value + 1);
      assert IsPeriod(add, startsOn, months, lastDay, next.value, PeriodAt(at, lastDay, next.value));
    }
  }

  method NextPeriod(add: MonthCount, startsOn: Day, rhythm: Rhythm,
                    lastBilledFrom: Option<Day>, notBefore: Day, lastDay: Option<Day>) returns (period: Option<Period>)
    requires Counts(add)
    ensures rhythm == PerVisit ==> period == None
    ensures rhythm != PerVisit ==>
      var at := Every(add, startsOn, 0, PeriodMonths(rhythm).value);
      period == match Next(at, lastBilledFrom, notBefore, lastDay) case None => None case Some(i) => Some(PeriodAt(at, lastDay, i))
    ensures rhythm == Monthly ==> IsNextPeriod(add, startsOn, 1, lastBilledFrom, notBefore, lastDay, period)
    ensures rhythm == Quarterly ==> IsNextPeriod(add, startsOn, 3, lastBilledFrom, notBefore, lastDay, period)
    ensures rhythm == Yearly ==> IsNextPeriod(add, startsOn, 12, lastBilledFrom, notBefore, lastDay, period)
  {
    var months := PeriodMonths(rhythm);
    if months.None? {
      return None;
    }
    var at := Every(add, startsOn, 0, months.value);
    EveryRises(add, startsOn, 0, months.value);
    NextPeriodInDates(add, startsOn, months.value, lastBilledFrom, notBefore, lastDay);
    var i := NextOf(at, lastBilledFrom, notBefore, lastDay);
    return if i.None? then None else Some(PeriodAt(at, lastDay, i.value));
  }

  /**
   * Fed back by its start, each period begins the day after the one before it
   * ends, none but the final one is cut, and they end on the last day of the
   * contract unless the end of what is looked through comes first.
   */
  ghost predicate Tiles(all: seq<nat>, at: Schedule, lastDay: Option<Day>) {
    && (forall k :: 0 <= k < |all| ==>
          && PeriodAt(at, lastDay, all[k]).from <= PeriodAt(at, lastDay, all[k]).until
          && (lastDay.Some? ==> PeriodAt(at, lastDay, all[k]).until <= lastDay.value)
          && (k + 1 < |all| ==>
                && !PeriodAt(at, lastDay, all[k]).cut
                && PeriodAt(at, lastDay, all[k]).until + 1 == PeriodAt(at, lastDay, all[k + 1]).from))
    && (all != [] && all[|all| - 1] + 1 < TERMS_LOOKED ==>
          lastDay.Some? && PeriodAt(at, lastDay, all[|all| - 1]).until == lastDay.value)
  }

  lemma RowTiles(all: seq<nat>, first: nat, at: Schedule, lastDay: Option<Day>)
    requires Rises(at) && InARow(all, first, at, lastDay)
    ensures Tiles(all, at, lastDay)
  {
    forall k | 0 <= k < |all|
      ensures PeriodAt(at, lastDay, all[k]).from <= PeriodAt(at, lastDay, all[k]).until
      ensures lastDay.Some? ==> PeriodAt(at, lastDay, all[k]).until <= lastDay.value
      ensures k + 1 < |all| ==> !PeriodAt(at, lastDay, all[k]).cut
                                && PeriodAt(at, lastDay, all[k]).until + 1 == PeriodAt(at, lastDay, all[k + 1]).from
    {
      assert all[k] == first + k && at(all[k]) < at(all[k] + 1);
      if k + 1 < |all| {
        assert all[k + 1] == all[k] + 1;
      }
    }
    if all != [] {
      assert all[|all| - 1] == first + (|all| - 1);
    }
  }

  /** The periods of a contract tile its time from the first one on, one call after the other. */
  lemma {:induction false} PeriodsTile(add: MonthCount, startsOn: Day, months: int,
                                       lastBilledFrom: Option<Day>, notBefore: Day, lastDay: Option<Day>)
    requires Counts(add) && months >= 1
    ensures Rises(Every(add, startsOn, 0, months))
    ensures var at := Every(add, startsOn, 0, months);
      Tiles(All(at, lastBilledFrom, notBefore, lastDay), at, lastDay)
  {
    var at := Every(add, startsOn, 0, months);
    EveryRises(add, startsOn, 0, months);
    AllInARow(at, lastBilledFrom, notBefore, lastDay);
    RowTiles(All(at, lastBilledFrom, notBefore, lastDay), NextIndex(at, lastBilledFrom, notBefore), at, lastDay);
  }

  /** No day between the start of the first period and the end of the last lies in no period, and none in two. */
  lemma {:induction false} EveryDayIsBilledOnce(all: seq<nat>, at: Schedule, lastDay: Option<Day>, day: Day) returns (k: nat)
    requires Tiles(all, at, lastDay) && all != []
    requires PeriodAt(at, lastDay, all[0]).from <= day <= PeriodAt(at, lastDay, all[|all| - 1]).until
    ensures k < |all| && PeriodAt(at, lastDay, all[k]).from <= day <= PeriodAt(at, lastDay, all[k]).until
    ensures forall j :: 0 <= j < |all| && j != k ==>
      !(PeriodAt(at, lastDay, all[j]).from <= day <= PeriodAt(at, lastDay, all[j]).until)
  {
    k := 0;
    while PeriodAt(at, lastDay, all[k]).until < day
      invariant k < |all| && PeriodAt(at, lastDay, all[k]).from <= day
      invariant forall j :: 0 <= j < k ==> PeriodAt(at, lastDay, all[j]).until < day
      decreases |all| - k
    {
      k := k + 1;
    }
    var j := k + 1;
    while j < |all|
      invariant k < j <= |all|
      invariant forall i :: k < i < j ==> PeriodAt(at, lastDay, all[i]).from > day
      invariant PeriodAt(at, lastDay, all[j - 1]).until >= day
    {
      j := j + 1;
    }
  }
}
