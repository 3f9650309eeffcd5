/** Appointments in time: what a window shows, which days an exception may name, what comes next. */
module Appointments {
  import opened Wrappers
  import opened Calendar
  import opened BerlinTime
  import opened Series
  import opened RepeatRules
  import opened Sorting

  datatype Appointment = Appointment(
    startsAt: Moment,
    endsAt: Moment,
    rrule: Option<string>,
    exdates: set<Day>
  )

  datatype Occurrence = Occurrence(startsAt: Moment, endsAt: Moment, firstDay: Day, lastDay: Day)

  function Start(env: Env, a: Appointment): Wall {
    BerlinClock(env.off, a.startsAt)
  }

  function End(env: Env, a: Appointment): Wall {
    BerlinClock(env.off, a.endsAt)
  }

  /** The rule of a series; none also for a text that is not understood, which then is a single appointment. */
  function RuleOfAppointment(env: Env, a: Appointment): (rule: Option<RepeatRule>)
    ensures rule.Some? ==> Understood(rule.value)
  {
    if a.rrule.None? then None else Parsed(env, a.rrule.value)
  }

  /** One day of the series: begun and ended when the clock shows what it showed the first time. */
  function OccurrenceOn(env: Env, a: Appointment, on: Day): Occurrence {
    var lastDay := on + End(env, a).day - Start(env, a).day;
    Occurrence(BerlinInstant(env.off, on, Start(env, a).minute), BerlinInstant(env.off, lastDay, End(env, a).minute), on, lastDay)
  }

  /** Every time of an appointment, whatever window looks at it. */
  predicate TakesPlace(env: Env, a: Appointment, o: Occurrence) {
    match RuleOfAppointment(env, a)
    case None => o == Occurrence(a.startsAt, a.endsAt, Start(env, a).day, End(env, a).day)
    case Some(rule) =>
      && InSeries(rule, Start(env, a).day, o.firstDay)
      && WithinSteps(rule, Start(env, a).day, o.firstDay)
      && o.firstDay !in a.exdates
      && o == OccurrenceOn(env, a, o.firstDay)
  }

  predicate Touches(o: Occurrence, from: Day, till: Day) {
    o.firstDay <= till && o.lastDay >= from
  }

  ghost predicate InOrder(out: seq<Occurrence>) {
    forall i, j :: 0 <= i < j < |out| ==> out[i].firstDay < out[j].firstDay
  }

  method SeriesDays(rule: RepeatRule, first: Day, from: Day, till: Day) returns (days: seq<Day>)
    requires Understood(rule)
    ensures Ascending(days)
    ensures forall d :: d in days ==> d <= till && InSeries(rule, first, d) && WithinSteps(rule, first, d)
    ensures forall d :: from <= d <= till && InSeries(rule, first, d) && WithinSteps(rule, first, d) ==> d in days
  {
    ghost var lo;
    match rule.frequency {
      case Daily => days, lo := DailyDays(rule, first, from, till);
      case Weekly => days, lo := WeeklyDays(rule, first, from, till);
      case _ => days := MonthlyDays(rule, first, till);
    }
  }

  /** The days for which a test holds, in their order. */
  function Filtered(days: seq<Day>, keep: Day -> bool): seq<Day> {
    if days == [] then []
    else
      var before, on := Filtered(days[..|days| - 1], keep), days[|days| - 1];
      if keep(on) then before + [on] else before
  }

  lemma {:induction false} FilteredAre(days: seq<Day>, keep: Day -> bool)
    requires Ascending(days)
    ensures Ascending(Filtered(days, keep))
    ensures forall d :: d in Filtered(days, keep) <==> d in days && keep(d)
  {
    if days != [] {
      var front, on := days[..|days| - 1], days[|days| - 1];
      FilteredAre(front, keep);
      assert days == front + [on];
      var before := Filtered(front, keep);
      forall i | 0 <= i < |before| ensures before[i] < on {
        assert before[i] in before;
      }
    }
  }

  lemma MadeOfDays(days: seq<Day>, make: Day -> Occurrence, out: seq<Occurrence>)
    requires Ascending(days) && |out| == |days| && forall i :: 0 <= i < |out| ==> out[i] == make(days[i])
    requires forall d :: make(d).firstDay == d
    ensures InOrder(out)
    ensures forall o :: o in out <==> o.firstDay in days && o == make(o.firstDay)
  {
    forall o ensures o in out <==> o.firstDay in days && o == make(o.firstDay) {
      if o.firstDay in days && o == make(o.firstDay) {
        var i :| 0 <= i < |days| && days[i] == o.firstDay;
        assert out[i] == o;
      }
    }
  }

  /** Of the days enumerated, the occurrences that reach the window and are not taken out. */
  method OccurrencesOn(env: Env, a: Appointment, days: seq<Day>, from: Day) returns (out: seq<Occurrence>)
    requires Ascending(days)
    ensures InOrder(out)
    ensures forall o :: o in out <==>
      o.firstDay in days && o.lastDay >= from && o.firstDay !in a.exdates && o == OccurrenceOn(env, a, o.firstDay)
  {
    ghost var keep := on => OccurrenceOn(env, a, on).lastDay >= from && on !in a.exdates;
    ghost var make := on => OccurrenceOn(env, a, on);
    ghost var kept := [];
    out := [];
    for i := 0 to |days|
      invariant kept == Filtered(days[..i], keep)
      invariant |out| == |kept| && forall k :: 0 <= k < |out| ==> out[k] == make(kept[k])
    {
      assert days[..i + 1][..i] == days[..i];
      var o := OccurrenceOn(env, a, days[i]);
      if o.lastDay >= from && days[i] !in a.exdates {
        out, kept := out + [o], kept + [days[i]];
      }
    }
    assert days[..|days|] == days;
    FilteredAre(days, keep);
    MadeOfDays(kept, make, out);
  }

  lemma SeriesTouches(env: Env, a: Appointment, rule: RepeatRule, from: Day, till: Day, days: seq<Day>, o: Occurrence)
    requires RuleOfAppointment(env, a) == Some(rule)
    requires var first, span := Start(env, a).day, End(env, a).day - Start(env, a).day;
      && (forall d :: d in days ==> d <= till && InSeries(rule, first, d) && WithinSteps(rule, first, d))
      && (forall d :: from - span <= d <= till && InSeries(rule, first, d) && WithinSteps(rule, first, d) ==> d in days)
    ensures TakesPlace(env, a, o) && Touches(o, from, till) <==>
      o.firstDay in days && o.lastDay >= from && o.firstDay !in a.exdates && o == OccurrenceOn(env, a, o.firstDay)
  {}

  /** Exactly the times that touch the days asked for, in order and each once. */
  method OccurrencesBetween(env: Env, a: Appointment, from: Day, till: Day) returns (out: seq<Occurrence>)
    ensures InOrder(out)
    ensures forall o :: o in out <==> TakesPlace(env, a, o) && Touches(o, from, till)
  {
    var start, end := Start(env, a), End(env, a);
    var span := end.day - start.day;
    var rule := None;
    if a.rrule.Some? {
      rule := ParseRule(env, a.rrule.value);
    }
    if rule.None? {
      if start.day <= till && end.day >= from {
        return [Occurrence(a.startsAt, a.endsAt, start.day, end.day)];
      }
      return [];
    }
    var days := SeriesDays(rule.value, start.day, from - span, till);
    out := OccurrencesOn(env, a, days, from);
    forall o ensures o in out <==> TakesPlace(env, a, o) && Touches(o, from, till) {
      SeriesTouches(env, a, rule.value, from, till, days, o);
    }
  }

  /** A day of the series on which a time begins, taken out already or not; a time may not end before it begins. */
  ghost predicate BeginsOn(env: Env, a: Appointment, on: Day, o: Occurrence) {
    TakesPlace(env, a.(exdates := {}), o) && o.firstDay == on <= o.lastDay
  }

  lemma EndsNotBefore(env: Env, a: Appointment, o: Occurrence)
    requires TakesPlace(env, a, o)
    ensures o.firstDay <= o.lastDay <==> Start(env, a).day <= End(env, a).day
  {}

  /** Whether a day may be taken out of the series. */
  method IsSeriesDay(env: Env, a: Appointment, on: Day) returns (yes: bool)
    ensures yes <==> a.rrule.Some? && exists o :: BeginsOn(env, a, on, o)
    ensures Start(env, a).day <= End(env, a).day ==>
      (yes <==> a.rrule.Some? && exists o :: TakesPlace(env, a.(exdates := {}), o) && o.firstDay == on)
  {
    forall o | TakesPlace(env, a.(exdates := {}), o)
      ensures o.firstDay <= o.lastDay <==> Start(env, a).day <= End(env, a).day
    {
      EndsNotBefore(env, a.(exdates := {}), o);
    }
    if a.rrule.None? {
      return false;
    }
    var found := OccurrencesBetween(env, a.(exdates := {}), on, on);
    yes := exists i :: 0 <= i < |found| && found[i].firstDay == on;
    if o :| BeginsOn(env, a, on, o) {
      assert Touches(o, on, on);
      assert o in found;
    }
    if yes {
      var i :| 0 <= i < |found| && found[i].firstDay == on;
      assert found[i] in found;
      assert BeginsOn(env, a, on, found[i]);
    }
    if Start(env, a).day <= End(env, a).day {
      if o :| TakesPlace(env, a.(exdates := {}), o) && o.firstDay == on {
        assert BeginsOn(env, a, on, o);
      }
    }
  }

  // --- What the clock shows ----------------------------------------------------------------------

  /** A minute of a day as the clock shows it, an hour later where the clock leaves it out. */
  ghost predicate ShownAt(off: Offsets, at: Moment, day: Day, minute: int) {
    BerlinClock(off, at) == Wall(day, if InTheGap(off, day, minute) then minute + 60 else minute)
  }

  lemma InstantIsShown(off: Offsets, day: Day, minute: int, at: Moment)
    requires GermanZone(off) && 0 <= minute < DAY_MINUTES && at == BerlinInstant(off, day, minute)
    ensures ShownAt(off, at, day, minute)
  {
    InstantIsOnItsDay(off, day, minute);
    if InTheGap(off, day, minute) {
      GermanZoneIsIsolated(off);
      InstantReadsBack(off, day, minute);
      ClockShows(off, at, day, minute + 60);
    }
  }

  lemma MadeOfInstants(env: Env, a: Appointment, o: Occurrence)
    requires TakesPlace(env, a, o) && RuleOfAppointment(env, a).Some?
    ensures o.lastDay - o.firstDay == End(env, a).day - Start(env, a).day
    ensures o.startsAt == BerlinInstant(env.off, o.firstDay, Start(env, a).minute)
    ensures o.endsAt == BerlinInstant(env.off, o.lastDay, End(env, a).minute)
  {
    assert o == OccurrenceOn(env, a, o.firstDay);
    InstantsOn(env, a, o.firstDay, OccurrenceOn(env, a, o.firstDay));
  }

  lemma InstantsOn(env: Env, a: Appointment, on: Day, o: Occurrence)
    requires o == OccurrenceOn(env, a, on)
    ensures o.lastDay - on == End(env, a).day - Start(env, a).day
    ensures o.startsAt == BerlinInstant(env.off, on, Start(env, a).minute)
    ensures o.endsAt == BerlinInstant(env.off, o.lastDay, End(env, a).minute)
  {}

  /**
   * Every time of a series begins and ends when the clock shows what it showed
   * the first time, and goes over as many days.
   */
  lemma EveryTimeIsLikeTheFirst(env: Env, a: Appointment, o: Occurrence)
    requires GermanZone(env.off) && TakesPlace(env, a, o) && RuleOfAppointment(env, a).Some?
    ensures var first, last := BerlinClock(env.off, a.startsAt), BerlinClock(env.off, a.endsAt);
      && o.lastDay - o.firstDay == last.day - first.day
      && ShownAt(env.off, o.startsAt, o.firstDay, first.minute)
      && ShownAt(env.off, o.endsAt, o.lastDay, last.minute)
  {
    MadeOfInstants(env, a, o);
    InstantIsShown(env.off, o.firstDay, Start(env, a).minute, o.startsAt);
    InstantIsShown(env.off, o.lastDay, End(env, a).minute, o.endsAt);
  }

  /** An appointment that is no series takes place once, from its beginning to its end. */
  lemma SingleTimeIsItsOwn(env: Env, a: Appointment, o: Occurrence)
    requires RuleOfAppointment(env, a).None?
    ensures TakesPlace(env, a, o) <==>
      && o.startsAt == a.startsAt && o.firstDay == BerlinClock(env.off, a.startsAt).day
      && o.endsAt == a.endsAt && o.lastDay == BerlinClock(env.off, a.endsAt).day
  {}

  /** Outside the hour from two to three that is simply the same time of day. */
  lemma SameTimeOfDay(env: Env, a: Appointment, o: Occurrence)
    requires GermanZone(env.off) && TakesPlace(env, a, o) && RuleOfAppointment(env, a).Some?
    ensures var first, last := BerlinClock(env.off, a.startsAt), BerlinClock(env.off, a.endsAt);
      && (!InTheGap(env.off, o.firstDay, first.minute) ==> BerlinClock(env.off, o.startsAt) == Wall(o.firstDay, first.minute))
      && (!InTheGap(env.off, o.lastDay, last.minute) ==> BerlinClock(env.off, o.endsAt) == Wall(o.lastDay, last.minute))
      && (InTheGap(env.off, o.firstDay, first.minute) ==> 120 <= first.minute < 180)
  {
    EveryTimeIsLikeTheFirst(env, a, o);
    if InTheGap(env.off, o.firstDay, BerlinClock(env.off, a.startsAt).minute) {
      GapIsAtTwo(env.off, o.firstDay, BerlinClock(env.off, a.startsAt).minute);
    }
  }

  // --- The next occurrence -----------------------------------------------------------------------

  /** The windows the search looks through, and the days of each. */
  const WINDOWS := 12
  const WINDOW_DAYS := 366

  lemma InstantOnDay(env: Env, on: Day, clock: Wall, at: Moment)
    requires GermanZone(env.off) && 0 <= clock.minute < DAY_MINUTES && at == BerlinInstant(env.off, on, clock.minute)
    ensures BerlinClock(env.off, at).day == on
  {
    InstantIsOnItsDay(env.off, on, clock.minute);
  }

  lemma OccurrenceIsOnItsDays(env: Env, a: Appointment, o: Occurrence)
    requires GermanZone(env.off) && o == OccurrenceOn(env, a, o.firstDay)
    ensures BerlinClock(env.off, o.startsAt).day == o.firstDay && BerlinClock(env.off, o.endsAt).day == o.lastDay
  {
    assert BerlinClock(env.off, o.startsAt).day == o.firstDay by {
      InstantOnDay(env, o.firstDay, Start(env, a), o.startsAt);
    }
    assert BerlinClock(env.off, o.endsAt).day == o.lastDay by {
      InstantOnDay(env, o.lastDay, End(env, a), o.endsAt);
    }
  }

  lemma EndsOnItsLastDay(env: Env, a: Appointment, o: Occurrence)
    requires GermanZone(env.off) && a.startsAt <= a.endsAt && TakesPlace(env, a, o)
    ensures BerlinClock(env.off, o.startsAt).day == o.firstDay
    ensures BerlinClock(env.off, o.endsAt).day == o.lastDay
    ensures o.firstDay <= o.lastDay
  {
    WallDayNeverGoesBack(env.off, a.startsAt, a.endsAt);
    assert o == Occurrence(a.startsAt, a.endsAt, Start(env, a).day, End(env, a).day) || o == OccurrenceOn(env, a, o.firstDay);
    if o == OccurrenceOn(env, a, o.firstDay) {
      OccurrenceIsOnItsDays(env, a, o);
    }
  }

  ghost predicate NotOver(env: Env, a: Appointment, after: Moment, o: Occurrence) {
    TakesPlace(env, a, o) && o.endsAt > after
  }

  lemma NotOverReachesToday(env: Env, a: Appointment, after: Moment, o: Occurrence)
    requires GermanZone(env.off) && a.startsAt <= a.endsAt && NotOver(env, a, after, o)
    ensures BerlinClock(env.off, after).day <= o.lastDay && o.firstDay <= o.lastDay
  {
    EndsOnItsLastDay(env, a, o);
    WallDayNeverGoesBack(env.off, after, o.endsAt);
  }

  /** Of two times of one appointment the one on the earlier day starts earlier, whatever the clocks do. */
  lemma EarlierDayStartsEarlier(env: Env, a: Appointment, o: Occurrence, p: Occurrence)
    requires GermanZone(env.off) && a.startsAt <= a.endsAt
    requires TakesPlace(env, a, o) && TakesPlace(env, a, p) && o.firstDay <= p.firstDay
    ensures o.startsAt <= p.startsAt && (o.firstDay == p.firstDay ==> o == p)
  {
    EndsOnItsLastDay(env, a, o);
    EndsOnItsLastDay(env, a, p);
    if p.startsAt < o.startsAt {
      WallDayNeverGoesBack(env.off, p.startsAt, o.startsAt);
    }
  }

  lemma FirstOfTheList(list: seq<Occurrence>, i: nat, after: Moment, o: Occurrence)
    requires InOrder(list) && i < |list| && forall j :: 0 <= j < i ==> list[j].endsAt <= after
    requires o.endsAt > after && (o in list || o.firstDay >= list[i].firstDay)
    ensures list[i].firstDay <= o.firstDay
  {
    if o in list {
      var j :| 0 <= j < |list| && list[j] == o;
      assert i <= j;
    }
  }

  method FirstNotOver(list: seq<Occurrence>, after: Moment) returns (i: nat)
    ensures i <= |list|
    ensures forall j :: 0 <= j < i ==> list[j].endsAt <= after
    ensures i < |list| ==> list[i].endsAt > after
  {
    i := 0;
    while i < |list| && list[i].endsAt <= after
      invariant i <= |list|
      invariant forall j :: 0 <= j < i ==> list[j].endsAt <= after
    {
      i := i + 1;
    }
  }

  /**
   * The windows find what a search without windows would: of all the times not
   * over the one that starts first, and none exactly when none starts before
   * the last window ends.
   */
  method NextOccurrence(env: Env, a: Appointment, after: Moment) returns (next: Option<Occurrence>)
    requires GermanZone(env.off) && a.startsAt <= a.endsAt
    ensures next.Some? ==>
      && NotOver(env, a, after, next.value)
      && forall o :: NotOver(env, a, after, o) ==> next.value.startsAt <= o.startsAt && next.value.firstDay <= o.firstDay
    ensures next.None? <==>
      forall o :: NotOver(env, a, after, o) ==> o.firstDay >= BerlinClock(env.off, after).day + 12 * 366
  {
    var today := BerlinClock(env.off, after).day;
    var from := today;
    forall o | NotOver(env, a, after, o) ensures o.lastDay >= today {
      NotOverReachesToday(env, a, after, o);
    }
    for round := 0 to WINDOWS
      invariant from == today + round * WINDOW_DAYS
      invariant forall o :: NotOver(env, a, after, o) ==> o.lastDay >= from
      invariant round > 0 ==> forall o :: NotOver(env, a, after, o) ==> o.firstDay >= from
    {
      var list := OccurrencesBetween(env, a, from, from + WINDOW_DAYS - 1);
      var i := FirstNotOver(list, after);
      if i < |list| {
        assert list[i] in list;
        forall o | NotOver(env, a, after, o) ensures list[i].startsAt <= o.startsAt && list[i].firstDay <= o.firstDay {
          assert Touches(o, from, from + WINDOW_DAYS - 1) ==> o in list;
          FirstOfTheList(list, i, after, o);
          EarlierDayStartsEarlier(env, a, list[i], o);
        }
        return Some(list[i]);
      }
      forall o | NotOver(env, a, after, o) ensures o.firstDay >= from + WINDOW_DAYS && o.lastDay >= from + WINDOW_DAYS {
        NotOverReachesToday(env, a, after, o);
        assert Touches(o, from, from + WINDOW_DAYS - 1) ==> o in list;
      }
      from := from + WINDOW_DAYS;
    }
    return None;
  }

  // --- What the windows do not reach -------------------------------------------------------------

  /** Every twenty years on the 1st of January. */
  const TWENTY_YEARS := RepeatRule(Yearly, 20, [], None, None)

  lemma MonthsOfTwentyYears(months: int)
    requires 0 < months && months % 240 == 0
    ensures months >= 240
  {}

  lemma TwentyYearsOn(month: int, first: Day, on: Day)
    requires MonthOf(first) == month && DayOfMonth(first) == 1
    ensures Recurs(TWENTY_YEARS, first, on) ==> on == first || on >= MonthStart(month + 240)
  {
    if Recurs(TWENTY_YEARS, first, on) {
      MonthOfMonotone(first, on);
      assert Stride(TWENTY_YEARS) == 240 && DayOfMonth(on) == 1;
      if MonthOf(on) != month {
        MonthsOfTwentyYears(MonthOf(on) - month);
        MonthsApart(month + 240, MonthOf(on));
      }
    }
  }

  lemma TwentyYearsLater(month: int, first: Day, on: Day)
    requires MonthOf(first) == month && DayOfMonth(first) == 1
    requires MonthOf(on) == month + 240 && DayOfMonth(on) == 1
    ensures InSeries(TWENTY_YEARS, first, on) && WithinSteps(TWENTY_YEARS, first, on) && on >= first + 6720
  {
    MonthsApart(month, month + 240);
    assert Recurs(TWENTY_YEARS, first, on);
    assert Stride(TWENTY_YEARS) == 240;
  }

  /** The clock shows a day from ten to eleven, and the day before is over by its midnight. */
  lemma TenToEleven(env: Env, on: Day)
    requires GermanZone(env.off)
    ensures BerlinClock(env.off, BerlinInstant(env.off, on, 600)) == Wall(on, 600)
    ensures BerlinClock(env.off, BerlinInstant(env.off, on, 660)) == Wall(on, 660)
    ensures BerlinInstant(env.off, on, 600) <= BerlinInstant(env.off, on, 660)
  {
    InstantIsOnItsDay(env.off, on, 600);
    InstantIsOnItsDay(env.off, on, 660);
    InstantInMinutes(env.off, on, 600);
    InstantInMinutes(env.off, on, 660);
  }

  lemma EarlierDayIsEarlier(env: Env, a: Moment, b: Moment)
    requires GermanZone(env.off) && BerlinClock(env.off, a).day < BerlinClock(env.off, b).day
    ensures a < b
  {
    if b <= a {
      WallDayNeverGoesBack(env.off, b, a);
    }
  }

  /** After the first of them, the next is twenty years away. */
  lemma NotOverIsFarAway(env: Env, a: Appointment, month: int, first: Day, after: Moment, o: Occurrence)
    requires GermanZone(env.off) && RuleOfAppointment(env, a) == Some(TWENTY_YEARS)
    requires MonthOf(first) == month && DayOfMonth(first) == 1
    requires BerlinClock(env.off, a.startsAt) == Wall(first, 600) && BerlinClock(env.off, a.endsAt) == Wall(first, 660)
    requires a.startsAt <= a.endsAt && BerlinClock(env.off, after).day == first + 1 && NotOver(env, a, after, o)
    ensures o.firstDay >= MonthStart(month + 240)
  {
    TwentyYearsOn(month, first, o.firstDay);
    EndsOnItsLastDay(env, a, o);
    if o.firstDay == first {
      EarlierDayIsEarlier(env, o.endsAt, after);
    }
  }

  lemma TakesPlaceThen(env: Env, a: Appointment, month: int, first: Day, on: Day, after: Moment)
    requires GermanZone(env.off) && RuleOfAppointment(env, a) == Some(TWENTY_YEARS) && a.exdates == {}
    requires MonthOf(first) == month && DayOfMonth(first) == 1 && MonthOf(on) == month + 240 && DayOfMonth(on) == 1
    requires BerlinClock(env.off, a.startsAt) == Wall(first, 600) && BerlinClock(env.off, a.endsAt) == Wall(first, 660)
    requires BerlinClock(env.off, after).day == first + 1
    ensures NotOver(env, a, after, OccurrenceOn(env, a, on))
  {
    TwentyYearsLater(month, first, on);
    TenToEleven(env, on);
    EarlierDayIsEarlier(env, after, BerlinInstant(env.off, on, 660));
  }

  function FromTenToEleven(env: Env, first: Day, text: string): Appointment {
    Appointment(BerlinInstant(env.off, first, 600), BerlinInstant(env.off, first, 660), Some(text), {})
  }

  /** The next of them starts after all windows of a search begun on the day after the first. */
  lemma AllWindowsLieBefore(env: Env, a: Appointment, month: int, first: Day, after: Moment)
    requires GermanZone(env.off) && RuleOfAppointment(env, a) == Some(TWENTY_YEARS)
    requires MonthOf(first) == month && DayOfMonth(first) == 1
    requires BerlinClock(env.off, a.startsAt) == Wall(first, 600) && BerlinClock(env.off, a.endsAt) == Wall(first, 660)
    requires a.startsAt <= a.endsAt && BerlinClock(env.off, after).day == first + 1
    ensures forall o :: NotOver(env, a, after, o) ==> o.firstDay >= first + 1 + WINDOWS * WINDOW_DAYS
  {
    MonthsApart(month, month + 240);
    forall o | NotOver(env, a, after, o) ensures o.firstDay >= first + 1 + WINDOWS * WINDOW_DAYS {
      NotOverIsFarAway(env, a, month, first, after, o);
    }
  }

  /** A series with a time still to come, of which the search finds none: all its windows lie before it. */
  lemma SearchStopsTooEarly(env: Env, year: int, text: string) returns (a: Appointment, after: Moment, o: Occurrence)
    requires GermanZone(env.off) && Parsed(env, text) == Some(TWENTY_YEARS)
    ensures a.rrule == Some(text) && a.startsAt <= a.endsAt && NotOver(env, a, after, o)
    ensures forall p :: NotOver(env, a, after, p) ==> p.firstDay >= BerlinClock(env.off, after).day + 12 * 366
  {
    var first, on := YearStart(year), YearStart(year + 20);
    a := FromTenToEleven(env, first, text);
    after := BerlinInstant(env.off, first + 1, 600);
    o := OccurrenceOn(env, a, on);
    TenToEleven(env, first);
    TenToEleven(env, first + 1);
    FirstOfMonth(12 * year);
    FirstOfMonth(12 * (year + 20));
    TakesPlaceThen(env, a, 12 * year, first, on, after);
    AllWindowsLieBefore(env, a, 12 * year, first, after);
  }

  /** And there is such a text. */
  lemma TwentyYearsCanBeWritten(env: Env)
    requires ValidEnv(env)
    ensures Parsed(env, RuleOf(env, TWENTY_YEARS)) == Some(TWENTY_YEARS)
  {
    RuleReadsBack(env, TWENTY_YEARS);
  }
}
