/**
 * The days of a series of appointments: what they are (`InSeries`, section
 * 3.3.10 of RFC 5545), and the enumeration that skips ahead and stops early.
 */
module Series {
  import opened Wrappers
  import opened Calendar
  import opened Rounding
  import opened Sorting

  datatype Frequency = Daily | Weekly | Monthly | Yearly

  datatype RepeatRule = RepeatRule(
    frequency: Frequency,
    interval: int,
    weekdays: seq<int>,
    until: Option<Day>,
    count: Option<int>
  )

  predicate AreWeekdays(days: seq<int>) {
    forall i :: 0 <= i < |days| ==> 0 <= days[i] < 7
  }

  /** What the parser promises of every rule it gives out. */
  predicate Understood(rule: RepeatRule) {
    && rule.interval >= 1
    && Ascending(rule.weekdays)
    && AreWeekdays(rule.weekdays)
    && (rule.weekdays != [] ==> rule.frequency == Weekly)
    && (rule.until.None? || rule.count.None?)
  }

  // --- What a series is ---------------------------------------------------------------------

  function WeekdaysFrom(rule: RepeatRule, first: Day): seq<int> {
    if |rule.weekdays| > 0 then rule.weekdays else [WeekdayOf(first)]
  }

  function MondayOf(on: Day): Day {
    on - WeekdayOf(on)
  }

  /** The length of one step: in days for a day and a week, in months for a month and a year. */
  function Stride(rule: RepeatRule): (stride: int)
    requires rule.interval >= 1
    ensures stride >= 1
  {
    match rule.frequency
    case Daily => rule.interval
    case Weekly => 7 * rule.interval
    case Monthly => rule.interval
    case Yearly => 12 * rule.interval
  }

  /** A day the rule names, before UNTIL and COUNT cut the series off. */
  predicate Recurs(rule: RepeatRule, first: Day, on: Day)
    requires rule.interval >= 1
  {
    && first <= on
    && match rule.frequency
       case Daily => (on - first) % Stride(rule) == 0
       case Weekly => WeekdayOf(on) in WeekdaysFrom(rule, first)
                      && (MondayOf(on) - MondayOf(first)) % Stride(rule) == 0
       case _ => DayOfMonth(on) == DayOfMonth(first)
                 && (MonthOf(on) - MonthOf(first)) % Stride(rule) == 0
  }

  function Earlier(rule: RepeatRule, first: Day, on: Day): set<Day>
    requires rule.interval >= 1
  {
    set d: Day | first <= d < on && Recurs(rule, first, d)
  }

  predicate CutOff(rule: RepeatRule, first: Day, on: Day)
    requires rule.interval >= 1
  {
    || (rule.until.Some? && on > rule.until.value)
    || (rule.count.Some? && |Earlier(rule, first, on)| >= rule.count.value)
  }

  /** The series itself: not after UNTIL, and among the first COUNT days. */
  predicate InSeries(rule: RepeatRule, first: Day, on: Day)
    requires rule.interval >= 1
  {
    Recurs(rule, first, on) && !CutOff(rule, first, on)
  }

  ghost predicate Times(distance: int, k: nat, step: int) {
    distance == k * step
  }

  ghost predicate SomeTimes(distance: int, step: int) {
    exists k: nat :: Times(distance, k, step)
  }

  lemma SomeTimesIs(distance: int, step: int)
    requires step >= 1
    ensures SomeTimes(distance, step) <==> distance >= 0 && distance % step == 0
  {
    if k: nat :| Times(distance, k, step) {
      DivisionIs(step, k, 0);
      TimesMonotone(0, k, step);
    }
    if distance >= 0 && distance % step == 0 {
      assert Times(distance, distance / step, step);
    }
  }

  /** The same in plain words: so many intervals of days, of weeks from Monday to Monday, of months or of years on. */
  ghost predicate ComesRound(rule: RepeatRule, first: Day, on: Day) {
    match rule.frequency
    case Daily => SomeTimes(on - first, rule.interval)
    case Weekly =>
      && first <= on
      && (if rule.weekdays == [] then WeekdayOf(on) == WeekdayOf(first) else WeekdayOf(on) in rule.weekdays)
      && SomeTimes(on - WeekdayOf(on) - (first - WeekdayOf(first)), 7 * rule.interval)
    case Monthly => DayOfMonth(on) == DayOfMonth(first) && SomeTimes(MonthOf(on) - MonthOf(first), rule.interval)
    case Yearly => DayOfMonth(on) == DayOfMonth(first) && SomeTimes(MonthOf(on) - MonthOf(first), 12 * rule.interval)
  }

  lemma MondaysInOrder(first: Day, on: Day)
    requires first <= on
    ensures first - WeekdayOf(first) <= on - WeekdayOf(on)
  {}

  lemma RecursInPlainWords(rule: RepeatRule, first: Day, on: Day)
    requires rule.interval >= 1
    ensures Recurs(rule, first, on) <==> ComesRound(rule, first, on)
  {
    match rule.frequency
    case Daily => SomeTimesIs(on - first, rule.interval);
    case Weekly =>
      SomeTimesIs(on - WeekdayOf(on) - (first - WeekdayOf(first)), 7 * rule.interval);
      if first <= on {
        MondaysInOrder(first, on);
      }
    case Monthly =>
      SomeTimesIs(MonthOf(on) - MonthOf(first), rule.interval);
      SameDateComesLater(first, on);
    case Yearly =>
      SomeTimesIs(MonthOf(on) - MonthOf(first), 12 * rule.interval);
      SameDateComesLater(first, on);
  }

  lemma SameDateComesLater(first: Day, on: Day)
    ensures DayOfMonth(on) == DayOfMonth(first) ==> (first <= on <==> MonthOf(first) <= MonthOf(on))
  {
    if first <= on {
      MonthOfMonotone(first, on);
    } else if MonthOf(first) < MonthOf(on) {
      LaterMonthIsLater(first, on);
    }
  }

  // --- Where the enumeration stands ------------------------------------------------------------

  /** Exactly the days of the series from `lo` up to, not including, `next`, in order. */
  ghost predicate Listed(rule: RepeatRule, first: Day, lo: Day, next: Day, days: seq<Day>)
    requires rule.interval >= 1
  {
    && Ascending(days)
    && (forall d :: d in days <==> lo <= d < next && InSeries(rule, first, d))
  }

  /** The enumeration has come to `next`: the days it gave, and how many days recurred on the way. */
  ghost predicate At(rule: RepeatRule, first: Day, lo: Day, next: Day, days: seq<Day>, produced: int, till: Day)
    requires rule.interval >= 1
  {
    && lo <= next
    && Listed(rule, first, lo, next, days)
    && (rule.count.Some? ==> produced == |Earlier(rule, first, next)|)
    && (forall d :: d in days ==> d <= till)
  }

  lemma Pass(rule: RepeatRule, first: Day, lo: Day, from: Day, next: Day, days: seq<Day>, produced: int, till: Day)
    requires rule.interval >= 1 && from <= next
    requires At(rule, first, lo, from, days, produced, till)
    requires forall d | from <= d < next :: !Recurs(rule, first, d)
    ensures At(rule, first, lo, next, days, produced, till)
  {
    assert Earlier(rule, first, next) == Earlier(rule, first, from);
  }

  lemma Take(rule: RepeatRule, first: Day, lo: Day, on: Day, days: seq<Day>, produced: int, till: Day)
    requires rule.interval >= 1 && on <= till
    requires At(rule, first, lo, on, days, produced, till) && InSeries(rule, first, on)
    ensures At(rule, first, lo, on + 1, days + [on], produced + 1, till)
  {
    assert Earlier(rule, first, on + 1) == Earlier(rule, first, on) + {on};
    Append(d => InSeries(rule, first, d), lo, on, days);
  }

  lemma Append(member: Day -> bool, lo: Day, on: Day, days: seq<Day>)
    requires lo <= on && member(on) && Ascending(days)
    requires forall d :: d in days <==> lo <= d < on && member(d)
    ensures Ascending(days + [on])
    ensures forall d :: d in days + [on] <==> lo <= d < on + 1 && member(d)
  {
    forall i, j | 0 <= i < j < |days + [on]| ensures (days + [on])[i] < (days + [on])[j] {
      assert days[i] in days;
    }
  }

  lemma CutOffStays(rule: RepeatRule, first: Day, on: Day, later: Day)
    requires rule.interval >= 1 && on <= later
    ensures CutOff(rule, first, on) ==> CutOff(rule, first, later)
  {
    Fewer(Earlier(rule, first, on), Earlier(rule, first, later));
  }

  lemma {:induction false} Fewer(a: set<Day>, b: set<Day>)
    requires a <= b
    ensures |a| <= |b|
  {
    assert b == a + (b - a);
  }

  // --- Between two candidates there is no day of the series -------------------------------------

  lemma DailyCandidate(rule: RepeatRule, first: Day, step: nat, on: Day)
    requires rule.interval >= 1 && rule.frequency == Daily
    requires first + step * rule.interval <= on < first + (step + 1) * rule.interval
    ensures Recurs(rule, first, on) <==> on == first + step * rule.interval
  {
    DivisionIs(rule.interval, step, on - (first + step * rule.interval));
  }

  lemma WeeklyCandidate(rule: RepeatRule, first: Day, week: nat, on: Day)
    requires rule.interval >= 1 && rule.frequency == Weekly
    requires var monday := MondayOf(first) + week * Stride(rule); monday <= on < monday + Stride(rule)
    ensures var offset := on - MondayOf(first) - week * Stride(rule);
      Recurs(rule, first, on) <==> offset < 7 && offset in WeekdaysFrom(rule, first) && first <= on
  {
    var monday := MondayOf(first) + week * Stride(rule);
    var offset := on - monday;
    var weeks := week * rule.interval;
    assert week * Stride(rule) == 7 * weeks;
    assert WeekdayOf(on) == offset % 7;
    DivisionIs(Stride(rule), week, offset - offset % 7);
  }

  /** A month the enumeration steps on. */
  predicate OnStride(rule: RepeatRule, first: Day, month: int)
    requires rule.interval >= 1
  {
    MonthOf(first) <= month && (month - MonthOf(first)) % Stride(rule) == 0
  }

  lemma StepsAreOnStride(rule: RepeatRule, first: Day, step: nat)
    requires rule.interval >= 1
    ensures OnStride(rule, first, MonthOf(first) + step * Stride(rule))
  {
    DivisionIs(Stride(rule), step, 0);
    TimesMonotone(0, step, Stride(rule));
  }

  lemma NextOnStride(stride: int, a: int, b: int)
    requires stride >= 1 && a % stride == 0 && a <= b < a + stride
    ensures b % stride == 0 <==> b == a
  {
    DivisionIs(stride, a / stride, b - a);
  }

  lemma MonthlyCandidate(rule: RepeatRule, first: Day, month: int, on: Day)
    requires rule.interval >= 1 && rule.frequency in {Monthly, Yearly} && OnStride(rule, first, month)
    requires MonthStart(month) <= on < MonthStart(month + Stride(rule))
    ensures Recurs(rule, first, on) <==> MonthOf(on) == month && DayOfMonth(on) == DayOfMonth(first)
  {
    MonthRange(month, month + Stride(rule), on);
    NextOnStride(Stride(rule), month - MonthOf(first), MonthOf(on) - MonthOf(first));
    if MonthOf(on) == month && DayOfMonth(on) == DayOfMonth(first) {
      SameDateComesLater(first, on);
    }
  }

  // --- The enumeration ---------------------------------------------------------------------------

  /** The most steps the enumeration of months and years takes. */
  const MOST_STEPS := 100_000

  predicate WithinSteps(rule: RepeatRule, first: Day, on: Day)
    requires rule.interval >= 1
  {
    rule.frequency in {Monthly, Yearly} ==> MonthOf(on) < MonthOf(first) + 100_000 * Stride(rule)
  }

  /** The test the enumeration stops at, with the number of days it has given so far. */
  predicate Done(rule: RepeatRule, on: Day, produced: int) {
    (rule.until.Some? && on > rule.until.value) || (rule.count.Some? && produced >= rule.count.value)
  }

  /** Steps that can be passed over: none when days have to be counted, else those wholly before the window. */
  function SkippedSteps(rule: RepeatRule, start: Day, from: Day): (steps: nat)
    requires rule.interval >= 1
    ensures steps > 0 ==> rule.count.None? && start + steps * Stride(rule) <= from
  {
    if rule.count.None? && (from - start) / Stride(rule) > 0 then (from - start) / Stride(rule) else 0
  }

  method DailyDays(rule: RepeatRule, first: Day, from: Day, till: Day) returns (days: seq<Day>, ghost lo: Day)
    requires Understood(rule) && rule.frequency == Daily
    ensures lo <= first || lo <= from
    ensures Ascending(days)
    ensures forall d :: d in days <==> lo <= d <= till && InSeries(rule, first, d)
  {
    var produced := 0;
    var step := SkippedSteps(rule, first, from);
    days := [];
    lo := first + step * rule.interval;
    while true
      invariant step >= 0
      invariant At(rule, first, lo, first + step * rule.interval, days, produced, till)
      decreases till - (first + step * rule.interval)
    {
      var on := first + step * rule.interval;
      DailyCandidate(rule, first, step, on);
      if Done(rule, on, produced) {
        NoneAfter(rule, first, on);
        return;
      }
      produced := produced + 1;
      if on > till {
        return;
      }
      Take(rule, first, lo, on, days, produced - 1, till);
      days := days + [on];
      forall d | on < d < on + rule.interval ensures !Recurs(rule, first, d) {
        DailyCandidate(rule, first, step, d);
      }
      Pass(rule, first, lo, on + 1, on + rule.interval, days, produced, till);
      step := step + 1;
    }
  }

  lemma OneStepMore(step: int, stride: int)
    ensures (step + 1) * stride == step * stride + stride
  {}

  method WeeklyDays(rule: RepeatRule, first: Day, from: Day, till: Day) returns (days: seq<Day>, ghost lo: Day)
    requires Understood(rule) && rule.frequency == Weekly
    ensures lo <= first || lo <= from
    ensures Ascending(days)
    ensures forall d :: d in days <==> lo <= d <= till && InSeries(rule, first, d)
  {
    var produced := 0;
    var weekdays := WeekdaysFrom(rule, first);
    var week := SkippedSteps(rule, MondayOf(first), from);
    var base := MondayOf(first) + week * Stride(rule);
    ghost var next := base;
    days, lo := [], base;
    label weeks: while true
      invariant week >= 0 && next == base == MondayOf(first) + week * Stride(rule)
      invariant At(rule, first, lo, next, days, produced, till)
      decreases (if first < till then till else first) - base
    {
      for i := 0 to |weekdays|
        invariant next == AfterWeekdays(rule, first, base, i)
        invariant At(rule, first, lo, next, days, produced, till)
        invariant i > 0 ==> base <= till || base <= first
      {
        var on := base + weekdays[i];
        WeeklyMove(rule, first, lo, week, base, i, days, produced, till);
        next := on;
        if on >= first {
          if Done(rule, on, produced) || on > till {
            break weeks;
          }
          produced := produced + 1;
          days := days + [on];
        }
        next := on + 1;
      }
      WeeklyMove(rule, first, lo, week, base, |weekdays|, days, produced, till);
      week := week + 1;
      base := MondayOf(first) + week * Stride(rule);
      next := base;
    }
    ListedUpTo(rule, first, lo, next, days, till);
  }

  /** Where the enumeration stands in a week once it has looked at the first `i` weekdays. */
  function AfterWeekdays(rule: RepeatRule, first: Day, base: Day, i: nat): Day
    requires i <= |WeekdaysFrom(rule, first)|
  {
    base + if i == 0 then 0 else WeekdaysFrom(rule, first)[i - 1] + 1
  }

  lemma ListedUpTo(rule: RepeatRule, first: Day, lo: Day, next: Day, days: seq<Day>, till: Day)
    requires rule.interval >= 1 && Listed(rule, first, lo, next, days)
    requires forall d :: d in days ==> d <= till
    requires till < next || CutOff(rule, first, next)
    ensures Ascending(days)
    ensures forall d :: d in days <==> lo <= d <= till && InSeries(rule, first, d)
  {
    if CutOff(rule, first, next) {
      NoneAfter(rule, first, next);
    }
  }

  lemma NoneAfter(rule: RepeatRule, first: Day, on: Day)
    requires rule.interval >= 1 && CutOff(rule, first, on)
    ensures forall d | on <= d :: !InSeries(rule, first, d)
  {
    forall d | on <= d ensures !InSeries(rule, first, d) {
      CutOffStays(rule, first, on, d);
    }
  }

  lemma WeekdaysInAWeek(rule: RepeatRule, first: Day)
    requires Understood(rule)
    ensures Ascending(WeekdaysFrom(rule, first))
    ensures AreWeekdays(WeekdaysFrom(rule, first))
  {}

  /** From one weekday of the rule to the next, or to the next week of the series, nothing recurs. */
  lemma BetweenWeekdays(rule: RepeatRule, first: Day, week: nat, base: Day, i: nat)
    requires Understood(rule) && rule.frequency == Weekly
    requires base == MondayOf(first) + week * Stride(rule) && i <= |WeekdaysFrom(rule, first)|
    ensures var weekdays := WeekdaysFrom(rule, first);
      var from := AfterWeekdays(rule, first, base, i);
      var until := base + if i < |weekdays| then weekdays[i] else Stride(rule);
      base <= from <= until <= base + Stride(rule) && forall d | from <= d < until :: !Recurs(rule, first, d)
  {
    var weekdays := WeekdaysFrom(rule, first);
    WeekdaysInAWeek(rule, first);
    var from := base + if i == 0 then 0 else weekdays[i - 1] + 1;
    var until := base + if i < |weekdays| then weekdays[i] else Stride(rule);
    forall d | from <= d < until ensures !Recurs(rule, first, d) {
      WeeklyCandidate(rule, first, week, d);
    }
  }

  /** One round of the inner loop: past what lies before a weekday, and over the weekday itself. */
  lemma WeeklyMove(rule: RepeatRule, first: Day, lo: Day, week: nat, base: Day, i: nat,
                   days: seq<Day>, produced: int, till: Day)
    requires Understood(rule) && rule.frequency == Weekly
    requires base == MondayOf(first) + week * Stride(rule) && i <= |WeekdaysFrom(rule, first)|
    requires At(rule, first, lo, AfterWeekdays(rule, first, base, i), days, produced, till)
    ensures base + Stride(rule) == MondayOf(first) + (week + 1) * Stride(rule)
    ensures i == |WeekdaysFrom(rule, first)| ==> At(rule, first, lo, base + Stride(rule), days, produced, till)
    ensures i < |WeekdaysFrom(rule, first)| ==>
      var on := base + WeekdaysFrom(rule, first)[i];
      && base <= on && At(rule, first, lo, on, days, produced, till)
      && (on < first ==> At(rule, first, lo, on + 1, days, produced, till))
      && (first <= on <= till && !CutOff(rule, first, on) ==> At(rule, first, lo, on + 1, days + [on], produced + 1, till))
  {
    var weekdays := WeekdaysFrom(rule, first);
    BetweenWeekdays(rule, first, week, base, i);
    OneStepMore(week, Stride(rule));
    var from := base + if i == 0 then 0 else weekdays[i - 1] + 1;
    var next := base + if i < |weekdays| then weekdays[i] else Stride(rule);
    Pass(rule, first, lo, from, next, days, produced, till);
    if i < |weekdays| {
      WeekdaysInAWeek(rule, first);
      WeeklyCandidate(rule, first, week, next);
      if next < first {
        Pass(rule, first, lo, next, next + 1, days, produced, till);
      } else if next <= till && !CutOff(rule, first, next) {
        Take(rule, first, lo, next, days, produced, till);
      }
    }
  }

  lemma MonthStep(rule: RepeatRule, first: Day, month: int, candidate: Day)
    requires rule.interval >= 1 && rule.frequency in {Monthly, Yearly} && OnStride(rule, first, month)
    requires candidate == MonthStart(month) + DayOfMonth(first) - 1
    ensures MonthStart(month) <= candidate && MonthStart(month) < MonthStart(month + Stride(rule))
    ensures DayOfMonth(candidate) == DayOfMonth(first) ==>
      Recurs(rule, first, candidate) && candidate < MonthStart(month + Stride(rule))
    ensures forall d | MonthStart(month) <= d < MonthStart(month + Stride(rule)) && Recurs(rule, first, d) ::
      d == candidate && DayOfMonth(candidate) == DayOfMonth(first)
  {
    CandidateExists(first, month, candidate);
    MonthsApart(month + 1, month + Stride(rule));
    if DayOfMonth(candidate) == DayOfMonth(first) {
      MonthlyCandidate(rule, first, month, candidate);
    }
    forall d | MonthStart(month) <= d < MonthStart(month + Stride(rule)) && Recurs(rule, first, d)
      ensures d == candidate && DayOfMonth(candidate) == DayOfMonth(first)
    {
      MonthlyCandidate(rule, first, month, d);
    }
  }

  /** `Date.UTC` runs over into the next month where the month lacks the day, and its date says so. */
  lemma CandidateExists(first: Day, month: int, candidate: Day)
    requires candidate == MonthStart(month) + DayOfMonth(first) - 1
    ensures MonthStart(month) <= candidate && MonthStart(month) < MonthStart(month + 1)
    ensures DayOfMonth(candidate) == DayOfMonth(first) <==> candidate < MonthStart(month + 1)
    ensures candidate < MonthStart(month + 1) ==> MonthOf(candidate) == month
  {
    NextMonth(month);
    NextMonth(month + 1);
    if candidate < MonthStart(month + 1) {
      MonthOfIs(candidate, month);
    } else {
      MonthOfIs(candidate, month + 1);
    }
  }

  /** Dates with a year of four digits never come near the end of the steps, unless they lie millennia apart. */
  lemma StepsReachFarEnough(rule: RepeatRule, first: Day, on: Day)
    requires rule.interval >= 1 && YearOf(on) - YearOf(first) < 8333
    ensures WithinSteps(rule, first, on)
  {
    assert MonthOf(on) - MonthOf(first) < MOST_STEPS;
    TimesMonotone(1, Stride(rule), MOST_STEPS);
  }

  /** The bound is real: of a series on the first of every month, the day so many months on is no longer reached. */
  lemma StepsRunOut(month: int)
    ensures var rule := RepeatRule(Monthly, 1, [], None, None);
      var first, on := MonthStart(month), MonthStart(month + MOST_STEPS);
      InSeries(rule, first, on) && !WithinSteps(rule, first, on)
  {
    FirstOfMonth(month);
    FirstOfMonth(month + MOST_STEPS);
    MonthsApart(month, month + MOST_STEPS);
  }

  /** The first day of the month so many steps of the rule after the month of the first day. */
  function StepStart(rule: RepeatRule, first: Day, step: int): Day
    requires rule.interval >= 1
  {
    MonthStart(MonthOf(first) + step * Stride(rule))
  }

  function EndOfSteps(rule: RepeatRule, first: Day): Day
    requires rule.interval >= 1
  {
    StepStart(rule, first, MOST_STEPS)
  }

  lemma WithinStepsIs(rule: RepeatRule, first: Day, on: Day)
    requires rule.interval >= 1 && rule.frequency in {Monthly, Yearly}
    ensures WithinSteps(rule, first, on) <==> on < EndOfSteps(rule, first)
  {
    var month := MonthOf(first) + MOST_STEPS * Stride(rule);
    if month <= MonthOf(on) {
      MonthsApart(month, MonthOf(on));
    } else {
      MonthsApart(MonthOf(on) + 1, month);
    }
  }

  lemma StepFacts(rule: RepeatRule, first: Day, step: nat)
    requires rule.interval >= 1 && step < MOST_STEPS
    ensures var month := MonthOf(first) + step * Stride(rule);
      && OnStride(rule, first, month)
      && MonthOf(first) + (step + 1) * Stride(rule) == month + Stride(rule)
      && MonthStart(month + Stride(rule)) <= EndOfSteps(rule, first)
  {
    StepsAreOnStride(rule, first, step);
    OneStepMore(step, Stride(rule));
    StepIsBeforeTheEnd(rule, first, step + 1);
  }

  lemma {:induction false} StepIsBeforeTheEnd(rule: RepeatRule, first: Day, step: nat)
    requires rule.interval >= 1 && step <= MOST_STEPS
    ensures MonthStart(MonthOf(first) + step * Stride(rule)) <= EndOfSteps(rule, first)
  {
    TimesMonotone(step, MOST_STEPS, Stride(rule));
    MonthsApart(MonthOf(first) + step * Stride(rule), MonthOf(first) + MOST_STEPS * Stride(rule));
  }

  /** Once the enumeration stops, what it listed is all there is up to the last day asked for. */
  lemma ListedIsAll(rule: RepeatRule, first: Day, lo: Day, next: Day, days: seq<Day>, till: Day)
    requires rule.interval >= 1 && rule.frequency in {Monthly, Yearly}
    requires Listed(rule, first, lo, next, days) && lo <= first
    requires forall d :: d in days ==> d <= till
    requires next <= EndOfSteps(rule, first)
    requires till < next || next == EndOfSteps(rule, first) || CutOff(rule, first, next)
    ensures forall d :: d in days <==> d <= till && InSeries(rule, first, d) && WithinSteps(rule, first, d)
  {
    if CutOff(rule, first, next) {
      NoneAfter(rule, first, next);
    }
    forall d ensures d in days <==> d <= till && InSeries(rule, first, d) && WithinSteps(rule, first, d) {
      WithinStepsIs(rule, first, d);
    }
  }

  /** One step of months: past the month where it lacks the day, or over the day where it has it. */
  lemma MonthlyMoveAt(rule: RepeatRule, first: Day, lo: Day, month: int, candidate: Day,
                      days: seq<Day>, produced: int, till: Day)
    requires rule.interval >= 1 && rule.frequency in {Monthly, Yearly} && OnStride(rule, first, month)
    requires candidate == MonthStart(month) + DayOfMonth(first) - 1
    requires At(rule, first, lo, MonthStart(month), days, produced, till)
    ensures MonthMoved(rule, first, lo, MonthStart(month + Stride(rule)), candidate, days, produced, till)
  {
    var after := MonthStart(month + Stride(rule));
    MonthStep(rule, first, month, candidate);
    if DayOfMonth(candidate) != DayOfMonth(first) {
      Pass(rule, first, lo, MonthStart(month), after, days, produced, till);
    } else {
      Pass(rule, first, lo, MonthStart(month), candidate, days, produced, till);
      if candidate <= till && !CutOff(rule, first, candidate) {
        Take(rule, first, lo, candidate, days, produced, till);
        Pass(rule, first, lo, candidate + 1, after, days + [candidate], produced + 1, till);
      }
    }
  }

  ghost predicate MonthMoved(rule: RepeatRule, first: Day, lo: Day, after: Day, candidate: Day,
                             days: seq<Day>, produced: int, till: Day)
    requires rule.interval >= 1
  {
    if DayOfMonth(candidate) != DayOfMonth(first) then At(rule, first, lo, after, days, produced, till)
    else
      && candidate < after && At(rule, first, lo, candidate, days, produced, till)
      && (candidate <= till && !CutOff(rule, first, candidate) ==>
            At(rule, first, lo, after, days + [candidate], produced + 1, till))
  }

  lemma MonthlyMove(rule: RepeatRule, first: Day, lo: Day, step: nat, candidate: Day,
                    days: seq<Day>, produced: int, till: Day)
    requires rule.interval >= 1 && rule.frequency in {Monthly, Yearly} && step < MOST_STEPS
    requires candidate == StepStart(rule, first, step) + DayOfMonth(first) - 1
    requires At(rule, first, lo, StepStart(rule, first, step), days, produced, till)
    ensures StepStart(rule, first, step + 1) <= EndOfSteps(rule, first)
    ensures MonthMoved(rule, first, lo, StepStart(rule, first, step + 1), candidate, days, produced, till)
  {
    StepFacts(rule, first, step);
    MonthlyMoveAt(rule, first, lo, MonthOf(first) + step * Stride(rule), candidate, days, produced, till);
  }

  method MonthlyDays(rule: RepeatRule, first: Day, till: Day) returns (days: seq<Day>)
    requires Understood(rule) && rule.frequency in {Monthly, Yearly}
    ensures Ascending(days)
    ensures forall d :: d in days <==> d <= till && InSeries(rule, first, d) && WithinSteps(rule, first, d)
  {
    var produced := 0;
    var date := DayOfMonth(first);
    ghost var lo, next := MonthStart(MonthOf(first)), MonthStart(MonthOf(first));
    days := [];
    for step := 0 to MOST_STEPS
      invariant next == StepStart(rule, first, step)
      invariant At(rule, first, lo, next, days, produced, till)
    {
      var candidate := StepStart(rule, first, step) + date - 1;
      MonthlyMove(rule, first, lo, step, candidate, days, produced, till);
      if DayOfMonth(candidate) == date {
        next := candidate;
        if Done(rule, candidate, produced) || candidate > till {
          break;
        }
        produced := produced + 1;
        days := days + [candidate];
      }
      next := StepStart(rule, first, step + 1);
    }
    ListedIsAll(rule, first, lo, next, days, till);
  }
}
