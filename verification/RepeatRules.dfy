/** Rules as RRULE text (section 3.3.10 of RFC 5545), in both directions. */
module RepeatRules {
  import opened Wrappers
  import opened Calendar
  import opened BerlinTime
  import opened Series
  import opened Sorting
  import opened Text

  /**
   * What the rule is read with: the zone of Germany, and the two built-in
   * functions of JavaScript whose whole behaviour does not matter here. `number`
   * gives a whole number or nothing for `NaN` and for a fraction.
   */
  datatype Env = Env(off: Offsets, upper: string -> string, number: string -> Option<int>)

  ghost predicate ValidEnv(env: Env) {
    && GermanZone(env.off)
    && (forall s :: Plain(s) ==> env.upper(s) == s)
    && (forall n :: env.number(Decimal(n)) == Some(n))
  }

  const KEYS: seq<string> := ["FREQ", "INTERVAL", "BYDAY", "UNTIL", "COUNT", "WKST"]
  const DAY_WORDS: seq<string> := ["MO", "TU", "WE", "TH", "FR", "SA", "SU"]

  function FrequencyWord(frequency: Frequency): string {
    match frequency
    case Daily => "DAILY"
    case Weekly => "WEEKLY"
    case Monthly => "MONTHLY"
    case Yearly => "YEARLY"
  }

  // --- Reading -----------------------------------------------------------------------------------

  /** The parts of the text by their key; a key met before as it is written refuses the text. */
  function ReadParts(env: Env, list: seq<string>, parts: map<string, string>): Option<map<string, string>> {
    if list == [] then Some(parts)
    else
      var pieces := Split(list[0], '=');
      if |pieces| != 2 || pieces[0] in parts then None
      else ReadParts(env, list[1..], parts[env.upper(pieces[0]) := env.upper(pieces[1])])
  }

  function FrequencyOf(word: string): Option<Frequency> {
    if word == "DAILY" then Some(Daily)
    else if word == "WEEKLY" then Some(Weekly)
    else if word == "MONTHLY" then Some(Monthly)
    else if word == "YEARLY" then Some(Yearly)
    else None
  }

  function WeekdayIndex(word: string): (i: int)
    ensures -1 <= i < 7
    ensures i >= 0 ==> DAY_WORDS[i] == word
  {
    if word == "MO" then 0 else if word == "TU" then 1 else if word == "WE" then 2 else if word == "TH" then 3
    else if word == "FR" then 4 else if word == "SA" then 5 else if word == "SU" then 6 else -1
  }

  function Itself(day: int): int {
    day
  }

  function WeekdayIndices(words: seq<string>): (days: seq<int>)
    ensures |days| == |words|
    ensures forall i :: 0 <= i < |days| ==> -1 <= days[i] < 7
  {
    seq(|words|, i requires 0 <= i < |words| => WeekdayIndex(words[i]))
  }

  predicate Distinct(days: seq<int>) {
    forall i, j :: 0 <= i < j < |days| ==> days[i] != days[j]
  }

  function WeekdaysOf(value: string): (weekdays: Option<seq<int>>)
    ensures weekdays.Some? ==> Ascending(weekdays.value) && AreWeekdays(weekdays.value)
  {
    var days := WeekdayIndices(Split(value, ','));
    if -1 in days || !Distinct(days) then None
    else
      assert forall i :: 0 <= i < |days| ==> days[i] in days;
      SortedWeekdays(days);
      SortedDistinctAscends(days);
      Some(SortBy(days, Itself))
  }

  /** `Date.UTC` takes a year of two digits for one of the twentieth century. */
  function FullYear(year: int): int {
    if 0 <= year <= 99 then 1900 + year else year
  }

  /**
   * The last day that is not after the text of a day. For a day of the calendar
   * it is the day; the source keeps the text itself, which compares the same
   * with every day of the calendar.
   */
  function DayNotAfter(year: int, month: int, date: int): Day {
    if month < 1 then YearStart(year) - 1
    else if month > 12 then YearStart(year + 1) - 1
    else
      var m := 12 * year + month - 1;
      MonthStart(m) - 1 + if date < MonthLength(m) then date else MonthLength(m)
  }

  predicate AllDigits(s: string) {
    forall c :: c in s ==> IsDigit(c)
  }

  /** The moment of UTC the digits of `YYYYMMDDTHHMMSSZ` name, with `Date.UTC` carrying what overflows. */
  function StampMoment(value: string): Moment
    requires |value| == 16
  {
    Utc(UtcDay(NumberOf(value[..4]), NumberOf(value[4..6]), NumberOf(value[6..8])))
    + UtcSecond(NumberOf(value[9..11]), NumberOf(value[11..13]), NumberOf(value[13..15])) * 1000
  }

  function UtcDay(year: int, month: int, date: int): Day {
    MonthStart(12 * FullYear(year) + month - 1) + date - 1
  }

  function UtcSecond(hour: int, minute: int, second: int): int {
    hour * 3600 + minute * 60 + second
  }

  predicate IsStamp(value: string) {
    |value| == 16 && AllDigits(value[..8]) && value[8] == 'T' && AllDigits(value[9..15]) && value[15] == 'Z'
  }

  function UntilDay(env: Env, value: string): Option<Day> {
    if |value| == 8 && AllDigits(value) then
      Some(DayNotAfter(NumberOf(value[..4]), NumberOf(value[4..6]), NumberOf(value[6..8])))
    else if IsStamp(value) then Some(BerlinClock(env.off, StampMoment(value)).day)
    else None
  }

  function FrequencyIn(parts: map<string, string>): Option<Frequency> {
    if "FREQ" in parts then FrequencyOf(parts["FREQ"]) else None
  }

  /** The weekdays of the rule, none for a rule without them, or nothing where they are not understood. */
  function WeekdaysIn(parts: map<string, string>): (weekdays: Option<seq<int>>)
    ensures weekdays.Some? ==> Ascending(weekdays.value) && AreWeekdays(weekdays.value)
    ensures weekdays.Some? && weekdays.value != [] ==> FrequencyIn(parts) == Some(Weekly)
  {
    if "BYDAY" !in parts then Some([])
    else if FrequencyIn(parts) != Some(Weekly) then None
    else WeekdaysOf(parts["BYDAY"])
  }

  function IntervalIn(env: Env, parts: map<string, string>): Option<int> {
    if "INTERVAL" in parts then env.number(parts["INTERVAL"]) else Some(1)
  }

  function UntilIn(env: Env, parts: map<string, string>): Option<Day> {
    if "UNTIL" in parts then UntilDay(env, parts["UNTIL"]) else None
  }

  function CountIn(env: Env, parts: map<string, string>): Option<int> {
    if "COUNT" in parts then env.number(parts["COUNT"]) else None
  }

  predicate KeysUnderstood(parts: map<string, string>) {
    (forall key :: key in parts ==> key in KEYS) && ("WKST" in parts ==> parts["WKST"] == "MO")
  }

  function RuleFrom(env: Env, parts: map<string, string>): (rule: Option<RepeatRule>)
    ensures rule.Some? ==> Understood(rule.value)
  {
    var frequency, weekdays, interval := FrequencyIn(parts), WeekdaysIn(parts), IntervalIn(env, parts);
    var until, count := UntilIn(env, parts), CountIn(env, parts);
    if frequency.None? || !KeysUnderstood(parts) || weekdays.None? then None
    else if interval.None? || interval.value < 1 || ("COUNT" in parts && count.None?) then None
    else if ("UNTIL" in parts && until.None?) || (until.Some? && count.Some?) then None
    else Some(RepeatRule(frequency.value, interval.value, weekdays.value, until, count))
  }

  lemma {:induction false} SortedWeekdays(weekdays: seq<int>)
    requires AreWeekdays(weekdays)
    ensures AreWeekdays(SortBy(weekdays, Itself)) && |SortBy(weekdays, Itself)| == |weekdays|
  {
    SortByMembers(weekdays, Itself);
    var sorted := SortBy(weekdays, Itself);
    forall i | 0 <= i < |sorted| ensures 0 <= sorted[i] < 7 {
      assert sorted[i] in weekdays;
    }
  }

  lemma {:induction false} SortedDistinctAscends(days: seq<int>)
    requires Distinct(days)
    ensures Ascending(SortBy(days, Itself))
  {
    SortByOrdersStrictly(days, Itself);
    var sorted := SortBy(days, Itself);
    forall i, j | 0 <= i < j < |sorted| ensures sorted[i] < sorted[j] {
      assert Itself(sorted[i]) < Itself(sorted[j]);
    }
  }

  function Parsed(env: Env, text: string): (rule: Option<RepeatRule>)
    ensures rule.Some? ==> Understood(rule.value)
  {
    var parts := ReadParts(env, Split(text, ';'), map[]);
    if parts.None? then None else RuleFrom(env, parts.value)
  }

  method ParseRule(env: Env, text: string) returns (rule: Option<RepeatRule>)
    ensures rule == Parsed(env, text)
  {
    var parts: map<string, string> := map[];
    var list := Split(text, ';');
    for i := 0 to |list|
      invariant ReadParts(env, list, map[]) == ReadParts(env, list[i..], parts)
    {
      var pieces := Split(list[i], '=');
      if |pieces| != 2 || pieces[0] in parts {
        return None;
      }
      parts := parts[env.upper(pieces[0]) := env.upper(pieces[1])];
    }
    return RuleFrom(env, parts);
  }

  // --- What is accepted --------------------------------------------------------------------------

  ghost predicate IsKnownKey(key: string) {
    key == "FREQ" || key == "INTERVAL" || key == "BYDAY" || key == "UNTIL" || key == "COUNT" || key == "WKST"
  }

  ghost predicate NamesFrequency(word: string, frequency: Frequency) {
    match frequency
    case Daily => word == "DAILY"
    case Weekly => word == "WEEKLY"
    case Monthly => word == "MONTHLY"
    case Yearly => word == "YEARLY"
  }

  /** Monday is 0. */
  ghost predicate NamesWeekday(word: string, day: int) {
    || (word == "MO" && day == 0) || (word == "TU" && day == 1) || (word == "WE" && day == 2) || (word == "TH" && day == 3)
    || (word == "FR" && day == 4) || (word == "SA" && day == 5) || (word == "SU" && day == 6)
  }

  ghost predicate IsWeekday(word: string) {
    NamesWeekday(word, 0) || NamesWeekday(word, 1) || NamesWeekday(word, 2) || NamesWeekday(word, 3)
    || NamesWeekday(word, 4) || NamesWeekday(word, 5) || NamesWeekday(word, 6)
  }

  ghost predicate AreDifferentWeekdays(words: seq<string>) {
    && (forall i :: 0 <= i < |words| ==> IsWeekday(words[i]))
    && (forall i, j :: 0 <= i < j < |words| ==> words[i] != words[j])
  }

  ghost predicate IsOneOf(word: string, weekdays: seq<int>) {
    exists day :: day in weekdays && NamesWeekday(word, day)
  }

  ghost predicate IsNamed(words: seq<string>, day: int) {
    exists i :: 0 <= i < |words| && NamesWeekday(words[i], day)
  }

  /** The numbers of the words, and no others. */
  ghost predicate NameTheWeekdays(words: seq<string>, weekdays: seq<int>) {
    (forall i :: 0 <= i < |words| ==> IsOneOf(words[i], weekdays)) && (forall day :: day in weekdays ==> IsNamed(words, day))
  }

  lemma IndexOfAWeekday(word: string)
    ensures WeekdayIndex(word) >= 0 ==> NamesWeekday(word, WeekdayIndex(word))
    ensures WeekdayIndex(word) >= 0 <==> IsWeekday(word)
  {}

  lemma OneNameForAWeekday(a: string, b: string, day: int)
    requires NamesWeekday(a, day) && NamesWeekday(b, day)
    ensures a == b
  {}

  lemma IndicesOfWeekdays(words: seq<string>)
    ensures -1 !in WeekdayIndices(words) && Distinct(WeekdayIndices(words)) <==> AreDifferentWeekdays(words)
  {
    var days := WeekdayIndices(words);
    forall i | 0 <= i < |words| ensures days[i] >= 0 <==> IsWeekday(words[i]) {
      IndexOfAWeekday(words[i]);
    }
    assert forall i :: 0 <= i < |days| ==> days[i] in days;
    if AreDifferentWeekdays(words) {
      forall i, j | 0 <= i < j < |words| ensures days[i] != days[j] {
        IndexOfAWeekday(words[i]);
        IndexOfAWeekday(words[j]);
        if days[i] == days[j] {
          OneNameForAWeekday(words[i], words[j], days[i]);
        }
      }
    }
  }

  lemma IndicesAreNamed(words: seq<string>, days: seq<int>)
    requires days == WeekdayIndices(words) && -1 !in days
    ensures forall i :: 0 <= i < |words| ==> NamesWeekday(words[i], days[i])
  {
    forall i | 0 <= i < |words| ensures NamesWeekday(words[i], days[i]) {
      assert days[i] in days;
      IndexOfAWeekday(words[i]);
    }
  }

  lemma NamedInAnyOrder(words: seq<string>, days: seq<int>, sorted: seq<int>)
    requires |days| == |words| && forall i :: 0 <= i < |words| ==> NamesWeekday(words[i], days[i])
    requires forall day :: day in sorted <==> day in days
    ensures NameTheWeekdays(words, sorted)
  {
    forall i | 0 <= i < |words| ensures IsOneOf(words[i], sorted) {
      assert days[i] in sorted && NamesWeekday(words[i], days[i]);
    }
    forall day | day in sorted ensures IsNamed(words, day) {
      var i :| 0 <= i < |days| && days[i] == day;
      assert NamesWeekday(words[i], day);
    }
  }

  /** A list of weekdays is understood just where it names different ones, and then as those. */
  lemma {:induction false} WeekdaysAreTheNamed(value: string)
    ensures WeekdaysOf(value).Some? <==> AreDifferentWeekdays(Split(value, ','))
    ensures WeekdaysOf(value).Some? ==> NameTheWeekdays(Split(value, ','), WeekdaysOf(value).value)
  {
    var words, days := Split(value, ','), WeekdayIndices(Split(value, ','));
    IndicesOfWeekdays(words);
    if WeekdaysOf(value).Some? {
      IndicesAreNamed(words, days);
      SortByMembers(days, Itself);
      NamedInAnyOrder(words, days, SortBy(days, Itself));
    }
  }

  ghost predicate IsFrequency(word: string) {
    word == "DAILY" || word == "WEEKLY" || word == "MONTHLY" || word == "YEARLY"
  }

  lemma FrequencyIsTheNamed(word: string)
    ensures FrequencyOf(word).Some? <==> IsFrequency(word)
    ensures FrequencyOf(word).Some? ==> NamesFrequency(word, FrequencyOf(word).value)
    ensures FrequencyOf(word) == Some(Weekly) <==> word == "WEEKLY"
  {}

  lemma KnownKeys(key: string)
    ensures key in KEYS <==> IsKnownKey(key)
  {
    assert KEYS[0] == "FREQ" && KEYS[1] == "INTERVAL" && KEYS[2] == "BYDAY";
    assert KEYS[3] == "UNTIL" && KEYS[4] == "COUNT" && KEYS[5] == "WKST";
  }

  /** The frequency and the weekdays can be read. */
  ghost predicate SaysHowOften(parts: map<string, string>) {
    && "FREQ" in parts && IsFrequency(parts["FREQ"])
    && ("BYDAY" in parts ==> parts["FREQ"] == "WEEKLY" && AreDifferentWeekdays(Split(parts["BYDAY"], ',')))
  }

  /** The interval and the end can be read. */
  ghost predicate SaysHowFar(env: Env, parts: map<string, string>) {
    && ("INTERVAL" in parts ==> env.number(parts["INTERVAL"]).Some? && env.number(parts["INTERVAL"]).value >= 1)
    && ("COUNT" in parts ==> env.number(parts["COUNT"]).Some? && "UNTIL" !in parts)
    && ("UNTIL" in parts ==> UntilDay(env, parts["UNTIL"]).Some?)
  }

  lemma HowOften(parts: map<string, string>)
    ensures FrequencyIn(parts).Some? && WeekdaysIn(parts).Some? <==> SaysHowOften(parts)
  {
    if "FREQ" in parts {
      FrequencyIsTheNamed(parts["FREQ"]);
    }
    if "BYDAY" in parts {
      WeekdaysAreTheNamed(parts["BYDAY"]);
    }
  }

  /**
   * What is accepted: only the six keys, a frequency, weekdays for a weekly
   * rule only and each once, weeks from Monday, an interval of at least one, a
   * whole count or an end that can be read, and not both.
   */
  lemma AcceptedExactly(env: Env, parts: map<string, string>)
    ensures RuleFrom(env, parts).Some? <==>
      && (forall key :: key in parts ==> IsKnownKey(key)) && ("WKST" in parts ==> parts["WKST"] == "MO")
      && SaysHowOften(parts) && SaysHowFar(env, parts)
  {
    HowOften(parts);
    forall key ensures key in KEYS <==> IsKnownKey(key) {
      KnownKeys(key);
    }
  }

  /** And what is given out for it: each part as it reads, once a week, day, month or year without an interval. */
  lemma AcceptedAsItReads(env: Env, parts: map<string, string>)
    requires RuleFrom(env, parts).Some?
    ensures var rule := RuleFrom(env, parts).value;
      && "FREQ" in parts && NamesFrequency(parts["FREQ"], rule.frequency)
      && (if "INTERVAL" in parts then Some(rule.interval) == env.number(parts["INTERVAL"]) else rule.interval == 1)
      && (if "BYDAY" in parts then NameTheWeekdays(Split(parts["BYDAY"], ','), rule.weekdays) else rule.weekdays == [])
      && (if "UNTIL" in parts then rule.until == UntilDay(env, parts["UNTIL"]) else rule.until == None)
      && (if "COUNT" in parts then rule.count == env.number(parts["COUNT"]) else rule.count == None)
  {
    FrequencyIsTheNamed(parts["FREQ"]);
    if "BYDAY" in parts {
      WeekdaysAreTheNamed(parts["BYDAY"]);
    }
  }

  // --- An end without a time ---------------------------------------------------------------------

  /** The order of dates written year, month, day, whether or not there is such a day. */
  ghost predicate IsNotAfter(on: Day, year: int, month: int, date: int) {
    || YearOf(on) < year
    || (YearOf(on) == year && MonthOf(on) % 12 + 1 < month)
    || (YearOf(on) == year && MonthOf(on) % 12 + 1 == month && DayOfMonth(on) <= date)
  }

  lemma {:induction false} BeforeAMonth(on: Day, month: int)
    ensures on < MonthStart(month) <==> MonthOf(on) < month
  {
    if MonthOf(on) < month {
      MonthsApart(MonthOf(on) + 1, month);
    } else {
      MonthsApart(month, MonthOf(on));
    }
  }

  lemma InYearAndMonth(on: Day, year: int, month: int)
    requires 1 <= month <= 12
    ensures var m := 12 * year + month - 1;
      && (MonthOf(on) < m <==> YearOf(on) < year || (YearOf(on) == year && MonthOf(on) % 12 + 1 < month))
      && (MonthOf(on) == m <==> YearOf(on) == year && MonthOf(on) % 12 + 1 == month)
  {}

  /** Of any two digits for the month and the day: a day is within the end just where its date is not after the text. */
  lemma DayNotAfterIs(on: Day, year: int, month: int, date: int)
    requires 0 <= month && 0 <= date
    ensures on <= DayNotAfter(year, month, date) <==> IsNotAfter(on, year, month, date)
  {
    if month < 1 {
      BeforeAMonth(on, 12 * year);
    } else if month > 12 {
      BeforeAMonth(on, 12 * (year + 1));
    } else {
      var m := 12 * year + month - 1;
      InYearAndMonth(on, year, month);
      BeforeAMonth(on, m);
      BeforeAMonth(on, m + 1);
    }
  }

  /** What the eight digits of an end without a time stand for. */
  lemma UntilIsADate(env: Env, value: string, on: Day)
    requires |value| == 8 && AllDigits(value)
    ensures UntilDay(env, value).Some?
    ensures on <= UntilDay(env, value).value
       <==> IsNotAfter(on, NumberOf(value[..4]), NumberOf(value[4..6]), NumberOf(value[6..]))
  {
    assert value[6..8] == value[6..];
    NotNegative(value[4..6]);
    NotNegative(value[6..8]);
    DayNotAfterIs(on, NumberOf(value[..4]), NumberOf(value[4..6]), NumberOf(value[6..8]));
  }

  lemma {:induction false} NotNegative(s: string)
    requires AllDigits(s)
    ensures NumberOf(s) >= 0
  {
    if s != "" {
      assert s[|s| - 1] in s;
      NotNegative(s[..|s| - 1]);
    }
  }

  /** The date of any day with a year of four digits is read as that day, also of one in the years 0 to 99. */
  lemma DateReadsBack(env: Env, on: Day, year: string, month: string, date: string)
    requires 0 <= YearOf(on) < 10_000
    requires year == FourDigits(YearOf(on)) && month == TwoDigits(MonthOf(on) % 12 + 1) && date == TwoDigits(DayOfMonth(on))
    ensures UntilDay(env, year + month + date) == Some(on)
  {
    DateSlices(year, month, date);
    DigitsReadBack(YearOf(on));
    DigitsReadBack(MonthOf(on) % 12 + 1);
    DigitsReadBack(DayOfMonth(on));
    OwnDate(on, YearOf(on), MonthOf(on) % 12 + 1, DayOfMonth(on));
  }

  lemma DateSlices(year: string, month: string, date: string)
    requires |year| == 4 && |month| == 2 && |date| == 2
    ensures var value := year + month + date;
      |value| == 8 && value[..4] == year && value[4..6] == month && value[6..8] == date
    ensures AllDigits(year) && AllDigits(month) && AllDigits(date) ==> AllDigits(year + month + date)
  {}

  lemma OwnDate(on: Day, year: int, month: int, date: int)
    requires year == YearOf(on) && month == MonthOf(on) % 12 + 1 && date == DayOfMonth(on)
    ensures DayNotAfter(year, month, date) == on
  {
    var m := 12 * year + month - 1;
    assert m == MonthOf(on);
  }

  // --- A key that comes again --------------------------------------------------------------------

  function KeyOf(part: string): string {
    Split(part, '=')[0]
  }

  predicate IsPair(part: string) {
    |Split(part, '=')| == 2
  }

  function ValueIn(part: string): string
    requires IsPair(part)
  {
    Split(part, '=')[1]
  }

  /** A part is refused: it is no key and value, or its key as it stands is the upper-case key of a part before it. */
  ghost predicate Refused(env: Env, list: seq<string>, parts: map<string, string>, i: nat)
    requires i < |list|
  {
    || !IsPair(list[i])
    || KeyOf(list[i]) in parts
    || exists h :: 0 <= h < i && env.upper(KeyOf(list[h])) == KeyOf(list[i])
  }

  /** The last part with a key has the word. */
  ghost predicate LastWith(env: Env, list: seq<string>, i: nat)
    requires i < |list|
  {
    forall j :: i < j < |list| ==> env.upper(KeyOf(list[j])) != env.upper(KeyOf(list[i]))
  }

  /** Of each key the value of its last part is kept, in capitals. */
  ghost predicate KeepsTheLast(env: Env, list: seq<string>, all: map<string, string>)
    requires forall i :: 0 <= i < |list| ==> IsPair(list[i])
  {
    forall i :: 0 <= i < |list| && LastWith(env, list, i) ==>
      env.upper(KeyOf(list[i])) in all && all[env.upper(KeyOf(list[i]))] == env.upper(ValueIn(list[i]))
  }

  ghost predicate IsKey(env: Env, list: seq<string>, key: string) {
    exists i :: 0 <= i < |list| && env.upper(KeyOf(list[i])) == key
  }

  /** Nothing else is kept but what was there before. */
  ghost predicate KeepsNoOther(env: Env, list: seq<string>, parts: map<string, string>, all: map<string, string>) {
    && (forall key :: key in all ==> key in parts || IsKey(env, list, key))
    && (forall key :: key in parts && !IsKey(env, list, key) ==> key in all && all[key] == parts[key])
  }

  lemma RefusedOneOn(env: Env, list: seq<string>, parts: map<string, string>, more: map<string, string>, i: nat)
    requires list != [] && IsPair(list[0]) && more == parts[env.upper(KeyOf(list[0])) := env.upper(ValueIn(list[0]))]
    requires i < |list[1..]|
    ensures Refused(env, list[1..], more, i) <==> Refused(env, list, parts, i + 1)
  {
    var rest := list[1..];
    assert rest[i] == list[i + 1];
    if h :| 0 <= h < i && env.upper(KeyOf(rest[h])) == KeyOf(rest[i]) {
      assert env.upper(KeyOf(list[h + 1])) == KeyOf(list[i + 1]);
    }
    if h :| 0 <= h < i + 1 && env.upper(KeyOf(list[h])) == KeyOf(list[i + 1]) {
      assert h > 0 ==> rest[h - 1] == list[h];
    }
  }

  /** A list is refused just where one of its parts is. */
  lemma {:induction false} RefusedIfAPartIs(env: Env, list: seq<string>, parts: map<string, string>)
    ensures ReadParts(env, list, parts).None? <==> exists i :: 0 <= i < |list| && Refused(env, list, parts, i)
  {
    if list != [] {
      if !IsPair(list[0]) || KeyOf(list[0]) in parts {
        assert Refused(env, list, parts, 0);
      } else {
        var rest, more := list[1..], parts[env.upper(KeyOf(list[0])) := env.upper(ValueIn(list[0]))];
        RefusedIfAPartIs(env, rest, more);
        assert !Refused(env, list, parts, 0);
        if i :| 0 <= i < |rest| && Refused(env, rest, more, i) {
          RefusedOneOn(env, list, parts, more, i);
        }
        if i :| 0 <= i < |list| && Refused(env, list, parts, i) {
          RefusedOneOn(env, list, parts, more, i - 1);
        }
      }
    }
  }

  lemma KeyOneOn(env: Env, list: seq<string>, key: string)
    requires list != []
    ensures IsKey(env, list, key) <==> IsKey(env, list[1..], key) || env.upper(KeyOf(list[0])) == key
  {
    if i :| 0 <= i < |list[1..]| && env.upper(KeyOf(list[1..][i])) == key {
      assert env.upper(KeyOf(list[i + 1])) == key;
    }
    if i :| 0 <= i < |list| && env.upper(KeyOf(list[i])) == key {
      assert i > 0 ==> list[1..][i - 1] == list[i];
    }
  }

  lemma NoOtherOneOn(env: Env, list: seq<string>, parts: map<string, string>, value: string, all: map<string, string>)
    requires list != [] && KeepsNoOther(env, list[1..], parts[env.upper(KeyOf(list[0])) := value], all)
    ensures KeepsNoOther(env, list, parts, all)
  {
    forall key ensures IsKey(env, list, key) <==> IsKey(env, list[1..], key) || env.upper(KeyOf(list[0])) == key {
      KeyOneOn(env, list, key);
    }
  }

  /** The first part is the last with its key, or its key is one of the rest. */
  lemma FirstOrLast(env: Env, list: seq<string>, i: nat)
    requires i < |list| && LastWith(env, list, i)
    ensures i > 0 ==> LastWith(env, list[1..], i - 1)
    ensures i == 0 ==> !IsKey(env, list[1..], env.upper(KeyOf(list[0])))
  {
    assert forall j :: 0 <= j < |list[1..]| ==> list[1..][j] == list[j + 1];
  }

  /** What is accepted keeps of each key the value of the last part that has it. */
  lemma {:induction false} AcceptedKeepsTheLast(env: Env, list: seq<string>, parts: map<string, string>)
    requires ReadParts(env, list, parts).Some?
    ensures forall i :: 0 <= i < |list| ==> IsPair(list[i])
    ensures KeepsTheLast(env, list, ReadParts(env, list, parts).value)
    ensures KeepsNoOther(env, list, parts, ReadParts(env, list, parts).value)
  {
    if list != [] {
      var key, value, rest := env.upper(KeyOf(list[0])), env.upper(ValueIn(list[0])), list[1..];
      var all := ReadParts(env, rest, parts[key := value]).value;
      AcceptedKeepsTheLast(env, rest, parts[key := value]);
      NoOtherOneOn(env, list, parts, value, all);
      forall i | 0 <= i < |list| ensures IsPair(list[i]) {
        assert i > 0 ==> list[i] == rest[i - 1];
      }
      forall i | 0 <= i < |list| && LastWith(env, list, i)
        ensures env.upper(KeyOf(list[i])) in all && all[env.upper(KeyOf(list[i]))] == env.upper(ValueIn(list[i]))
      {
        FirstOrLast(env, list, i);
        assert i > 0 ==> list[i] == rest[i - 1];
      }
    }
  }

  /** Two parts have the same key, capitals or not. */
  ghost predicate ComesAgain(env: Env, list: seq<string>, i: nat)
    requires i < |list|
  {
    exists h :: 0 <= h < i && env.upper(KeyOf(list[h])) == env.upper(KeyOf(list[i]))
  }

  /**
   * A part must not come twice (section 3.3.10 of RFC 5545). Of texts whose
   * parts are keys and values, those are refused in which some key that comes
   * again is written in capitals; all others are accepted, and the value that
   * comes last counts.
   */
  lemma {:induction false} RepeatedKeyIsRefused(env: Env, list: seq<string>)
    requires forall i :: 0 <= i < |list| ==> IsPair(list[i])
    requires forall key :: env.upper(env.upper(key)) == env.upper(key)
    ensures ReadParts(env, list, map[]).None? <==>
            exists i :: 0 <= i < |list| && ComesAgain(env, list, i) && env.upper(KeyOf(list[i])) == KeyOf(list[i])
    ensures var read := ReadParts(env, list, map[]);
      read.Some? ==> KeepsTheLast(env, list, read.value) && forall key :: key in read.value ==> IsKey(env, list, key)
  {
    RefusedIfAPartIs(env, list, map[]);
    if ReadParts(env, list, map[]).Some? {
      AcceptedKeepsTheLast(env, list, map[]);
    }
    forall i | 0 <= i < |list|
      ensures Refused(env, list, map[], i) <==> ComesAgain(env, list, i) && env.upper(KeyOf(list[i])) == KeyOf(list[i])
    {
      if h :| 0 <= h < i && env.upper(KeyOf(list[h])) == KeyOf(list[i]) {
        assert env.upper(env.upper(KeyOf(list[h]))) == env.upper(KeyOf(list[i]));
      }
    }
  }

  lemma {:induction false} TwoParts(env: Env, first: string, second: string, value: string, again: string)
    requires '=' !in first && '=' !in second && '=' !in value && '=' !in again
    ensures var key, keyAgain := env.upper(first), env.upper(second);
      ReadParts(env, [first + "=" + value, second + "=" + again], map[])
      == if second == key then None else Some(map[key := env.upper(value)][keyAgain := env.upper(again)])
  {
    SplitPart(first, '=', value);
    SplitPart(second, '=', again);
    SplitPart(value, '=', "");
    SplitPart(again, '=', "");
    var list := [first + "=" + value, second + "=" + again];
    var parts: map<string, string> := map[env.upper(first) := env.upper(value)];
    assert ReadParts(env, list, map[]) == ReadParts(env, list[1..], parts);
    assert list[1..] == [second + "=" + again] && list[1..][1..] == [];
  }

  lemma WeeklyAlone(env: Env)
    ensures RuleFrom(env, map["FREQ" := "WEEKLY"]) == Some(RepeatRule(Weekly, 1, [], None, None))
  {
    assert "FREQ" == KEYS[0];
    assert |"FREQ"| == 4 && |"BYDAY"| == 5 && |"INTERVAL"| == 8 && |"UNTIL"| == 5 && |"COUNT"| == 5 && "WKST"[0] != "FREQ"[0];
  }

  lemma {:induction false} TwoFrequencies(env: Env, first: string, second: string, text: string)
    requires '=' !in first && '=' !in second && ';' !in first && ';' !in second
    requires env.upper(first) == "FREQ" && env.upper(second) == "FREQ" && env.upper("WEEKLY") == "WEEKLY"
    requires text == first + "=" + "DAILY" + [';'] + (second + "=" + "WEEKLY")
    ensures Parsed(env, text) == if second == "FREQ" then None else Some(RepeatRule(Weekly, 1, [], None, None))
  {
    var a, b := first + "=" + "DAILY", second + "=" + "WEEKLY";
    SplitPart(a, ';', b);
    SplitPart(b, ';', "");
    assert Split(text, ';') == [a, b];
    TwoParts(env, first, second, "DAILY", "WEEKLY");
    assert map["FREQ" := env.upper("DAILY")]["FREQ" := "WEEKLY"] == map["FREQ" := "WEEKLY"];
    WeeklyAlone(env);
  }

  lemma FrequencyTexts()
    ensures "freq" + "=" + "DAILY" + [';'] + ("freq" + "=" + "WEEKLY") == "freq=DAILY;freq=WEEKLY"
    ensures "FREQ" + "=" + "DAILY" + [';'] + ("freq" + "=" + "WEEKLY") == "FREQ=DAILY;freq=WEEKLY"
    ensures "freq" + "=" + "DAILY" + [';'] + ("FREQ" + "=" + "WEEKLY") == "freq=DAILY;FREQ=WEEKLY"
    ensures "freq" != "FREQ"
  {
    assert "freq"[0] != "FREQ"[0];
  }

  /** In small letters a second FREQ replaces the first, in capitals it is refused, whatever the first was written in. */
  lemma {:induction false} SecondFrequencyReplacesTheFirst(env: Env, twice: string, mixed: string, refused: string)
    requires env.upper("freq") == "FREQ" && env.upper("FREQ") == "FREQ" && env.upper("WEEKLY") == "WEEKLY"
    requires twice == "freq=DAILY;freq=WEEKLY" && mixed == "FREQ=DAILY;freq=WEEKLY" && refused == "freq=DAILY;FREQ=WEEKLY"
    ensures Parsed(env, twice) == Parsed(env, mixed) == Some(RepeatRule(Weekly, 1, [], None, None))
    ensures Parsed(env, refused) == None
  {
    FrequencyTexts();
    TwoFrequencies(env, "freq", "freq", twice);
    TwoFrequencies(env, "FREQ", "freq", mixed);
    TwoFrequencies(env, "freq", "FREQ", refused);
  }

  // --- Writing -----------------------------------------------------------------------------------

  /** The days whose last second can be written, and that `Date.UTC` does not take for days of another century. */
  predicate Printable(until: Day) {
    YearStart(100) <= until && until + 1 < YearStart(10_000)
  }

  function StampText(a: string, b: string, c: string, d: string, e: string, f: string): string {
    a + b + c + "T" + d + e + f + "Z"
  }

  function SecondOfDay(at: Moment): (second: int)
    ensures 0 <= second < 86_400
  {
    at % (DAY_MINUTES * MINUTE) / 1000
  }

  /** A moment in UTC as `YYYYMMDDTHHMMSSZ`. */
  function UtcStamp(at: Moment): string
    requires 0 <= YearOf(at / (DAY_MINUTES * MINUTE)) < 10_000
  {
    var day, second := at / (DAY_MINUTES * MINUTE), SecondOfDay(at);
    StampText(
      FourDigits(YearOf(day)), TwoDigits(MonthOf(day) % 12 + 1), TwoDigits(DayOfMonth(day)),
      TwoDigits(second / 3600), TwoDigits(second / 60 % 60), TwoDigits(second % 60))
  }

  /** The last second of a day in Germany. */
  function LastSecond(env: Env, until: Day): (at: Moment)
  {
    BerlinInstant(env.off, until + 1, 0) - 1000
  }

  /** Around midnight in Germany no clock changes. */
  lemma MidnightOffset(off: Offsets, on: Day)
    requires GermanZone(off)
    ensures var w := on * DAY_MINUTES;
      forall u | w - 180 <= u <= w :: off(u) == off(w)
  {
    var w := on * DAY_MINUTES;
    forall u | w - 180 <= u <= w ensures off(u) == off(w) {
      assert Night(u) == on - 1 == Night(w);
    }
  }

  lemma LastSecondIs(env: Env, until: Day)
    requires ValidEnv(env)
    ensures var at := LastSecond(env, until);
      && at / (DAY_MINUTES * MINUTE) == until
      && at % (DAY_MINUTES * MINUTE) % 1000 == 0
      && BerlinClock(env.off, at).day == until
  {
    var w := (until + 1) * DAY_MINUTES;
    InstantInMinutes(env.off, until + 1, 0);
    MidnightOffset(env.off, until + 1);
    var o := env.off(w);
    var at := LastSecond(env, until);
    assert at == (w - o - 1) * MINUTE + 59_000;
    assert at / MINUTE == w - o - 1;
    if o == 60 {
      assert at == until * (DAY_MINUTES * MINUTE) + (22 * 60 + 59) * MINUTE + 59_000;
    } else {
      assert at == until * (DAY_MINUTES * MINUTE) + (21 * 60 + 59) * MINUTE + 59_000;
    }
  }

  lemma PrintableYear(until: Day)
    requires Printable(until)
    ensures 100 <= YearOf(until) < 10_000
  {
    MonthRange(1200, 120_000, until);
  }

  lemma StampSlices(a: string, b: string, c: string, d: string, e: string, f: string)
    requires |a| == 4 && |b| == 2 && |c| == 2 && |d| == 2 && |e| == 2 && |f| == 2
    ensures var s := StampText(a, b, c, d, e, f);
      && |s| == 16 && s[..8] == a + b + c && s[8] == 'T' && s[9..15] == d + e + f && s[15] == 'Z'
      && s[..4] == a && s[4..6] == b && s[6..8] == c && s[9..11] == d && s[11..13] == e && s[13..15] == f
  {}

  lemma StampIsPlain(a: string, b: string, c: string, d: string, e: string, f: string)
    requires |a| == 4 && |b| == 2 && |c| == 2 && |d| == 2 && |e| == 2 && |f| == 2
    requires AllDigits(a) && AllDigits(b) && AllDigits(c) && AllDigits(d) && AllDigits(e) && AllDigits(f)
    ensures IsStamp(StampText(a, b, c, d, e, f)) && Plain(StampText(a, b, c, d, e, f))
  {
    StampSlices(a, b, c, d, e, f);
    var date, time := a + b + c, d + e + f;
    assert AllDigits(date) && AllDigits(time);
    var s := StampText(a, b, c, d, e, f);
    assert s == date + "T" + time + "Z";
  }

  lemma TimeReadsBack(second: int)
    requires 0 <= second < 86_400
    ensures UtcSecond(
      NumberOf(TwoDigits(second / 3600)), NumberOf(TwoDigits(second / 60 % 60)), NumberOf(TwoDigits(second % 60))) == second
  {
    DigitsReadBack(second / 3600);
    DigitsReadBack(second / 60 % 60);
    DigitsReadBack(second % 60);
    assert second / 60 / 60 == second / 3600;
  }

  lemma UtcDayIs(day: Day)
    requires 100 <= YearOf(day)
    ensures UtcDay(YearOf(day), MonthOf(day) % 12 + 1, DayOfMonth(day)) == day
  {
    assert 12 * YearOf(day) + MonthOf(day) % 12 == MonthOf(day);
  }

  lemma DayReadsBack(day: Day)
    requires 100 <= YearOf(day) < 10_000
    ensures UtcDay(
      NumberOf(FourDigits(YearOf(day))), NumberOf(TwoDigits(MonthOf(day) % 12 + 1)), NumberOf(TwoDigits(DayOfMonth(day)))) == day
  {
    DigitsReadBack(YearOf(day));
    DigitsReadBack(MonthOf(day) % 12 + 1);
    DigitsReadBack(DayOfMonth(day));
    UtcDayIs(day);
  }

  lemma StampReadsBack(at: Moment)
    requires 100 <= YearOf(at / (DAY_MINUTES * MINUTE)) < 10_000 && at % (DAY_MINUTES * MINUTE) % 1000 == 0
    ensures IsStamp(UtcStamp(at)) && Plain(UtcStamp(at)) && StampMoment(UtcStamp(at)) == at
  {
    StampIsTheSecond(at);
  }

  /** Of any moment the second it lies in is read back. */
  lemma StampIsTheSecond(at: Moment)
    requires 100 <= YearOf(at / (DAY_MINUTES * MINUTE)) < 10_000
    ensures IsStamp(UtcStamp(at)) && Plain(UtcStamp(at))
    ensures StampMoment(UtcStamp(at)) == at - at % (DAY_MINUTES * MINUTE) % 1000
  {
    var day, second := at / (DAY_MINUTES * MINUTE), SecondOfDay(at);
    var a, b, c := FourDigits(YearOf(day)), TwoDigits(MonthOf(day) % 12 + 1), TwoDigits(DayOfMonth(day));
    var d, e, f := TwoDigits(second / 3600), TwoDigits(second / 60 % 60), TwoDigits(second % 60);
    StampIsPlain(a, b, c, d, e, f);
    StampSlices(a, b, c, d, e, f);
    TimeReadsBack(second);
    DayReadsBack(day);
  }

  /** The day `Date.UTC` makes of a date in one of the years 0 to 99. */
  function TwentiethCentury(day: Day): Day {
    MonthStart(MonthOf(day) + 12 * 1900) + DayOfMonth(day) - 1
  }

  lemma TwentiethCenturyIsLater(day: Day)
    ensures TwentiethCentury(day) > day
  {
    MonthsApart(MonthOf(day) + 1, MonthOf(day) + 12 * 1900);
  }

  lemma EarlyUtcDayIs(day: Day, year: int, month: int)
    requires 0 <= year < 100 && MonthOf(day) == 12 * year + month - 1
    ensures UtcDay(year, month, DayOfMonth(day)) == TwentiethCentury(day)
  {
    assert 12 * (1900 + year) + month - 1 == MonthOf(day) + 12 * 1900;
  }

  lemma EarlyDayReadsAnother(day: Day)
    requires 0 <= YearOf(day) < 100
    ensures UtcDay(NumberOf(FourDigits(YearOf(day))), NumberOf(TwoDigits(MonthOf(day) % 12 + 1)),
                   NumberOf(TwoDigits(DayOfMonth(day)))) == TwentiethCentury(day)
  {
    DigitsReadBack(YearOf(day));
    DigitsReadBack(MonthOf(day) % 12 + 1);
    DigitsReadBack(DayOfMonth(day));
    EarlyUtcDayIs(day, YearOf(day), MonthOf(day) % 12 + 1);
  }

  lemma EarlyStampReadsAnother(at: Moment)
    requires 0 <= YearOf(at / (DAY_MINUTES * MINUTE)) < 100
    ensures IsStamp(UtcStamp(at)) && StampMoment(UtcStamp(at)) >= Utc(TwentiethCentury(at / (DAY_MINUTES * MINUTE)))
  {
    var day, second := at / (DAY_MINUTES * MINUTE), SecondOfDay(at);
    var a, b, c := FourDigits(YearOf(day)), TwoDigits(MonthOf(day) % 12 + 1), TwoDigits(DayOfMonth(day));
    var d, e, f := TwoDigits(second / 3600), TwoDigits(second / 60 % 60), TwoDigits(second % 60);
    StampIsPlain(a, b, c, d, e, f);
    StampSlices(a, b, c, d, e, f);
    TimeReadsBack(second);
    EarlyDayReadsAnother(day);
  }

  lemma ClockIsNotBehind(off: Offsets, day: Day, at: Moment)
    requires GermanZone(off) && Utc(day) <= at
    ensures BerlinClock(off, at).day >= day
  {
    assert at / MINUTE >= day * DAY_MINUTES;
  }

  /** In the years 0 to 99 an UNTIL comes back as a later day. */
  lemma EarlyUntilReadsAnother(env: Env, until: Day)
    requires ValidEnv(env) && 0 <= YearOf(until) < 100
    ensures 0 <= YearOf(LastSecond(env, until) / (DAY_MINUTES * MINUTE)) < 10_000
    ensures var read := UntilDay(env, UtcStamp(LastSecond(env, until))); read.Some? && read.value > until
  {
    var at := LastSecond(env, until);
    LastSecondIs(env, until);
    EarlyStampReadsAnother(at);
    TwentiethCenturyIsLater(until);
    ClockIsNotBehind(env.off, TwentiethCentury(until), StampMoment(UtcStamp(at)));
  }

  /** UNTIL is printed as the last second of its day in Germany, in UTC, and read back as that day. */
  lemma UntilReadsBack(env: Env, until: Day)
    requires ValidEnv(env) && Printable(until)
    ensures 0 <= YearOf(LastSecond(env, until) / (DAY_MINUTES * MINUTE)) < 10_000
    ensures UntilDay(env, UtcStamp(LastSecond(env, until))) == Some(until)
    ensures Plain(UtcStamp(LastSecond(env, until)))
  {
    LastSecondIs(env, until);
    PrintableYear(until);
    StampReadsBack(LastSecond(env, until));
  }

  /** Of all days that can be printed, those come back that do not lie in the years 0 to 99. */
  lemma UntilReadsBackFromTheYear100(env: Env, until: Day)
    requires ValidEnv(env) && YearStart(0) <= until && until + 1 < YearStart(10_000)
    ensures 0 <= YearOf(LastSecond(env, until) / (DAY_MINUTES * MINUTE)) < 10_000
    ensures UntilDay(env, UtcStamp(LastSecond(env, until))) == Some(until) <==> 100 <= YearOf(until)
  {
    if until < YearStart(100) {
      MonthRange(0, 1200, until);
      EarlyUntilReadsAnother(env, until);
    } else {
      PrintableYear(until);
      UntilReadsBack(env, until);
    }
  }

  /** A rule that can be written: its weekdays are days of the week, its end has a year of four digits. */
  predicate Writable(rule: RepeatRule) {
    && AreWeekdays(rule.weekdays)
    && (rule.until.Some? ==> Printable(rule.until.value))
  }

  function WordsOf(weekdays: seq<int>): (words: seq<string>)
    requires AreWeekdays(weekdays)
    ensures |words| == |weekdays|
  {
    if weekdays == [] then []
    else [DAY_WORDS[weekdays[0]]] + WordsOf(weekdays[1..])
  }

  /** What is written under each of `KEYS`, if it is; a rule never writes WKST. */
  function Written(env: Env, rule: RepeatRule, key: nat): (value: Option<string>)
    requires ValidEnv(env) && Writable(rule) && key < |KEYS|
  {
    match key
    case 0 => Some(FrequencyWord(rule.frequency))
    case 1 => if rule.interval != 1 then Some(Decimal(rule.interval)) else None
    case 2 =>
      if rule.frequency == Weekly && |rule.weekdays| > 0 then
        SortedWeekdays(rule.weekdays);
        Some(Join(WordsOf(SortBy(rule.weekdays, Itself)), ","))
      else None
    case 3 =>
      if rule.until.Some? then
        UntilReadsBack(env, rule.until.value);
        Some(UtcStamp(LastSecond(env, rule.until.value)))
      else None
    case 4 => if rule.until.None? && rule.count.Some? then Some(Decimal(rule.count.value)) else None
    case _ => None
  }

  /** The parts of an RRULE from a key on, a key and a value each, in the order they are written. */
  function Pairs(env: Env, rule: RepeatRule, key: nat): (pairs: seq<(string, string)>)
    requires ValidEnv(env) && Writable(rule) && key <= |KEYS|
    decreases |KEYS| - key
  {
    if key == |KEYS| then []
    else
      var rest, value := Pairs(env, rule, key + 1), Written(env, rule, key);
      if value.Some? then [(KEYS[key], value.value)] + rest else rest
  }

  function Texts(pairs: seq<(string, string)>): seq<string> {
    if pairs == [] then [] else [pairs[0].0 + "=" + pairs[0].1] + Texts(pairs[1..])
  }

  /** A rule as text. */
  ghost function RuleOf(env: Env, rule: RepeatRule): string
    requires ValidEnv(env) && Writable(rule)
  {
    assert Pairs(env, rule, 0) != [];
    Join(Texts(Pairs(env, rule, 0)), ";")
  }

  function Added(parts: map<string, string>, pairs: seq<(string, string)>): map<string, string>
    decreases pairs
  {
    if pairs == [] then parts else Added(parts[pairs[0].0 := pairs[0].1], pairs[1..])
  }

  ghost predicate PlainPairs(pairs: seq<(string, string)>) {
    && (forall p :: p in pairs ==> Plain(p.0) && Plain(p.1))
    && (forall i, j :: 0 <= i < j < |pairs| ==> pairs[i].0 != pairs[j].0)
  }

  lemma {:induction false} TextsSplit(pairs: seq<(string, string)>)
    requires PlainPairs(pairs) && pairs != []
    ensures Texts(pairs) != [] && Split(Join(Texts(pairs), ";"), ';') == Texts(pairs)
  {
    TextsHaveNoSeparator(pairs);
    SplitUndoesJoin(Texts(pairs), ';');
  }

  lemma {:induction false} TextsHaveNoSeparator(pairs: seq<(string, string)>)
    requires PlainPairs(pairs)
    ensures forall text :: text in Texts(pairs) ==> ';' !in text
  {
    if pairs != [] {
      TextsHaveNoSeparator(pairs[1..]);
      assert pairs[0] in pairs;
    }
  }

  lemma {:induction false} PairsRead(env: Env, pairs: seq<(string, string)>, parts: map<string, string>)
    requires ValidEnv(env) && PlainPairs(pairs)
    requires forall p :: p in pairs ==> p.0 !in parts
    ensures ReadParts(env, Texts(pairs), parts) == Some(Added(parts, pairs))
    decreases pairs
  {
    if pairs != [] {
      var (key, value) := pairs[0];
      assert pairs[0] in pairs;
      SplitPart(key, '=', value);
      SplitPart(value, '=', "");
      assert Split(key + "=" + value, '=') == [key, value];
      forall p | p in pairs[1..] ensures p.0 !in parts[key := value] {
        var i :| 0 <= i < |pairs[1..]| && pairs[1..][i] == p;
        assert pairs[0].0 != pairs[i + 1].0;
      }
      PairsRead(env, pairs[1..], parts[key := value]);
    }
  }

  lemma {:induction false} AddedFinds(parts: map<string, string>, pairs: seq<(string, string)>)
    requires PlainPairs(pairs)
    requires forall p :: p in pairs ==> p.0 !in parts
    ensures var all := Added(parts, pairs);
      && (forall p :: p in pairs ==> p.0 in all && all[p.0] == p.1)
      && (forall key :: key in parts ==> key in all && all[key] == parts[key])
      && (forall key :: key in all ==> key in parts || (key, all[key]) in pairs)
    decreases pairs
  {
    if pairs != [] {
      var (key, value) := pairs[0];
      forall p | p in pairs[1..] ensures p.0 !in parts[key := value] {
        var i :| 0 <= i < |pairs[1..]| && pairs[1..][i] == p;
        assert pairs[0].0 != pairs[i + 1].0;
      }
      AddedFinds(parts[key := value], pairs[1..]);
      assert pairs == [pairs[0]] + pairs[1..];
    }
  }

  lemma {:induction false} WordsReadBack(weekdays: seq<int>)
    requires AreWeekdays(weekdays)
    ensures WeekdayIndices(WordsOf(weekdays)) == weekdays
    ensures forall i :: 0 <= i < |weekdays| ==> Plain(WordsOf(weekdays)[i]) && ',' !in WordsOf(weekdays)[i]
  {
    if weekdays != [] {
      WordsReadBack(weekdays[1..]);
      var words := WordsOf(weekdays);
      WordReadsBack(weekdays[0]);
      assert WeekdayIndices(words) == [WeekdayIndex(words[0])] + WeekdayIndices(words[1..]);
    }
  }

  lemma WordReadsBack(w: int)
    requires 0 <= w < 7
    ensures WeekdayIndex(DAY_WORDS[w]) == w && Plain(DAY_WORDS[w]) && ',' !in DAY_WORDS[w]
  {}

  lemma {:induction false} JoinIsPlain(parts: seq<string>)
    requires parts != [] && forall i :: 0 <= i < |parts| ==> Plain(parts[i])
    ensures Plain(Join(parts, ","))
  {
    if |parts| > 1 {
      JoinIsPlain(parts[1..]);
      var rest := Join(parts[1..], ",");
      JoinFromTheFront(parts, ",");
    }
  }

  lemma {:induction false} WeekdaysReadBack(weekdays: seq<int>)
    requires weekdays != [] && Ascending(weekdays) && AreWeekdays(weekdays)
    ensures SortBy(weekdays, Itself) == weekdays
    ensures WeekdaysOf(Join(WordsOf(weekdays), ",")) == Some(weekdays)
  {
    assert InOrder(weekdays, Itself);
    SortByOfSorted(weekdays, Itself);
    WordsReadBack(weekdays);
    SplitUndoesJoin(WordsOf(weekdays), ',');
  }

  lemma WrittenIsPlain(env: Env, rule: RepeatRule, key: nat)
    requires ValidEnv(env) && Writable(rule) && key < |KEYS|
    ensures Written(env, rule, key).Some? ==> Plain(Written(env, rule, key).value)
  {
    if key == 2 && rule.frequency == Weekly && |rule.weekdays| > 0 {
      SortedWeekdays(rule.weekdays);
      WordsReadBack(SortBy(rule.weekdays, Itself));
      JoinIsPlain(WordsOf(SortBy(rule.weekdays, Itself)));
    } else if key == 3 && rule.until.Some? {
      UntilReadsBack(env, rule.until.value);
    }
  }

  lemma KeysAreDistinct(i: nat, j: nat)
    requires i < |KEYS| && j < |KEYS|
    ensures Plain(KEYS[i]) && (KEYS[i] == KEYS[j] ==> i == j)
  {}

  /** From a key on the pairs are what is written, each under its key, and nothing else. */
  ghost predicate AreWritten(env: Env, rule: RepeatRule, key: nat, pairs: seq<(string, string)>)
    requires ValidEnv(env) && Writable(rule)
  {
    && (forall p :: p in pairs ==> exists k :: key <= k < |KEYS| && p.0 == KEYS[k])
    && (forall k :: key <= k < |KEYS| && Written(env, rule, k).Some? ==> (KEYS[k], Written(env, rule, k).value) in pairs)
    && (forall k, p :: key <= k < |KEYS| && p in pairs && p.0 == KEYS[k] ==> Written(env, rule, k) == Some(p.1))
  }

  lemma OnePairMore(env: Env, rule: RepeatRule, key: nat, rest: seq<(string, string)>, pairs: seq<(string, string)>)
    requires ValidEnv(env) && Writable(rule) && key < |KEYS| && AreWritten(env, rule, key + 1, rest)
    requires pairs == match Written(env, rule, key) case Some(value) => [(KEYS[key], value)] + rest case None => rest
    ensures AreWritten(env, rule, key, pairs)
  {
    forall k | key < k < |KEYS| ensures KEYS[k] != KEYS[key] {
      KeysAreDistinct(key, k);
    }
  }

  lemma PlainPairMore(key: string, value: string, rest: seq<(string, string)>)
    requires PlainPairs(rest) && Plain(key) && Plain(value) && forall p :: p in rest ==> p.0 != key
    ensures PlainPairs([(key, value)] + rest)
  {}

  lemma OnePlainPairMore(env: Env, rule: RepeatRule, key: nat, rest: seq<(string, string)>, pairs: seq<(string, string)>)
    requires ValidEnv(env) && Writable(rule) && key < |KEYS| && AreWritten(env, rule, key + 1, rest) && PlainPairs(rest)
    requires pairs == match Written(env, rule, key) case Some(value) => [(KEYS[key], value)] + rest case None => rest
    ensures PlainPairs(pairs)
  {
    WrittenIsPlain(env, rule, key);
    KeysAreDistinct(key, key);
    forall p | p in rest ensures p.0 != KEYS[key] {
      var k :| key + 1 <= k < |KEYS| && p.0 == KEYS[k];
      KeysAreDistinct(key, k);
    }
    if Written(env, rule, key).Some? {
      PlainPairMore(KEYS[key], Written(env, rule, key).value, rest);
    }
  }

  lemma {:induction false} PairsAre(env: Env, rule: RepeatRule, key: nat)
    requires ValidEnv(env) && Writable(rule) && key <= |KEYS|
    ensures PlainPairs(Pairs(env, rule, key)) && AreWritten(env, rule, key, Pairs(env, rule, key))
    decreases |KEYS| - key
  {
    if key < |KEYS| {
      PairsAre(env, rule, key + 1);
      OnePairMore(env, rule, key, Pairs(env, rule, key + 1), Pairs(env, rule, key));
      OnePlainPairMore(env, rule, key, Pairs(env, rule, key + 1), Pairs(env, rule, key));
    }
  }

  ghost predicate Holds(env: Env, rule: RepeatRule, parts: map<string, string>)
    requires ValidEnv(env) && Writable(rule)
  {
    && (forall key :: key in parts ==> key in KEYS)
    && (forall k :: 0 <= k < |KEYS| ==>
          match Written(env, rule, k)
          case Some(value) => KEYS[k] in parts && parts[KEYS[k]] == value
          case None => KEYS[k] !in parts)
  }

  lemma KeysOfARule(env: Env, rule: RepeatRule, parts: map<string, string>)
    requires ValidEnv(env) && Writable(rule) && Holds(env, rule, parts)
    ensures FrequencyIn(parts) == Some(rule.frequency)
    ensures KeysUnderstood(parts)
  {
    assert KEYS[0] == "FREQ" && KEYS[5] == "WKST";
    assert Written(env, rule, 0) == Some(FrequencyWord(rule.frequency)) && Written(env, rule, 5) == None;
  }

  lemma IntervalOfARule(env: Env, rule: RepeatRule, parts: map<string, string>)
    requires ValidEnv(env) && Writable(rule) && Holds(env, rule, parts)
    ensures IntervalIn(env, parts) == Some(rule.interval)
  {
    assert KEYS[1] == "INTERVAL";
    assert Written(env, rule, 1) == if rule.interval != 1 then Some(Decimal(rule.interval)) else None;
  }

  lemma CountOfARule(env: Env, rule: RepeatRule, parts: map<string, string>)
    requires ValidEnv(env) && Understood(rule) && Writable(rule) && Holds(env, rule, parts)
    ensures CountIn(env, parts) == rule.count && ("COUNT" in parts <==> rule.count.Some?)
  {
    assert KEYS[4] == "COUNT";
    assert Written(env, rule, 4)
        == if rule.until.None? && rule.count.Some? then Some(Decimal(rule.count.value)) else None;
  }

  lemma UntilOfARule(env: Env, rule: RepeatRule, parts: map<string, string>)
    requires ValidEnv(env) && Writable(rule) && Holds(env, rule, parts)
    ensures UntilIn(env, parts) == rule.until && ("UNTIL" in parts <==> rule.until.Some?)
  {
    assert KEYS[3] == "UNTIL";
    if rule.until.Some? {
      UntilReadsBack(env, rule.until.value);
    }
  }

  lemma WeekdaysOfARule(env: Env, rule: RepeatRule, parts: map<string, string>)
    requires ValidEnv(env) && Understood(rule) && Writable(rule) && Holds(env, rule, parts)
    ensures WeekdaysIn(parts) == Some(rule.weekdays)
  {
    assert KEYS[2] == "BYDAY";
    KeysOfARule(env, rule, parts);
    if rule.weekdays != [] {
      WeekdaysReadBack(rule.weekdays);
    }
  }

  lemma PairsHoldAll(env: Env, rule: RepeatRule, pairs: seq<(string, string)>, parts: map<string, string>)
    requires ValidEnv(env) && Writable(rule) && AreWritten(env, rule, 0, pairs)
    requires forall p :: p in pairs ==> p.0 in parts && parts[p.0] == p.1
    requires forall key :: key in parts ==> (key, parts[key]) in pairs
    ensures Holds(env, rule, parts)
  {
    forall k | 0 <= k < |KEYS|
      ensures match Written(env, rule, k)
              case Some(value) => KEYS[k] in parts && parts[KEYS[k]] == value
              case None => KEYS[k] !in parts
    {
      if Written(env, rule, k).Some? {
        assert (KEYS[k], Written(env, rule, k).value) in pairs;
      }
    }
  }

  lemma {:induction false} PairsHold(env: Env, rule: RepeatRule)
    requires ValidEnv(env) && Writable(rule)
    ensures Holds(env, rule, Added(map[], Pairs(env, rule, 0)))
  {
    var pairs := Pairs(env, rule, 0);
    PairsAre(env, rule, 0);
    AddedFinds(map[], pairs);
    PairsHoldAll(env, rule, pairs, Added(map[], pairs));
  }

  lemma {:induction false} RuleTextSplits(env: Env, rule: RepeatRule)
    requires ValidEnv(env) && Writable(rule)
    ensures ReadParts(env, Split(RuleOf(env, rule), ';'), map[]) == Some(Added(map[], Pairs(env, rule, 0)))
  {
    var pairs := Pairs(env, rule, 0);
    PairsAre(env, rule, 0);
    TextsSplit(pairs);
    PairsRead(env, pairs, map[]);
  }

  /** What is written is read back: every rule that is understood and can be written is its own reading. */
  lemma RuleReadsBack(env: Env, rule: RepeatRule)
    requires ValidEnv(env) && Understood(rule) && Writable(rule)
    ensures Parsed(env, RuleOf(env, rule)) == Some(rule)
  {
    var parts := Added(map[], Pairs(env, rule, 0));
    RuleTextSplits(env, rule);
    PairsHold(env, rule);
    KeysOfARule(env, rule, parts);
    IntervalOfARule(env, rule, parts);
    CountOfARule(env, rule, parts);
    UntilOfARule(env, rule, parts);
    WeekdaysOfARule(env, rule, parts);
  }

  // --- What is asked of the environment can be had ---------------------------------------------------

  /** Capitals of the letters from a to z; all that is asked of the others is to stay as they are in plain text. */
  function UpperOf(c: char): char {
    if 'a' <= c <= 'z' then (c as int - 32) as char else c
  }

  function Upper(s: string): (upper: string)
    ensures |upper| == |s| && forall i :: 0 <= i < |s| ==> upper[i] == UpperOf(s[i])
  {
    seq(|s|, i requires 0 <= i < |s| => UpperOf(s[i]))
  }

  lemma UpperIsPlain(s: string)
    ensures Plain(s) ==> Upper(s) == s
    ensures Upper(Upper(s)) == Upper(s)
  {
    if Plain(s) {
      assert forall i :: 0 <= i < |s| ==> IsPlain(s[i]);
    }
  }

  /** An environment, in which `freq` is another way to write FREQ. */
  lemma EnvironmentExists(off: Offsets)
    requires GermanZone(off)
    ensures ValidEnv(Env(off, Upper, s => Some(Signed(s)))) && Upper("freq") == "FREQ"
  {
    forall n ensures Some(Signed(Decimal(n))) == Some(n) {
      DecimalReadsBack(n);
    }
    forall s | Plain(s) ensures Upper(s) == s {
      UpperIsPlain(s);
    }
  }
}
