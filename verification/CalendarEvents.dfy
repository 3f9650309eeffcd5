/** The lines of a calendar: what it says of itself, the German zone, and the appointments in it. */
module CalendarEvents {
  import opened Wrappers
  import opened Calendar
  import opened BerlinTime
  import opened Rounding
  import opened RepeatRules
  import Series
  import opened Text
  import opened CalendarFeed
  import CalendarText

  datatype CalendarEntry = CalendarEntry(
    uid: string,
    revision: int,
    createdAt: Moment,
    changedAt: Moment,
    startsAt: Moment,
    endsAt: Moment,
    rrule: Option<string>,
    exdates: seq<Day>,
    title: string,
    place: Option<string>,
    description: Option<string>,
    url: Option<string>
  )

  const SUMMER_OFFSETS: seq<string> := ["BEGIN:DAYLIGHT", "TZOFFSETFROM:+0100", "TZOFFSETTO:+0200", "TZNAME:CEST"]
  const SUMMER_RULE: seq<string> := ["DTSTART:19700329T020000", "RRULE:FREQ=YEARLY;BYMONTH=3;BYDAY=-1SU", "END:DAYLIGHT"]

  const WINTER_OFFSETS: seq<string> := ["BEGIN:STANDARD", "TZOFFSETFROM:+0200", "TZOFFSETTO:+0100", "TZNAME:CET"]
  const WINTER_RULE: seq<string> := ["DTSTART:19701025T030000", "RRULE:FREQ=YEARLY;BYMONTH=10;BYDAY=-1SU", "END:STANDARD"]

  const ZONE := "Europe/Berlin"
  const REFRESH_EVERY := "PT15M"

  const ZONE_NAME: seq<string> := ["BEGIN:VTIMEZONE", "TZID:" + ZONE, "X-LIC-LOCATION:" + ZONE]

  function BerlinZone(): seq<string> {
    ZONE_NAME + (SUMMER_OFFSETS + SUMMER_RULE) + (WINTER_OFFSETS + WINTER_RULE) + ["END:VTIMEZONE"]
  }

  // --- What is written ------------------------------------------------------------------------------

  /** Days and moments with a year of four digits, the only ones a stamp can hold. */
  predicate HasStamp(on: Day) {
    0 <= YearOf(on) < 10_000
  }

  predicate HasUtcStamp(at: Moment) {
    HasStamp(at / (DAY_MINUTES * MINUTE))
  }

  function DayStamp(on: Day): string
    requires HasStamp(on)
  {
    FourDigits(YearOf(on)) + TwoDigits(MonthOf(on) % 12 + 1) + TwoDigits(DayOfMonth(on))
  }

  function WallStamp(minute: int): string
    requires 0 <= minute < DAY_MINUTES
  {
    TwoDigits(minute / 60) + TwoDigits(minute % 60) + "00"
  }

  function BerlinStamp(off: Offsets, at: Moment): string
    requires HasStamp(BerlinClock(off, at).day)
  {
    DayStamp(BerlinClock(off, at).day) + "T" + WallStamp(BerlinClock(off, at).minute)
  }

  /** What an entry brings along: a name and a rule on one line, and times that can be written. */
  ghost predicate CanBeWritten(off: Offsets, entry: CalendarEntry) {
    && OneLine(entry.uid) && (entry.rrule.Some? ==> OneLine(entry.rrule.value))
    && HasUtcStamp(entry.createdAt) && HasUtcStamp(entry.changedAt)
    && HasStamp(BerlinClock(off, entry.startsAt).day) && HasStamp(BerlinClock(off, entry.endsAt).day)
    && forall i :: 0 <= i < |entry.exdates| ==> HasStamp(entry.exdates[i])
  }

  /** `value.replace(/[\r\n]/g, '')` */
  function WithoutBreaks(value: string): (line: string)
    ensures OneLine(line)
  {
    if value == "" then ""
    else (if value[0] == '\r' || value[0] == '\n' then "" else [value[0]]) + WithoutBreaks(value[1..])
  }

  /** Of a text with its line breaks left out each part is what is left of that part. */
  lemma {:induction false} BreaksAreLeftOut(a: string, b: string)
    ensures WithoutBreaks(a + b) == WithoutBreaks(a) + WithoutBreaks(b)
  {
    if a == "" {
      assert a + b == b;
    } else {
      assert (a + b)[1..] == a[1..] + b;
      BreaksAreLeftOut(a[1..], b);
    }
  }

  lemma {:induction false} BreakOfOne(c: char)
    ensures WithoutBreaks([c]) == if c == '\r' || c == '\n' then "" else [c]
  {
    assert [c][1..] == "";
  }

  /** A property with the zone named before its value. */
  function InZone(begin: string): string {
    begin + ZONE + ":"
  }

  function Line(begin: string, value: Option<string>): seq<string> {
    if value.Some? then [begin + value.value] else []
  }

  function Escaped(value: Option<string>): Option<string> {
    if value.Some? then Some(CalendarText.CalendarText(value.value)) else None
  }

  function ExceptionStamps(exdates: seq<Day>, clock: string): seq<string>
    requires forall i :: 0 <= i < |exdates| ==> HasStamp(exdates[i])
  {
    if exdates == [] then []
    else ExceptionStamps(exdates[..|exdates| - 1], clock) + [DayStamp(exdates[|exdates| - 1]) + "T" + clock]
  }

  /** Who, which version, and when: the lines every event has. */
  function HeadLines(off: Offsets, entry: CalendarEntry): seq<string>
    requires CanBeWritten(off, entry)
  {
    [
      "BEGIN:VEVENT",
      "UID:" + (entry.uid + "@opengewerk"),
      "SEQUENCE:" + Decimal(if entry.revision > 1 then entry.revision - 1 else 0),
      "DTSTAMP:" + UtcStamp(entry.changedAt),
      "CREATED:" + UtcStamp(entry.createdAt),
      "LAST-MODIFIED:" + UtcStamp(entry.changedAt),
      InZone("DTSTART;TZID=") + BerlinStamp(off, entry.startsAt),
      InZone("DTEND;TZID=") + BerlinStamp(off, entry.endsAt)
    ]
  }

  /** The rule of a series, and the days taken out of it at the time it begins. */
  function RuleLines(off: Offsets, entry: CalendarEntry): seq<string>
    requires CanBeWritten(off, entry)
  {
    var stamps := ExceptionStamps(entry.exdates, WallStamp(BerlinClock(off, entry.startsAt).minute));
    Line("RRULE:", entry.rrule)
    + Line(InZone("EXDATE;TZID="), if entry.rrule.Some? && entry.exdates != [] then Some(Join(stamps, ",")) else None)
  }

  /** What the event says in words. */
  function WordLines(entry: CalendarEntry): seq<string> {
    Line("SUMMARY:", Escaped(Some(entry.title))) + Line("LOCATION:", Escaped(entry.place))
    + Line("DESCRIPTION:", Escaped(entry.description))
    + Line("URL:", if entry.url.Some? then Some(WithoutBreaks(entry.url.value)) else None)
  }

  function EventLines(off: Offsets, entry: CalendarEntry): seq<string>
    requires CanBeWritten(off, entry)
  {
    HeadLines(off, entry) + RuleLines(off, entry) + WordLines(entry) + ["END:VEVENT"]
  }

  method RuleOfEvent(off: Offsets, entry: CalendarEntry) returns (lines: seq<string>)
    requires CanBeWritten(off, entry)
    ensures lines == RuleLines(off, entry)
  {
    lines := [];
    if entry.rrule.Some? {
      lines := lines + ["RRULE:" + entry.rrule.value];
      if |entry.exdates| > 0 {
        var stamps := ExceptionStamps(entry.exdates, WallStamp(BerlinClock(off, entry.startsAt).minute));
        lines := lines + [InZone("EXDATE;TZID=") + Join(stamps, ",")];
      }
    }
  }

  method WordsOfEvent(entry: CalendarEntry) returns (lines: seq<string>)
    ensures lines == WordLines(entry)
  {
    lines := ["SUMMARY:" + CalendarText.CalendarText(entry.title)];
    if entry.place.Some? {
      lines := lines + ["LOCATION:" + CalendarText.CalendarText(entry.place.value)];
    }
    if entry.description.Some? {
      lines := lines + ["DESCRIPTION:" + CalendarText.CalendarText(entry.description.value)];
    }
    if entry.url.Some? {
      lines := lines + ["URL:" + WithoutBreaks(entry.url.value)];
    }
  }

  method EventOf(off: Offsets, entry: CalendarEntry) returns (lines: seq<string>)
    requires CanBeWritten(off, entry)
    ensures lines == EventLines(off, entry)
  {
    var rule := RuleOfEvent(off, entry);
    var words := WordsOfEvent(entry);
    lines := HeadLines(off, entry) + rule + words + ["END:VEVENT"];
  }

  // --- What a reader makes of the times --------------------------------------------------------------

  /** The digits of a local time, `YYYYMMDDTHHMMSS` (section 3.3.5 of RFC 5545). */
  ghost predicate Names(stamp: string, on: Day, minute: int) {
    && |stamp| == 15 && stamp[8] == 'T'
    && NumberOf(stamp[..4]) == YearOf(on)
    && NumberOf(stamp[4..6]) == MonthOf(on) % 12 + 1
    && NumberOf(stamp[6..8]) == DayOfMonth(on)
    && NumberOf(stamp[9..11]) * 60 + NumberOf(stamp[11..13]) == minute && NumberOf(stamp[11..13]) < 60
    && stamp[13..] == "00"
  }

  lemma StampParts(a: string, b: string, c: string, d: string, e: string)
    requires |a| == 4 && |b| == 2 && |c| == 2 && |d| == 2 && |e| == 2
    ensures var s := a + b + c + "T" + (d + e + "00");
      && |s| == 15 && s[8] == 'T' && s[..4] == a && s[4..6] == b && s[6..8] == c
      && s[9..11] == d && s[11..13] == e && s[13..] == "00"
  {}

  lemma LocalTimeReadsBack(on: Day, minute: int)
    requires HasStamp(on) && 0 <= minute < DAY_MINUTES
    ensures Names(DayStamp(on) + "T" + WallStamp(minute), on, minute)
  {
    StampParts(FourDigits(YearOf(on)), TwoDigits(MonthOf(on) % 12 + 1), TwoDigits(DayOfMonth(on)),
               TwoDigits(minute / 60), TwoDigits(minute % 60));
    DigitsReadBack(YearOf(on));
    DigitsReadBack(MonthOf(on) % 12 + 1);
    DigitsReadBack(DayOfMonth(on));
    DigitsReadBack(minute / 60);
    DigitsReadBack(minute % 60);
  }

  lemma OneOfEight(a: string, b: string, c: string, d: string, e: string, f: string, g: string, h: string, rest: seq<string>)
    ensures var lines := [a, b, c, d, e, f, g, h] + rest;
      lines[1] == b && lines[2] == c && lines[3] == d && lines[4] == e && lines[5] == f && lines[6] == g && lines[7] == h
  {}

  lemma ZoneInFull()
    ensures InZone("DTSTART;TZID=") == "DTSTART;TZID=Europe/Berlin:"
    ensures InZone("DTEND;TZID=") == "DTEND;TZID=Europe/Berlin:"
    ensures InZone("EXDATE;TZID=") == "EXDATE;TZID=Europe/Berlin:"
  {}

  /** An event begins and ends, read off its lines, when the clock in Germany shows the start and the end of the entry. */
  lemma EventSaysWhen(off: Offsets, entry: CalendarEntry) returns (start: string, end: string)
    requires CanBeWritten(off, entry)
    ensures |EventLines(off, entry)| > 7
    ensures EventLines(off, entry)[6] == "DTSTART;TZID=Europe/Berlin:" + start
    ensures EventLines(off, entry)[7] == "DTEND;TZID=Europe/Berlin:" + end
    ensures Names(start, BerlinClock(off, entry.startsAt).day, BerlinClock(off, entry.startsAt).minute)
    ensures Names(end, BerlinClock(off, entry.endsAt).day, BerlinClock(off, entry.endsAt).minute)
  {
    start, end := BerlinStamp(off, entry.startsAt), BerlinStamp(off, entry.endsAt);
    LocalTimeReadsBack(BerlinClock(off, entry.startsAt).day, BerlinClock(off, entry.startsAt).minute);
    LocalTimeReadsBack(BerlinClock(off, entry.endsAt).day, BerlinClock(off, entry.endsAt).minute);
    TimesOfEvent(off, entry);
    ZoneInFull();
  }

  lemma HeadFirst(a: seq<string>, b: seq<string>, c: seq<string>, d: seq<string>)
    ensures a + b + c + d == a + (b + c + d)
  {}

  lemma TimesOfEvent(off: Offsets, entry: CalendarEntry)
    requires CanBeWritten(off, entry)
    ensures var lines := EventLines(off, entry);
      && |lines| > 7
      && lines[1] == "UID:" + (entry.uid + "@opengewerk")
      && lines[2] == "SEQUENCE:" + Decimal(if entry.revision > 1 then entry.revision - 1 else 0)
      && lines[3] == "DTSTAMP:" + UtcStamp(entry.changedAt) && lines[4] == "CREATED:" + UtcStamp(entry.createdAt)
      && lines[5] == "LAST-MODIFIED:" + UtcStamp(entry.changedAt)
      && lines[6] == InZone("DTSTART;TZID=") + BerlinStamp(off, entry.startsAt)
      && lines[7] == InZone("DTEND;TZID=") + BerlinStamp(off, entry.endsAt)
  {
    var rest := RuleLines(off, entry) + WordLines(entry) + ["END:VEVENT"];
    HeadFirst(HeadLines(off, entry), RuleLines(off, entry), WordLines(entry), ["END:VEVENT"]);
    OneOfEight("BEGIN:VEVENT", "UID:" + (entry.uid + "@opengewerk"),
               "SEQUENCE:" + Decimal(if entry.revision > 1 then entry.revision - 1 else 0),
               "DTSTAMP:" + UtcStamp(entry.changedAt), "CREATED:" + UtcStamp(entry.createdAt),
               "LAST-MODIFIED:" + UtcStamp(entry.changedAt), InZone("DTSTART;TZID=") + BerlinStamp(off, entry.startsAt),
               InZone("DTEND;TZID=") + BerlinStamp(off, entry.endsAt), rest);
  }

  /** The version an event has, counted from 0. */
  lemma EventSaysHowOftenItChanged(off: Offsets, entry: CalendarEntry) returns (sequence: string)
    requires CanBeWritten(off, entry)
    ensures |EventLines(off, entry)| > 7
    ensures EventLines(off, entry)[1] == "UID:" + entry.uid + "@opengewerk"
    ensures EventLines(off, entry)[2] == "SEQUENCE:" + sequence
    ensures Signed(sequence) == if entry.revision <= 0 then 0 else entry.revision - 1
  {
    sequence := Decimal(if entry.revision > 1 then entry.revision - 1 else 0);
    TimesOfEvent(off, entry);
    DecimalReadsBack(if entry.revision > 1 then entry.revision - 1 else 0);
    assert "UID:" + (entry.uid + "@opengewerk") == "UID:" + entry.uid + "@opengewerk";
  }

  /** From the year 100 on the stamps in UTC read back as the seconds they were taken from. */
  lemma EventSaysWhichVersion(off: Offsets, entry: CalendarEntry) returns (changed: string, created: string)
    requires CanBeWritten(off, entry)
    requires YearStart(100) <= entry.createdAt / 86_400_000 && YearStart(100) <= entry.changedAt / 86_400_000
    ensures |EventLines(off, entry)| > 7 && |changed| == |created| == 16
    ensures EventLines(off, entry)[3] == "DTSTAMP:" + changed && EventLines(off, entry)[5] == "LAST-MODIFIED:" + changed
    ensures EventLines(off, entry)[4] == "CREATED:" + created
    ensures StampMoment(changed) == entry.changedAt - entry.changedAt % 1000
    ensures StampMoment(created) == entry.createdAt - entry.createdAt % 1000
  {
    changed, created := UtcStamp(entry.changedAt), UtcStamp(entry.createdAt);
    TimesOfEvent(off, entry);
    StampIsItsSecond(entry.changedAt);
    StampIsItsSecond(entry.createdAt);
  }

  lemma StampIsItsSecond(at: Moment)
    requires HasUtcStamp(at) && YearStart(100) <= at / 86_400_000
    ensures |UtcStamp(at)| == 16 && StampMoment(UtcStamp(at)) == at - at % 1000
  {
    var day := at / 86_400_000;
    BeforeAMonth(day, 1200);
    StampIsTheSecond(at);
    SecondsOfDay(at, day, at % 86_400_000);
  }

  lemma SecondsOfDay(at: int, day: int, rest: int)
    requires at == 86_400_000 * day + rest
    ensures rest % 1000 == at % 1000
  {
    DivisionIs(1000, 86_400 * day + rest / 1000, rest % 1000);
  }

  ghost predicate AllName(stamps: seq<string>, exdates: seq<Day>, minute: int) {
    |stamps| == |exdates| && forall i :: 0 <= i < |stamps| ==> Names(stamps[i], exdates[i], minute) && ',' !in stamps[i]
  }

  lemma OneMoreNamed(stamps: seq<string>, exdates: seq<Day>, minute: int, stamp: string)
    requires exdates != [] && AllName(stamps, exdates[..|exdates| - 1], minute)
    requires Names(stamp, exdates[|exdates| - 1], minute) && ',' !in stamp
    ensures AllName(stamps + [stamp], exdates, minute)
  {
    forall i | 0 <= i < |stamps| ensures exdates[i] == exdates[..|exdates| - 1][i] {}
  }

  lemma {:induction false} ExceptionsName(exdates: seq<Day>, minute: int)
    requires (forall i :: 0 <= i < |exdates| ==> HasStamp(exdates[i])) && 0 <= minute < DAY_MINUTES
    ensures AllName(ExceptionStamps(exdates, WallStamp(minute)), exdates, minute)
  {
    if exdates != [] {
      var last, front := exdates[|exdates| - 1], exdates[..|exdates| - 1];
      ExceptionsName(front, minute);
      LocalTimeReadsBack(last, minute);
      NoComma(DayStamp(last), WallStamp(minute));
      OneMoreNamed(ExceptionStamps(front, WallStamp(minute)), exdates, minute, DayStamp(last) + "T" + WallStamp(minute));
    }
  }

  lemma NoComma(date: string, clock: string)
    requires (forall c :: c in date ==> Text.IsDigit(c)) && forall c :: c in clock ==> Text.IsDigit(c)
    ensures ',' !in date + "T" + clock
  {}

  /** Each day taken out of a series reads back in its place, at the time of day the series begins. */
  lemma {:induction false} EventSaysWhichDaysAreOut(off: Offsets, entry: CalendarEntry) returns (out: string)
    requires CanBeWritten(off, entry) && entry.rrule.Some? && entry.exdates != []
    ensures RuleLines(off, entry) == ["RRULE:" + entry.rrule.value, "EXDATE;TZID=Europe/Berlin:" + out]
    ensures |Split(out, ',')| == |entry.exdates|
    ensures forall i :: 0 <= i < |entry.exdates| ==>
      Names(Split(out, ',')[i], entry.exdates[i], BerlinClock(off, entry.startsAt).minute)
  {
    var minute := BerlinClock(off, entry.startsAt).minute;
    var stamps := ExceptionStamps(entry.exdates, WallStamp(minute));
    out := Join(stamps, ",");
    ExceptionsName(entry.exdates, minute);
    SplitUndoesJoin(stamps, ',');
    ZoneInFull();
  }

  // --- Every line is a content line -----------------------------------------------------------------

  ghost predicate AllContent(lines: seq<string>) {
    lines == [] || (AllContent(lines[..|lines| - 1]) && ContentLine(lines[|lines| - 1]))
  }

  lemma {:induction false} EachIsContent(lines: seq<string>)
    ensures AllContent(lines) <==> forall i :: 0 <= i < |lines| ==> ContentLine(lines[i])
  {
    if lines != [] {
      EachIsContent(lines[..|lines| - 1]);
    }
  }

  lemma {:induction false} ContentOfBoth(a: seq<string>, b: seq<string>)
    requires AllContent(a) && AllContent(b)
    ensures AllContent(a + b)
  {
    EachIsContent(a);
    EachIsContent(b);
    EachIsContent(a + b);
  }

  predicate BeginsALine(begin: string) {
    OneLine(begin) && begin != "" && begin[0] != ' '
  }

  lemma OneLineOfBoth(a: string, b: string)
    requires OneLine(a) && OneLine(b)
    ensures OneLine(a + b)
  {}

  lemma NamedLine(begin: string, value: string)
    requires BeginsALine(begin) && OneLine(value)
    ensures ContentLine(begin + value)
  {
    OneLineOfBoth(begin, value);
  }

  lemma LineIsContent(begin: string, value: Option<string>)
    requires BeginsALine(begin) && (value.Some? ==> OneLine(value.value))
    ensures AllContent(Line(begin, value))
  {
    if value.Some? {
      NamedLine(begin, value.value);
      OneContent(begin + value.value);
    }
  }

  lemma {:induction false} ContentOfAll(a: seq<string>, b: seq<string>, c: seq<string>, d: string)
    requires AllContent(a) && AllContent(b) && AllContent(c) && ContentLine(d)
    ensures AllContent(a + b + c + [d])
  {
    OneContent(d);
    ContentOfBoth(a, b);
    ContentOfBoth(a + b, c);
    ContentOfBoth(a + b + c, [d]);
  }

  lemma {:induction false} OneContent(line: string)
    requires ContentLine(line)
    ensures AllContent([line])
  {
    assert [line][..0] == [];
  }

  lemma PlainIsOneLine(text: string)
    requires Plain(text)
    ensures OneLine(text)
  {
    assert !IsPlain('\r') && !IsPlain('\n');
  }

  lemma DigitsAreOneLine(text: string)
    requires forall c :: c in text ==> Text.IsDigit(c)
    ensures OneLine(text)
  {}

  lemma DayStampIsOneLine(on: Day)
    requires HasStamp(on)
    ensures OneLine(DayStamp(on))
  {
    DigitsAreOneLine(DayStamp(on));
  }

  lemma WallStampIsOneLine(minute: int)
    requires 0 <= minute < DAY_MINUTES
    ensures OneLine(WallStamp(minute))
  {
    DigitsAreOneLine(WallStamp(minute));
  }

  lemma BerlinStampIsOneLine(off: Offsets, at: Moment)
    requires HasStamp(BerlinClock(off, at).day)
    ensures OneLine(BerlinStamp(off, at))
  {
    DayStampIsOneLine(BerlinClock(off, at).day);
    WallStampIsOneLine(BerlinClock(off, at).minute);
    OneLineOfBoth(DayStamp(BerlinClock(off, at).day) + "T", WallStamp(BerlinClock(off, at).minute));
  }

  lemma UtcStampIsOneLine(at: Moment)
    requires HasUtcStamp(at)
    ensures OneLine(UtcStamp(at))
  {
    var day, second := at / (DAY_MINUTES * MINUTE), SecondOfDay(at);
    StampIsPlain(
      FourDigits(YearOf(day)), TwoDigits(MonthOf(day) % 12 + 1), TwoDigits(DayOfMonth(day)),
      TwoDigits(second / 3600), TwoDigits(second / 60 % 60), TwoDigits(second % 60));
    PlainIsOneLine(UtcStamp(at));
  }

  lemma ExceptionIsOneLine(on: Day, clock: string)
    requires HasStamp(on) && OneLine(clock)
    ensures OneLine(DayStamp(on) + "T" + clock)
  {
    DayStampIsOneLine(on);
    OneLineOfBoth(DayStamp(on) + "T", clock);
  }

  lemma {:induction false} StampsAreOneLine(exdates: seq<Day>, clock: string)
    requires (forall i :: 0 <= i < |exdates| ==> HasStamp(exdates[i])) && OneLine(clock)
    ensures forall i :: 0 <= i < |ExceptionStamps(exdates, clock)| ==> OneLine(ExceptionStamps(exdates, clock)[i])
  {
    if exdates != [] {
      StampsAreOneLine(exdates[..|exdates| - 1], clock);
      ExceptionIsOneLine(exdates[|exdates| - 1], clock);
    }
  }

  lemma {:induction false} JoinIsOneLine(parts: seq<string>, sep: string)
    requires OneLine(sep) && forall i :: 0 <= i < |parts| ==> OneLine(parts[i])
    ensures OneLine(Join(parts, sep))
  {
    if |parts| > 1 {
      var front := Join(parts[..|parts| - 1], sep);
      JoinIsOneLine(parts[..|parts| - 1], sep);
      OneLineOfBoth(front, sep);
      OneLineOfBoth(front + sep, parts[|parts| - 1]);
    }
  }

  lemma NamesOfTheHead()
    ensures BeginsALine("UID:") && BeginsALine("SEQUENCE:") && BeginsALine("DTSTAMP:") && BeginsALine("CREATED:")
  {}

  lemma InZoneBegins(begin: string)
    requires BeginsALine(begin)
    ensures BeginsALine(InZone(begin))
  {
    assert OneLine(ZONE);
    OneLineOfBoth(begin, ZONE);
    OneLineOfBoth(begin + ZONE, ":");
  }

  lemma NamesOfTheTimes()
    ensures BeginsALine("LAST-MODIFIED:") && BeginsALine(InZone("DTSTART;TZID=")) && BeginsALine(InZone("DTEND;TZID="))
  {
    InZoneBegins("DTSTART;TZID=");
    InZoneBegins("DTEND;TZID=");
  }

  lemma NamesOfTheRule()
    ensures BeginsALine("RRULE:") && BeginsALine(InZone("EXDATE;TZID="))
  {
    InZoneBegins("EXDATE;TZID=");
  }

  lemma VersionIsContent(entry: CalendarEntry)
    requires OneLine(entry.uid)
    ensures ContentLine("UID:" + (entry.uid + "@opengewerk"))
    ensures ContentLine("SEQUENCE:" + Decimal(if entry.revision > 1 then entry.revision - 1 else 0))
  {
    NamesOfTheHead();
    OneLineOfBoth(entry.uid, "@opengewerk");
    NamedLine("UID:", entry.uid + "@opengewerk");
    var sequence := Decimal(if entry.revision > 1 then entry.revision - 1 else 0);
    PlainIsOneLine(sequence);
    NamedLine("SEQUENCE:", sequence);
  }

  lemma TimesAreContent(off: Offsets, entry: CalendarEntry, changed: string, created: string, start: string, end: string)
    requires OneLine(changed) && OneLine(created) && OneLine(start) && OneLine(end)
    ensures ContentLine("DTSTAMP:" + changed) && ContentLine("CREATED:" + created) && ContentLine("LAST-MODIFIED:" + changed)
    ensures ContentLine(InZone("DTSTART;TZID=") + start) && ContentLine(InZone("DTEND;TZID=") + end)
  {
    NamesOfTheHead();
    NamesOfTheTimes();
    NamedLine("DTSTAMP:", changed);
    NamedLine("CREATED:", created);
    NamedLine("LAST-MODIFIED:", changed);
    NamedLine(InZone("DTSTART;TZID="), start);
    NamedLine(InZone("DTEND;TZID="), end);
  }

  lemma EightLines(a: string, b: string, c: string, d: string, e: string, f: string, g: string, h: string)
    requires ContentLine(a) && ContentLine(b) && ContentLine(c) && ContentLine(d)
    requires ContentLine(e) && ContentLine(f) && ContentLine(g) && ContentLine(h)
    ensures AllContent([a, b, c, d, e, f, g, h])
  {
    EachIsContent([a, b, c, d, e, f, g, h]);
  }

  lemma HeadIsContent(off: Offsets, entry: CalendarEntry)
    requires CanBeWritten(off, entry)
    ensures AllContent(HeadLines(off, entry))
  {
    var changed, created := UtcStamp(entry.changedAt), UtcStamp(entry.createdAt);
    var start, end := BerlinStamp(off, entry.startsAt), BerlinStamp(off, entry.endsAt);
    UtcStampIsOneLine(entry.changedAt);
    UtcStampIsOneLine(entry.createdAt);
    BerlinStampIsOneLine(off, entry.startsAt);
    BerlinStampIsOneLine(off, entry.endsAt);
    VersionIsContent(entry);
    TimesAreContent(off, entry, changed, created, start, end);
    EightLines("BEGIN:VEVENT", "UID:" + (entry.uid + "@opengewerk"),
               "SEQUENCE:" + Decimal(if entry.revision > 1 then entry.revision - 1 else 0),
               "DTSTAMP:" + changed, "CREATED:" + created, "LAST-MODIFIED:" + changed,
               InZone("DTSTART;TZID=") + start, InZone("DTEND;TZID=") + end);
  }

  lemma ExceptionsAreOneLine(off: Offsets, entry: CalendarEntry)
    requires CanBeWritten(off, entry)
    ensures OneLine(Join(ExceptionStamps(entry.exdates, WallStamp(BerlinClock(off, entry.startsAt).minute)), ","))
  {
    var clock := WallStamp(BerlinClock(off, entry.startsAt).minute);
    WallStampIsOneLine(BerlinClock(off, entry.startsAt).minute);
    StampsAreOneLine(entry.exdates, clock);
    JoinIsOneLine(ExceptionStamps(entry.exdates, clock), ",");
  }

  lemma RuleIsContent(off: Offsets, entry: CalendarEntry)
    requires CanBeWritten(off, entry)
    ensures AllContent(RuleLines(off, entry))
  {
    var stamps := Join(ExceptionStamps(entry.exdates, WallStamp(BerlinClock(off, entry.startsAt).minute)), ",");
    ExceptionsAreOneLine(off, entry);
    NamesOfTheRule();
    LineIsContent("RRULE:", entry.rrule);
    var exceptions := if entry.rrule.Some? && entry.exdates != [] then Some(stamps) else None;
    LineIsContent(InZone("EXDATE;TZID="), exceptions);
    ContentOfBoth(Line("RRULE:", entry.rrule), Line(InZone("EXDATE;TZID="), exceptions));
  }

  lemma EscapedIsOneLine(value: Option<string>)
    ensures Escaped(value).Some? ==> OneLine(Escaped(value).value)
  {
    if value.Some? {
      CalendarText.TextReadsBack(value.value);
    }
  }

  lemma WordsAreContent(entry: CalendarEntry)
    ensures AllContent(WordLines(entry))
  {
    EscapedIsOneLine(Some(entry.title));
    EscapedIsOneLine(entry.place);
    EscapedIsOneLine(entry.description);
    LineIsContent("SUMMARY:", Escaped(Some(entry.title)));
    LineIsContent("LOCATION:", Escaped(entry.place));
    LineIsContent("DESCRIPTION:", Escaped(entry.description));
    var url := if entry.url.Some? then Some(WithoutBreaks(entry.url.value)) else None;
    LineIsContent("URL:", url);
    ContentOfBoth(Line("SUMMARY:", Escaped(Some(entry.title))), Line("LOCATION:", Escaped(entry.place)));
    ContentOfBoth(Line("SUMMARY:", Escaped(Some(entry.title))) + Line("LOCATION:", Escaped(entry.place)),
                  Line("DESCRIPTION:", Escaped(entry.description)));
    ContentOfBoth(Line("SUMMARY:", Escaped(Some(entry.title))) + Line("LOCATION:", Escaped(entry.place))
                  + Line("DESCRIPTION:", Escaped(entry.description)), Line("URL:", url));
  }

  /** Whatever was typed into an appointment, each of its lines stays one content line. */
  lemma EventIsContent(off: Offsets, entry: CalendarEntry)
    requires CanBeWritten(off, entry)
    ensures AllContent(EventLines(off, entry))
  {
    HeadIsContent(off, entry);
    RuleIsContent(off, entry);
    WordsAreContent(entry);
    ContentOfAll(HeadLines(off, entry), RuleLines(off, entry), WordLines(entry), "END:VEVENT");
  }

  /** The rule a series is stored with is on one line: it is always one that was written from a rule. */
  lemma {:induction false} WrittenRuleIsOneLine(env: Env, rule: Series.RepeatRule)
    requires ValidEnv(env) && Writable(rule)
    ensures OneLine(RuleOf(env, rule))
  {
    var pairs := Pairs(env, rule, 0);
    PairsAre(env, rule, 0);
    PairsAreOneLine(pairs);
    JoinIsOneLine(Texts(pairs), ";");
  }

  lemma {:induction false} PairsAreOneLine(pairs: seq<(string, string)>)
    requires PlainPairs(pairs)
    ensures forall i :: 0 <= i < |Texts(pairs)| ==> OneLine(Texts(pairs)[i])
  {
    if pairs != [] {
      PairsAreOneLine(pairs[1..]);
      PlainIsOneLine(pairs[0].0);
      PlainIsOneLine(pairs[0].1);
    }
  }

  // --- The file -------------------------------------------------------------------------------------

  function PreambleHead(name: string): seq<string> {
    [
      "BEGIN:VCALENDAR",
      "VERSION:2.0",
      "PRODID:-//OpenGewerk//Plantafel//DE",
      "CALSCALE:GREGORIAN",
      "METHOD:PUBLISH",
      "NAME:" + CalendarText.CalendarText(name),
      "X-WR-CALNAME:" + CalendarText.CalendarText(name),
      "X-WR-TIMEZONE:" + ZONE
    ]
  }

  function Refresh(): seq<string> {
    ["REFRESH-INTERVAL;VALUE=DURATION:" + REFRESH_EVERY] + ["X-PUBLISHED-TTL:" + REFRESH_EVERY]
  }

  function Preamble(name: string): seq<string> {
    PreambleHead(name) + Refresh()
  }

  ghost predicate AllCanBeWritten(off: Offsets, entries: seq<CalendarEntry>) {
    forall i :: 0 <= i < |entries| ==> CanBeWritten(off, entries[i])
  }

  function AllEvents(off: Offsets, entries: seq<CalendarEntry>): seq<string>
    requires AllCanBeWritten(off, entries)
  {
    if entries == [] then []
    else AllEvents(off, entries[..|entries| - 1]) + EventLines(off, entries[|entries| - 1])
  }

  function CalendarLines(off: Offsets, name: string, entries: seq<CalendarEntry>): seq<string>
    requires AllCanBeWritten(off, entries)
  {
    Preamble(name) + BerlinZone() + AllEvents(off, entries) + ["END:VCALENDAR"]
  }

  lemma ConstantsBefore()
    ensures ContentLine("BEGIN:VCALENDAR") && ContentLine("VERSION:2.0") && ContentLine("CALSCALE:GREGORIAN")
  {}

  lemma ConstantsBetween()
    ensures ContentLine("PRODID:-//OpenGewerk//Plantafel//DE") && ContentLine("METHOD:PUBLISH")
  {}

  lemma ZoneOfTheCalendar()
    ensures ContentLine("X-WR-TIMEZONE:" + ZONE)
  {
    NamedLine("X-WR-TIMEZONE:", ZONE);
  }

  lemma RefreshIsContent()
    ensures AllContent(["REFRESH-INTERVAL;VALUE=DURATION:" + REFRESH_EVERY])
  {
    NamedLine("REFRESH-INTERVAL;VALUE=DURATION:", REFRESH_EVERY);
    OneContent("REFRESH-INTERVAL;VALUE=DURATION:" + REFRESH_EVERY);
  }

  lemma LifeIsContent()
    ensures AllContent(["X-PUBLISHED-TTL:" + REFRESH_EVERY])
  {
    NamedLine("X-PUBLISHED-TTL:", REFRESH_EVERY);
    OneContent("X-PUBLISHED-TTL:" + REFRESH_EVERY);
  }

  lemma PreambleIsContent(name: string)
    ensures AllContent(Preamble(name))
  {
    var text := CalendarText.CalendarText(name);
    CalendarText.TextReadsBack(name);
    NamedLine("NAME:", text);
    NamedLine("X-WR-CALNAME:", text);
    ConstantsBefore();
    ConstantsBetween();
    ZoneOfTheCalendar();
    RefreshIsContent();
    LifeIsContent();
    EightLines("BEGIN:VCALENDAR", "VERSION:2.0", "PRODID:-//OpenGewerk//Plantafel//DE", "CALSCALE:GREGORIAN", "METHOD:PUBLISH",
               "NAME:" + text, "X-WR-CALNAME:" + text, "X-WR-TIMEZONE:" + ZONE);
    ContentOfBoth(["REFRESH-INTERVAL;VALUE=DURATION:" + REFRESH_EVERY], ["X-PUBLISHED-TTL:" + REFRESH_EVERY]);
    ContentOfBoth(PreambleHead(name), Refresh());
  }

  lemma SummerOffsets()
    ensures AllContent(SUMMER_OFFSETS)
  {
    EachIsContent(SUMMER_OFFSETS);
  }

  lemma SummerRule()
    ensures AllContent(SUMMER_RULE)
  {
    EachIsContent(SUMMER_RULE);
  }

  lemma WinterOffsets()
    ensures AllContent(WINTER_OFFSETS)
  {
    EachIsContent(WINTER_OFFSETS);
  }

  lemma WinterRule()
    ensures AllContent(WINTER_RULE)
  {
    EachIsContent(WINTER_RULE);
  }

  lemma ZoneNameIsContent()
    ensures AllContent(ZONE_NAME) && ContentLine("END:VTIMEZONE")
  {
    NamedLine("TZID:", ZONE);
    NamedLine("X-LIC-LOCATION:", ZONE);
    EachIsContent(ZONE_NAME);
  }

  lemma ZoneIsContent()
    ensures AllContent(BerlinZone())
  {
    ZoneNameIsContent();
    SummerOffsets();
    SummerRule();
    ContentOfBoth(SUMMER_OFFSETS, SUMMER_RULE);
    WinterOffsets();
    WinterRule();
    ContentOfBoth(WINTER_OFFSETS, WINTER_RULE);
    ContentOfAll(ZONE_NAME, SUMMER_OFFSETS + SUMMER_RULE, WINTER_OFFSETS + WINTER_RULE, "END:VTIMEZONE");
  }

  lemma {:induction false} EventsAreContent(off: Offsets, entries: seq<CalendarEntry>)
    requires AllCanBeWritten(off, entries)
    ensures AllContent(AllEvents(off, entries))
  {
    if entries != [] {
      EventsAreContent(off, entries[..|entries| - 1]);
      EventIsContent(off, entries[|entries| - 1]);
      ContentOfBoth(AllEvents(off, entries[..|entries| - 1]), EventLines(off, entries[|entries| - 1]));
    }
  }

  lemma CalendarIsContent(off: Offsets, name: string, entries: seq<CalendarEntry>)
    requires AllCanBeWritten(off, entries)
    ensures AllContent(CalendarLines(off, name, entries))
  {
    PreambleIsContent(name);
    ZoneIsContent();
    EventsAreContent(off, entries);
    ContentOfAll(Preamble(name), BerlinZone(), AllEvents(off, entries), "END:VCALENDAR");
  }

  lemma OneEventMore(off: Offsets, entries: seq<CalendarEntry>, i: nat, event: seq<string>)
    requires AllCanBeWritten(off, entries) && i < |entries| && event == EventLines(off, entries[i])
    ensures AllCanBeWritten(off, entries[..i]) && AllCanBeWritten(off, entries[..i + 1])
    ensures AllEvents(off, entries[..i + 1]) == AllEvents(off, entries[..i]) + event
  {
    assert entries[..i + 1][..i] == entries[..i];
  }

  method EventsOf(off: Offsets, entries: seq<CalendarEntry>) returns (lines: seq<string>)
    requires AllCanBeWritten(off, entries)
    ensures lines == AllEvents(off, entries)
  {
    lines := [];
    for i := 0 to |entries|
      invariant AllCanBeWritten(off, entries[..i]) && lines == AllEvents(off, entries[..i])
    {
      var event := EventOf(off, entries[i]);
      OneEventMore(off, entries, i, event);
      lines := lines + event;
    }
    assert entries[..|entries|] == entries;
  }

  /** The whole feed, whatever was typed into it, reads back line by line and never exceeds the length of a line. */
  method CalendarOf(off: Offsets, name: string, entries: seq<CalendarEntry>) returns (text: string)
    requires AllCanBeWritten(off, entries)
    ensures ReadsBack(text, CalendarLines(off, name, entries))
  {
    var events := EventsOf(off, entries);
    var lines := Preamble(name) + BerlinZone() + events + ["END:VCALENDAR"];
    CalendarIsContent(off, name, entries);
    EachIsContent(lines);
    text := CalendarFile(lines);
  }
}
