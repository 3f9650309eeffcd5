/**
 * German wall-clock time. A moment is a number of milliseconds in UTC from the
 * 1st of January of the year 0, and a zone gives, for each whole minute of UTC,
 * the minutes to be added for the time shown in Germany.
 */
module BerlinTime {
  import opened Calendar
  import opened Rounding

  type Moment = int
  type Offsets = int -> int

  const MINUTE := 60_000
  const DAY_MINUTES := 1440

  datatype Wall = Wall(day: Day, minute: int)

  /** The change of time: an hour more or less, and no two changes within three hours. */
  ghost predicate Isolated(off: Offsets) {
    && (forall u :: off(u) == 60 || off(u) == 120)
    && (forall u, v, w :: u <= v <= w <= u + 180 && off(u) == off(w) ==> off(v) == off(u))
  }

  /** The day of UTC that begins at its 01:00, when the clocks in Germany change. */
  function Night(u: int): int {
    (u - 60) / DAY_MINUTES
  }

  /** The zone of Germany: 60 or 120 minutes ahead, changing at 01:00 UTC and only then. */
  ghost predicate GermanZone(off: Offsets) {
    && (forall u :: off(u) == 60 || off(u) == 120)
    && (forall u, v :: Night(u) == Night(v) ==> off(u) == off(v))
  }

  lemma GermanZoneIsIsolated(off: Offsets)
    requires GermanZone(off)
    ensures Isolated(off)
  {
    forall u, v, w | u <= v <= w <= u + 180 && off(u) == off(w)
      ensures off(v) == off(u)
    {
      assert Night(u) == Night(v) || Night(v) == Night(w);
    }
  }

  /** Such a zone may change at any night, either way: the hour is left out when the clock goes forward. */
  lemma ClocksChange(night: int)
    ensures GermanZone(u => if Night(u) < night then 60 else 120)
    ensures GermanZone(u => if Night(u) < night then 120 else 60)
    ensures InTheGap(u => if Night(u) < night then 60 else 120, night, 150)
  {}

  /** What the clock in Germany counts at a moment, in minutes from day 0. */
  function WallMinute(off: Offsets, at: Moment): int {
    at / MINUTE + off(at / MINUTE)
  }

  function BerlinClock(off: Offsets, at: Moment): (w: Wall)
    ensures 0 <= w.minute < DAY_MINUTES
    ensures w.day * DAY_MINUTES + w.minute == WallMinute(off, at)
  {
    Wall(WallMinute(off, at) / DAY_MINUTES, WallMinute(off, at) % DAY_MINUTES)
  }

  /** The start of a day of UTC. */
  function Utc(on: Day): Moment {
    on * DAY_MINUTES * MINUTE
  }

  /** Read off the clock and the moment, as the source does: the zone itself is never asked. */
  function BerlinOffset(off: Offsets, at: Moment): (minutes: int)
    ensures minutes == off(at / MINUTE)
  {
    var w := BerlinClock(off, at);
    var wall := Utc(w.day) + w.minute * MINUTE;
    RoundOfWhole(off(at / MINUTE), MINUTE);
    RoundOver(wall - at / MINUTE * MINUTE, MINUTE)
  }

  function BerlinInstant(off: Offsets, on: Day, minute: int): Moment {
    var wall := Utc(on) + minute * MINUTE;
    var first := wall - BerlinOffset(off, wall) * MINUTE;
    wall - BerlinOffset(off, first) * MINUTE
  }

  ghost predicate Shows(off: Offsets, at: Moment, on: Day, minute: int) {
    WallMinute(off, at) == on * DAY_MINUTES + minute
  }

  /** The minutes of a day the clock leaves out when it goes forward. */
  predicate InTheGap(off: Offsets, on: Day, minute: int) {
    var w := on * DAY_MINUTES + minute;
    off(w - 120) == 60 && off(w - 60) == 120
  }

  lemma InstantInMinutes(off: Offsets, on: Day, minute: int)
    ensures var w := on * DAY_MINUTES + minute;
            BerlinInstant(off, on, minute) == (w - off(w - off(w))) * MINUTE
  {
    var w := on * DAY_MINUTES + minute;
    assert Utc(on) + minute * MINUTE == w * MINUTE;
    assert (w * MINUTE) / MINUTE == w;
    assert (w * MINUTE - off(w) * MINUTE) / MINUTE == w - off(w);
  }

  /** The minutes of UTC the clock may show a minute of a day at, and which of them the lookup gives. */
  lemma LookupGives(off: Offsets, w: int)
    requires Isolated(off)
    ensures var u := w - off(w - off(w));
      if off(w - 120) == 60 && off(w - 60) == 120 then u == w - 60
      else u + off(u) == w && (off(w - 60) == 60 ==> u == w - 60)
  {
    assert w - 120 <= w - 60 <= w <= w - 120 + 180;
    assert off(w - 120) == off(w) ==> off(w - 60) == off(w - 120);
  }

  /**
   * The double lookup finds the moment asked for, the second pass of an hour
   * that comes twice, and in the hour left out the moment that reads an hour
   * later; the gap is exactly where no moment shows the time.
   */
  lemma InstantReadsBack(off: Offsets, on: Day, minute: int)
    requires Isolated(off)
    ensures BerlinInstant(off, on, minute) % MINUTE == 0
    ensures InTheGap(off, on, minute) <==> forall at :: !Shows(off, at, on, minute)
    ensures InTheGap(off, on, minute) ==> Shows(off, BerlinInstant(off, on, minute), on, minute + 60)
    ensures !InTheGap(off, on, minute) ==> Shows(off, BerlinInstant(off, on, minute), on, minute)
    ensures forall at :: Shows(off, at, on, minute) ==> at < BerlinInstant(off, on, minute) + MINUTE
  {
    var w := on * DAY_MINUTES + minute;
    var r := BerlinInstant(off, on, minute);
    InstantInMinutes(off, on, minute);
    LookupGives(off, w);
    var u := w - off(w - off(w));
    assert r / MINUTE == u;
    if !InTheGap(off, on, minute) {
      assert Shows(off, r, on, minute);
    }
    forall at | Shows(off, at, on, minute) ensures !InTheGap(off, on, minute) && at / MINUTE <= u {
      assert at / MINUTE == w - 60 || at / MINUTE == w - 120;
    }
  }

  lemma ClockShows(off: Offsets, at: Moment, on: Day, minute: int)
    requires 0 <= minute < DAY_MINUTES && Shows(off, at, on, minute)
    ensures BerlinClock(off, at) == Wall(on, minute)
  {}

  lemma GapIsAtTwo(off: Offsets, on: Day, minute: int)
    requires GermanZone(off) && 0 <= minute < DAY_MINUTES && InTheGap(off, on, minute)
    ensures 120 <= minute < 180
  {
    var w := on * DAY_MINUTES + minute;
    assert Night(w - 120) != Night(w - 60);
  }

  /** In Germany the hour left out is the one from two to three, so no day is ever missed. */
  lemma InstantIsOnItsDay(off: Offsets, on: Day, minute: int)
    requires GermanZone(off) && 0 <= minute < DAY_MINUTES
    ensures BerlinClock(off, BerlinInstant(off, on, minute)).day == on
    ensures InTheGap(off, on, minute) ==> 120 <= minute < 180
    ensures !InTheGap(off, on, minute) ==> BerlinClock(off, BerlinInstant(off, on, minute)) == Wall(on, minute)
  {
    GermanZoneIsIsolated(off);
    InstantReadsBack(off, on, minute);
    var r := BerlinInstant(off, on, minute);
    if InTheGap(off, on, minute) {
      GapIsAtTwo(off, on, minute);
      ClockShows(off, r, on, minute + 60);
    } else {
      ClockShows(off, r, on, minute);
    }
  }

  /** The clock goes back an hour once a year, the day on it never does. */
  lemma WallDayNeverGoesBack(off: Offsets, earlier: Moment, later: Moment)
    requires GermanZone(off) && earlier <= later
    ensures BerlinClock(off, earlier).day <= BerlinClock(off, later).day
  {
    var u, v := earlier / MINUTE, later / MINUTE;
    assert u <= v;
    if off(u) == 120 && off(v) == 60 {
      assert Night(u) < Night(v);
    }
  }
}
