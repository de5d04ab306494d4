/** `AsteroidWatchPage`: the Monday-to-Sunday week around the selected
    instant, week navigation, and the week and minimum-diameter filters over
    the NEO feed. Instants are milliseconds since 1970-01-01T00:00Z; local
    time is idealised to UTC, so a day is always `MsPerDay` long. */
module AsteroidWatch {
  import opened Wrappers
  import opened Calendar

  /** A `neoFeed` record as the page receives it. */
  datatype Asteroid = Asteroid(
    id: string,
    name: string,
    approachDate: string,
    diameter: real,
    isHazardous: bool,
    missDistanceKm: real,
    velocityKps: real)

  /** The day an instant falls on, counted from 1970-01-01 (floor division). */
  function DayIndex(t: int): int {
    t / MsPerDay
  }

  function TimeOfDay(t: int): (r: int)
    ensures 0 <= r < MsPerDay
  {
    t % MsPerDay
  }

  /** `getDay()`: 0 is Sunday; 1970-01-01 was a Thursday. */
  function Weekday(t: int): (w: int)
    ensures 0 <= w < 7
  {
    (DayIndex(t) + 4) % 7
  }

  /** Moving an instant by whole days moves its day and weekday along and
      keeps its time of day. */
  lemma ShiftDays(t: int, k: int)
    ensures DayIndex(t + k * MsPerDay) == DayIndex(t) + k
    ensures TimeOfDay(t + k * MsPerDay) == TimeOfDay(t)
    ensures Weekday(t + k * MsPerDay) == (Weekday(t) + k) % 7
  {
    var q, r := t / MsPerDay, t % MsPerDay;
    assert t + k * MsPerDay == (q + k) * MsPerDay + r;
  }

  /** `getStartOfWeek`: `setDate(getDate() - day + (day === 0 ? -6 : 1))`. */
  function StartOfWeek(t: int): int {
    var day := Weekday(t);
    t + (-day + (if day == 0 then -6 else 1)) * MsPerDay
  }

  /** `getEndOfWeek`: `setDate(getDate() - day + (day === 0 ? 0 : 7))`. */
  function EndOfWeek(t: int): int {
    var day := Weekday(t);
    t + (-day + (if day == 0 then 0 else 7)) * MsPerDay
  }

  /** The week starts on the Monday on or before the instant (a Sunday goes
      back six days), at the same time of day. */
  lemma StartOfWeekIsMonday(t: int)
    ensures Weekday(StartOfWeek(t)) == 1
    ensures StartOfWeek(t) <= t < StartOfWeek(t) + 7 * MsPerDay
    ensures TimeOfDay(StartOfWeek(t)) == TimeOfDay(t)
    ensures Weekday(t) == 0 ==> StartOfWeek(t) == t - 6 * MsPerDay
  {
    var day := Weekday(t);
    ShiftDays(t, -day + (if day == 0 then -6 else 1));
  }

  /** The week ends on the Sunday on or after the instant (a Sunday is its
      own end), at the same time of day. */
  lemma EndOfWeekIsSunday(t: int)
    ensures Weekday(EndOfWeek(t)) == 0
    ensures t <= EndOfWeek(t) < t + 7 * MsPerDay
    ensures TimeOfDay(EndOfWeek(t)) == TimeOfDay(t)
    ensures Weekday(t) == 0 ==> EndOfWeek(t) == t
  {
    var day := Weekday(t);
    ShiftDays(t, -day + (if day == 0 then 0 else 7));
  }

  /** Whatever the instant, the week is exactly six days long and holds it. */
  lemma WeekSpansSixDays(t: int)
    ensures EndOfWeek(t) - StartOfWeek(t) == 6 * MsPerDay
    ensures StartOfWeek(t) <= t <= EndOfWeek(t)
  {
    StartOfWeekIsMonday(t);
    EndOfWeekIsSunday(t);
  }

  /** Moving the selected instant by a week moves both bounds by a week. */
  lemma WeekShift(t: int, k: int)
    ensures StartOfWeek(t + 7 * k * MsPerDay) == StartOfWeek(t) + 7 * k * MsPerDay
    ensures EndOfWeek(t + 7 * k * MsPerDay) == EndOfWeek(t) + 7 * k * MsPerDay
  {
    ShiftDays(t, 7 * k);
    assert t + 7 * k * MsPerDay == t + (7 * k) * MsPerDay;
  }

  // ---------------------------------------------------------------------
  // The week and diameter filters

  /** `new Date(approachDate).getTime()`: a date-only string is UTC
      midnight; anything else is an Invalid Date (None), and every
      comparison with it is false. */
  function ApproachTime(approachDate: string): (r: Option<int>)
    ensures r.Some? ==> TimeOfDay(r.value) == 0
  {
    var d := ParseDate(approachDate);
    if d.None? then None
    else
      var days := Ordinal(d.value) - Ordinal(Date(1970, 1, 1));
      ShiftDays(0, days);
      Some(days * MsPerDay)
  }

  /** `approachDate >= weekStart && approachDate <= weekEnd`, as written. */
  predicate InWeekAsWritten(a: Asteroid, t: int) {
    var at := ApproachTime(a.approachDate);
    at.Some? && StartOfWeek(t) <= at.value <= EndOfWeek(t)
  }

  /** As written, an asteroid approaching on the Monday of the week is left
      out whenever the selected instant is not exactly midnight, though its
      date is the first date of the week the page asks the feed for. */
  lemma MondayDroppedAsWritten(a: Asteroid, t: int)
    requires ApproachTime(a.approachDate) == Some(DayIndex(StartOfWeek(t)) * MsPerDay)
    ensures InWeekAsWritten(a, t) <==> TimeOfDay(t) == 0
  {
    StartOfWeekIsMonday(t);
    EndOfWeekIsSunday(t);
    var s := StartOfWeek(t);
    assert s == DayIndex(s) * MsPerDay + TimeOfDay(s);
  }

  /** The week filter compared by day, as the page evidently intends: an
      asteroid is in the week when its approach day is one of the seven
      days from Monday to Sunday. */
  predicate InWeek(a: Asteroid, t: int) {
    var at := ApproachTime(a.approachDate);
    at.Some? && DayIndex(StartOfWeek(t)) <= DayIndex(at.value) <= DayIndex(EndOfWeek(t))
  }

  /** An asteroid is in the week exactly when it approaches on the Monday or
      one of the six days after it, whatever the time of the selection. */
  lemma InWeekIsSevenDays(a: Asteroid, t: int)
    ensures InWeek(a, t) <==>
      ApproachTime(a.approachDate).Some? &&
      DayIndex(StartOfWeek(t)) <= DayIndex(ApproachTime(a.approachDate).value) <= DayIndex(StartOfWeek(t)) + 6
    ensures InWeekAsWritten(a, t) ==> InWeek(a, t)
  {
    StartOfWeekIsMonday(t);
    EndOfWeekIsSunday(t);
    ShiftDays(StartOfWeek(t), 6);
    assert EndOfWeek(t) == StartOfWeek(t) + 6 * MsPerDay;
    var at := ApproachTime(a.approachDate);
    if InWeekAsWritten(a, t) {
      assert DayIndex(StartOfWeek(t)) <= DayIndex(at.value) by {
        DivMonotone(StartOfWeek(t), at.value);
      }
      assert DayIndex(at.value) <= DayIndex(EndOfWeek(t)) by {
        DivMonotone(at.value, EndOfWeek(t));
      }
    }
  }

  lemma DivMonotone(x: int, y: int)
    requires x <= y
    ensures DayIndex(x) <= DayIndex(y)
  {
    var qx, rx := x / MsPerDay, x % MsPerDay;
    var qy, ry := y / MsPerDay, y % MsPerDay;
    assert x == qx * MsPerDay + rx && y == qy * MsPerDay + ry;
  }

  /** `xs.filter(p)`. */
  function Keep(xs: seq<Asteroid>, p: Asteroid -> bool): (r: seq<Asteroid>)
    ensures |r| <= |xs|
    ensures forall x :: x in r <==> x in xs && p(x)
  {
    if |xs| == 0 then []
    else
      assert xs == [xs[0]] + xs[1..];
      (if p(xs[0]) then [xs[0]] else []) + Keep(xs[1..], p)
  }

  /** `asteroidsInWeek`, as written. */
  function AsteroidsInWeekAsWritten(all: seq<Asteroid>, t: int): seq<Asteroid> {
    Keep(all, (a: Asteroid) => InWeekAsWritten(a, t))
  }

  /** `asteroidsInWeek`, comparing by day. */
  function AsteroidsInWeek(all: seq<Asteroid>, t: int): seq<Asteroid> {
    Keep(all, (a: Asteroid) => InWeek(a, t))
  }

  /** `chartData`'s asteroids as written: those `asteroidsInWeek` keeps that
      are at least `minDiameter` across. */
  function ChartedAsWritten(all: seq<Asteroid>, t: int, minDiameter: real): seq<Asteroid> {
    Keep(AsteroidsInWeekAsWritten(all, t), (a: Asteroid) => a.diameter >= minDiameter)
  }

  /** As written, a charted asteroid is one of the feed whose approach
      instant lies between the week's bounds and which is at least as wide as
      the minimum; raising the minimum never adds one, and every asteroid so
      charted is also charted when the week is compared by day. */
  lemma ChartedAsWrittenAreInWeek(all: seq<Asteroid>, t: int, minDiameter: real, higher: real)
    requires minDiameter <= higher
    ensures forall a :: a in ChartedAsWritten(all, t, minDiameter) <==>
      a in all && InWeekAsWritten(a, t) && a.diameter >= minDiameter
    ensures forall a :: a in ChartedAsWritten(all, t, higher) ==> a in ChartedAsWritten(all, t, minDiameter)
    ensures forall a :: a in ChartedAsWritten(all, t, minDiameter) ==> a in Charted(all, t, minDiameter)
    ensures |ChartedAsWritten(all, t, minDiameter)| <= |AsteroidsInWeekAsWritten(all, t)| <= |all|
  {
    forall a | a in ChartedAsWritten(all, t, minDiameter)
      ensures a in Charted(all, t, minDiameter)
    {
      InWeekIsSevenDays(a, t);
    }
  }

  /** The charted asteroids with the week compared by day: those of the week
      at least `minDiameter` across. */
  function Charted(all: seq<Asteroid>, t: int, minDiameter: real): seq<Asteroid> {
    Keep(AsteroidsInWeek(all, t), (a: Asteroid) => a.diameter >= minDiameter)
  }

  /** A charted asteroid is one of the feed in the week and at least as wide
      as the minimum, and raising the minimum never adds one. */
  lemma ChartedAreInWeek(all: seq<Asteroid>, t: int, minDiameter: real, higher: real)
    requires minDiameter <= higher
    ensures forall a :: a in Charted(all, t, minDiameter) <==> a in all && InWeek(a, t) && a.diameter >= minDiameter
    ensures forall a :: a in Charted(all, t, higher) ==> a in Charted(all, t, minDiameter)
    ensures |Charted(all, t, minDiameter)| <= |AsteroidsInWeek(all, t)| <= |all|
  {
  }

  /** The page's state. */
  class AsteroidWatchPage {
    var selectedWeek: int
    var minDiameter: real

    constructor (now: int)
      ensures selectedWeek == now && minDiameter == 0.0
    {
      selectedWeek := now;
      minDiameter := 0.0;
    }

    function WeekStart(): int
      reads this
    {
      StartOfWeek(selectedWeek)
    }

    function WeekEnd(): int
      reads this
    {
      EndOfWeek(selectedWeek)
    }

    /** `goToPreviousWeek`: seven days back; the week moves back by one. */
    method PreviousWeek()
      modifies this
      ensures selectedWeek == old(selectedWeek) - 7 * MsPerDay && minDiameter == old(minDiameter)
      ensures WeekStart() == old(WeekStart()) - 7 * MsPerDay && WeekEnd() == old(WeekEnd()) - 7 * MsPerDay
    {
      WeekShift(selectedWeek, -1);
      selectedWeek := selectedWeek - 7 * MsPerDay;
    }

    /** `goToNextWeek`: seven days on; the week moves on by one. */
    method NextWeek()
      modifies this
      ensures selectedWeek == old(selectedWeek) + 7 * MsPerDay && minDiameter == old(minDiameter)
      ensures WeekStart() == old(WeekStart()) + 7 * MsPerDay && WeekEnd() == old(WeekEnd()) + 7 * MsPerDay
    {
      WeekShift(selectedWeek, 1);
      selectedWeek := selectedWeek + 7 * MsPerDay;
    }

    /** `goToCurrentWeek`, with the clock's reading passed in. */
    method CurrentWeek(now: int)
      modifies this
      ensures selectedWeek == now && minDiameter == old(minDiameter)
    {
      selectedWeek := now;
    }

    /** The minimum-diameter slider. */
    method SetMinDiameter(d: real)
      modifies this
      ensures minDiameter == d && selectedWeek == old(selectedWeek)
    {
      minDiameter := d;
    }
  }
}
