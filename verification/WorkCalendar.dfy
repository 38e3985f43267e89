/**
  Time as the weekly planner sees it.

  An `Instant` is a whole number of microseconds, an `Hour` the number of a whole UTC hour and a
  `Date` a local day number; all three count from one common Monday at midnight, so that a date is
  a Monday exactly when it is a multiple of seven. The plan's zone is a fixed whole-hour offset.
 */
module WorkCalendar {

  type Instant = int
  type Hour = int
  type Date = int

  const HOUR: int := 3_600_000_000

  /** The first whole hour that does not precede `t`. */
  function CeilHour(t: Instant): (h: Hour)
    ensures (h - 1) * HOUR < t <= h * HOUR
  {
    if t % HOUR == 0 then t / HOUR else t / HOUR + 1
  }

  function InstantOf(h: Hour): Instant {
    h * HOUR
  }

  function DateOfHour(zone: int, h: Hour): Date {
    (h + zone) / 24
  }

  function LocalDate(zone: int, t: Instant): Date {
    DateOfHour(zone, t / HOUR)
  }

  function Midnight(zone: int, d: Date): Hour {
    d * 24 - zone
  }

  function MondayOf(d: Date): (m: Date)
    ensures m <= d < m + 7 && m % 7 == 0
  {
    d - d % 7
  }

  /** The last day of the half-open interval: an end at midnight does not open another day. */
  function LastOccupiedDate(zone: int, startsAt: Instant, endsAt: Instant): Date {
    LocalDate(zone, if endsAt > startsAt then endsAt - 1 else endsAt)
  }

  /** The dates of an interval are those of the instants in it. */
  lemma OccupiedDates(zone: int, startsAt: Instant, endsAt: Instant)
    requires startsAt < endsAt
    ensures forall t :: startsAt <= t < endsAt ==>
              LocalDate(zone, startsAt) <= LocalDate(zone, t) <= LastOccupiedDate(zone, startsAt, endsAt)
    ensures exists t :: startsAt <= t < endsAt && LocalDate(zone, t) == LastOccupiedDate(zone, startsAt, endsAt)
  {
    assert LocalDate(zone, endsAt - 1) == LastOccupiedDate(zone, startsAt, endsAt);
    forall t | startsAt <= t < endsAt
      ensures LocalDate(zone, startsAt) <= LocalDate(zone, t) <= LocalDate(zone, endsAt - 1)
    {
      LocalDateMonotone(zone, startsAt, t);
      LocalDateMonotone(zone, t, endsAt - 1);
    }
  }

  lemma LocalDateMonotone(zone: int, t: Instant, u: Instant)
    requires t <= u
    ensures LocalDate(zone, t) <= LocalDate(zone, u)
  {
    assert t / HOUR <= u / HOUR;
  }

  lemma WholeHourDates(zone: int, lo: Hour, hi: Hour)
    requires lo <= hi
    ensures LocalDate(zone, InstantOf(lo)) == DateOfHour(zone, lo)
    ensures LastOccupiedDate(zone, InstantOf(lo), InstantOf(hi + 1)) == DateOfHour(zone, hi)
  {
    assert (InstantOf(hi + 1) - 1) / HOUR == hi;
  }

  /** One opening of the learner's week: ISO weekday 1..7 and a half-open range of local hours. */
  datatype AvailabilityWindow = AvailabilityWindow(weekday: int, startHour: int, endHour: int)

  /** What decides whether an hour can be worked at all, and how many hours a week may hold. */
  datatype Grid = Grid(
    zone: int, start: Date, weekly: int, rests: set<int>, excluded: set<Date>, windows: seq<AvailabilityWindow>)

  /** Plan weeks are numbered from 1, starting at the plan's first date. */
  function WeekOf(g: Grid, h: Hour): int {
    WeekOfDate(g.start, DateOfHour(g.zone, h))
  }

  function WeekOfDate(start: Date, d: Date): int {
    (d - start) / 7 + 1
  }

  predicate SlotIsAvailable(g: Grid, h: Hour) {
    var date := DateOfHour(g.zone, h);
    && date !in g.excluded
    && (g.windows == [] || exists w <- g.windows ::
          w.weekday == date % 7 + 1 && w.startHour <= (h + g.zone) % 24 < w.endHour)
  }

  predicate Open(g: Grid, h: Hour) {
    && DateOfHour(g.zone, h) !in g.excluded
    && WeekOf(g, h) !in g.rests
    && SlotIsAvailable(g, h)
  }

  /** The local midnight that ends the day of `h`. */
  function NextDay(g: Grid, h: Hour): (n: Hour)
    ensures h < n
    ensures forall k :: h <= k < n ==> DateOfHour(g.zone, k) == DateOfHour(g.zone, h)
    ensures DateOfHour(g.zone, n) == DateOfHour(g.zone, h) + 1
  {
    Midnight(g.zone, DateOfHour(g.zone, h) + 1)
  }

  /** The local midnight that ends the plan week of `h`. */
  function NextWeek(g: Grid, h: Hour): (n: Hour)
    ensures h < n
    ensures forall k :: h <= k < n ==> WeekOf(g, k) == WeekOf(g, h)
    ensures WeekOf(g, n) == WeekOf(g, h) + 1
  {
    var n := Midnight(g.zone, g.start + 7 * WeekOf(g, h));
    assert (n + g.zone) / 24 == g.start + 7 * WeekOf(g, h);
    n
  }

  lemma WeekMonotone(g: Grid, h: Hour, k: Hour)
    requires h <= k
    ensures WeekOf(g, h) <= WeekOf(g, k)
  {
  }
}
