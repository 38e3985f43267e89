/**
  The working-hour axis: how many plannable hours lie before an instant, when every week offers the
  same flexible number of hours from its start on. Preferred starts are positions on this axis.
 */
module WorkingHours {
  import opened Basics
  import opened WorkCalendar

  function WeeksAfter(zone: int, first: Hour, value: Instant): int {
    (MondayOf(LocalDate(zone, value)) - MondayOf(DateOfHour(zone, first))) / 7
  }

  function NextMonday(zone: int, first: Hour): Hour {
    Midnight(zone, MondayOf(DateOfHour(zone, first)) + 7)
  }

  /** What is left of the first week, up to the weekly hours. */
  function FirstCapacity(zone: int, first: Hour, weekly: int): int {
    Min(weekly, Max(0, NextMonday(zone, first) - first))
  }

  function WorkingHourOffset(value: Instant, startsAt: Instant, weekly: int, zone: int): int {
    var first := CeilHour(startsAt);
    var weeks := WeeksAfter(zone, first, value);
    if weeks <= 0 then Max(0, Min(weekly, CeilHour(value) - first))
    else
      var valueWeekStart := Midnight(zone, MondayOf(LocalDate(zone, value)));
      FirstCapacity(zone, first, weekly) + (weeks - 1) * weekly + Min(weekly, Max(0, CeilHour(value) - valueWeekStart))
  }

  lemma BeforeNextMonday(zone: int, first: Hour, value: Instant)
    requires WeeksAfter(zone, first, value) <= 0
    ensures CeilHour(value) <= NextMonday(zone, first)
  {
    assert LocalDate(zone, value) < MondayOf(DateOfHour(zone, first)) + 7;
  }

  /** An offset is never negative, and at most the first week's rest plus one full week per later week. */
  lemma OffsetBounds(value: Instant, startsAt: Instant, weekly: nat, zone: int)
    ensures var first := CeilHour(startsAt); var weeks := Max(0, WeeksAfter(zone, first, value));
      0 <= WorkingHourOffset(value, startsAt, weekly, zone) <= FirstCapacity(zone, first, weekly) + weeks * weekly
  {
    var first := CeilHour(startsAt);
    var weeks := WeeksAfter(zone, first, value);
    if weeks <= 0 {
      BeforeNextMonday(zone, first, value);
    } else {
      assert weeks * weekly == (weeks - 1) * weekly + weekly;
      assert (weeks - 1) * weekly >= 0;
    }
  }

  lemma WeeksMonotone(zone: int, first: Hour, v: Instant, v': Instant)
    requires v <= v'
    ensures WeeksAfter(zone, first, v) <= WeeksAfter(zone, first, v')
    ensures CeilHour(v) <= CeilHour(v')
    ensures MondayOf(LocalDate(zone, v)) <= MondayOf(LocalDate(zone, v'))
    ensures WeeksAfter(zone, first, v) == WeeksAfter(zone, first, v') ==>
              MondayOf(LocalDate(zone, v)) == MondayOf(LocalDate(zone, v'))
  {
    assert v / HOUR <= v' / HOUR;
    assert LocalDate(zone, v) <= LocalDate(zone, v');
  }

  /** A later start never has a smaller offset, within a week, across weeks and across the first week's end. */
  lemma OffsetMonotone(v: Instant, v': Instant, startsAt: Instant, weekly: nat, zone: int)
    requires v <= v'
    ensures WorkingHourOffset(v, startsAt, weekly, zone) <= WorkingHourOffset(v', startsAt, weekly, zone)
  {
    var first := CeilHour(startsAt);
    var n, n' := WeeksAfter(zone, first, v), WeeksAfter(zone, first, v');
    WeeksMonotone(zone, first, v, v');
    hide CeilHour, WeeksAfter, MondayOf, LocalDate, Midnight;
    if n < n' && n' > 0 {
      OffsetBounds(v, startsAt, weekly, zone);
      WeeksScale(Max(0, n), n' - 1, weekly);
    }
  }

  lemma WeeksScale(a: int, b: int, weekly: nat)
    requires a <= b
    ensures a * weekly <= b * weekly
  {
  }

  // ---- What the offset counts ----

  /** The calendar week, Monday to Sunday, of an hour. */
  function CalendarWeek(zone: int, h: Hour): int {
    (h + zone) / 24 / 7
  }

  function HoursOfCalendarWeek(zone: int, c: Hour, t: Hour, w: int): set<Hour> {
    set h: Hour | c <= h < t && CalendarWeek(zone, h) == w
  }

  /** The hours from `c` to `t` in the weeks from `from` on, no more than `weekly` of each week. */
  function CappedHours(zone: int, c: Hour, t: Hour, weekly: nat, from: int, upto: int): nat
    decreases upto - from
  {
    if from >= upto then 0
    else CappedHours(zone, c, t, weekly, from, upto - 1) + Min(weekly, |HoursOfCalendarWeek(zone, c, t, upto - 1)|)
  }

  predicate Lies(c: Hour, h: Hour, t: Hour) {
    c <= h < t
  }

  function Interval(c: Hour, t: Hour): set<Hour> {
    set h: Hour | c <= h < t && Lies(c, h, t)
  }

  lemma {:induction false} IntervalSize(c: Hour, t: Hour)
    ensures |Interval(c, t)| == Max(0, t - c)
    decreases t - c
  {
    if c < t {
      IntervalSize(c, t - 1);
      assert Interval(c, t) == Interval(c, t - 1) + {t - 1};
    } else {
      assert Interval(c, t) == {};
    }
  }

  lemma WeekIsInterval(zone: int, c: Hour, t: Hour, w: int)
    ensures |HoursOfCalendarWeek(zone, c, t, w)| == Max(0, Min(t, 168 * (w + 1) - zone) - Max(c, 168 * w - zone))
  {
    var lo, hi := Max(c, 168 * w - zone), Min(t, 168 * (w + 1) - zone);
    IntervalSize(lo, hi);
    assert HoursOfCalendarWeek(zone, c, t, w) == Interval(lo, hi);
  }

  lemma {:induction false} FullWeeks(zone: int, c: Hour, t: Hour, weekly: nat, from: int, upto: int)
    requires from < upto
    requires 168 * from - zone <= c < 168 * (from + 1) - zone && 168 * upto - zone <= t
    ensures CappedHours(zone, c, t, weekly, from, upto)
         == Min(weekly, 168 * (from + 1) - zone - c) + (upto - from - 1) * Min(weekly, 168)
    decreases upto - from
  {
    WeekIsInterval(zone, c, t, upto - 1);
    if from + 1 < upto {
      FullWeeks(zone, c, t, weekly, from, upto - 1);
      var each := Min(weekly, 168);
      assert (upto - from - 1) * each == (upto - 1 - from - 1) * each + each;
    }
  }

  /** Where the weeks of an instant and of an hour start. */
  lemma WeekStarts(zone: int, first: Hour, value: Instant)
    ensures var wf, wv := CalendarWeek(zone, first), CalendarWeek(zone, value / HOUR);
      && MondayOf(DateOfHour(zone, first)) == 7 * wf && MondayOf(LocalDate(zone, value)) == 7 * wv
      && WeeksAfter(zone, first, value) == wv - wf && NextMonday(zone, first) == 168 * (wf + 1) - zone
      && 168 * wf - zone <= first < 168 * (wf + 1) - zone
      && 168 * wv - zone <= CeilHour(value) <= 168 * (wv + 1) - zone
  {
    var x := (value / HOUR + zone) / 24;
    assert x / 7 * 7 == x - x % 7;
    var y := (first + zone) / 24;
    assert y / 7 * 7 == y - y % 7;
  }

  /**
    The offset is the number of hours from the plan's start to the instant, no more than the weekly hours of each
    calendar week; weekly hours beyond the 168 that a week has count in full for the weeks between.
   */
  lemma OffsetCountsHours(value: Instant, startsAt: Instant, weekly: nat, zone: int)
    ensures var first := CeilHour(startsAt);
      var from, last := CalendarWeek(zone, first), CalendarWeek(zone, value / HOUR);
      WorkingHourOffset(value, startsAt, weekly, zone)
      == CappedHours(zone, first, CeilHour(value), weekly, from, last + 1) +
        Max(0, last - from - 1) * Max(0, weekly - 168)
  {
    var first, t := CeilHour(startsAt), CeilHour(value);
    var wf, wv := CalendarWeek(zone, first), CalendarWeek(zone, value / HOUR);
    WeekStarts(zone, first, value);
    hide CeilHour, CalendarWeek, WeeksAfter, NextMonday, LocalDate, DateOfHour, MondayOf, HoursOfCalendarWeek;
    if wv >= wf {
      WeekIsInterval(zone, first, t, wv);
      if wv > wf {
        FullWeeks(zone, first, t, weekly, wf, wv);
        Surplus(wv - wf - 1, weekly);
      }
    }
  }

  lemma Surplus(n: nat, weekly: nat)
    ensures n * weekly == n * Min(weekly, 168) + n * Max(0, weekly - 168)
  {
  }
}
