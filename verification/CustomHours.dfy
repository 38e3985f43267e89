/**
  Exactly which hours a customized plan uses, in the terms of the roadmap and of what was saved: from the start
  in effect on, every hour that the calendar allows, until a week is full or the work is done.
 */
module CustomHours {
  import opened Basics
  import opened WorkCalendar
  import opened SlotScan
  import opened Rotation
  import opened Packer
  import opened PackLaws
  import opened WeeklyPlan
  import opened CustomPlan

  /** The plan week of a local date. */
  function PlanWeek(rm: Roadmap, h: Hour): int {
    ((h + rm.zone) / 24 - StartDate(rm)) / 7 + 1
  }

  /** The roadmap's calendar and the saved rest weeks allow the hour. */
  predicate Usable(rm: Roadmap, rests: set<int>, h: Hour) {
    var date, hour := (h + rm.zone) / 24, (h + rm.zone) % 24;
    && date !in rm.unavailable && PlanWeek(rm, h) !in rests
    && (rm.windows == [] || exists w <- rm.windows :: w.weekday == date % 7 + 1 && w.startHour <= hour < w.endHour)
  }

  lemma UsableIsOpen(rm: Roadmap, ov: Overrides, h: Hour)
    ensures Usable(rm, ov.rests, h) <==> Open(GridFor(rm, Some(ov)), h)
    ensures Usable(rm, {}, h) <==> Open(GridFor(rm, None), h)
    ensures PlanWeek(rm, h) == WeekOf(GridFor(rm, Some(ov)), h)
  {
    hide StartDate;
  }

  /** The usable hours of the same week that come before `h`. */
  function UsableBefore(rm: Roadmap, ov: Overrides, first: Hour, h: Hour): set<Hour> {
    set x: Hour | first <= x < h && Usable(rm, ov.rests, x) && PlanWeek(rm, x) == PlanWeek(rm, h)
  }

  ghost predicate IsShown(rm: Roadmap, completed: set<Id>, asOf: Option<Instant>, saved: Option<Overrides>, h: Hour)
    requires ValidRoadmap(rm) && ValidSaved(saved) && Customized(rm, completed, asOf, saved)
  {
    exists k :: h in HoursShown(rm, completed, asOf, saved, k)
  }

  /**
    Where a customized plan may place work: the largest of the plan's start, the ends of completed work and the
    time of the save, or the present if it has none. That time is left out where the present is not known and
    nothing is completed.
   */
  lemma StartInEffect(rm: Roadmap, completed: set<Id>, asOf: Option<Instant>, saved: Option<Overrides>)
    requires ValidRoadmap(rm) && ValidSaved(saved) && Customized(rm, completed, asOf, saved)
    ensures saved.Some? && RecommendedPacking(rm, completed).Packed?
    ensures var from, fixed := PlanJob(rm, completed, asOf, saved).from, FixedIn(rm, completed, saved);
      var at := if saved.value.savedAt.Some? then saved.value.savedAt else asOf;
      var matters := fixed.Keys != {} || asOf.Some?;
      && StartsAt(rm) <= from && (forall k <- fixed :: fixed[k].endsAt <= from)
      && (matters && at.Some? ==> at.value <= from)
      && (from == StartsAt(rm) || (matters && at == Some(from)) || exists k <- fixed :: from == fixed[k].endsAt)
  {
    hide PackSpec, PlanOrder, ById, ValidRoadmap, Customized, FixedIn, GridFor, Scheduling, Lines, FutureStart;
    hide StartsAt;
    hide WorkFor, FixedIds;
    PlanIsPacked(rm, completed, asOf, saved);
    JobStartsLate(rm, completed, asOf, saved);
    var job, fixed := PlanJob(rm, completed, asOf, saved), FixedIn(rm, completed, saved);
    assert job.from == FutureStart(rm, asOf, saved, FixedIds(rm, completed), fixed);
  }

  // ---- The hours of a packing ----

  lemma ChosenIffWorked(job: Job, h: Hour, last: Hour)
    requires ValidJob(job) && last in WorkedHours(job) && (forall x <- WorkedHours(job) :: x <= last)
    ensures h in WorkedHours(job) <==>
      h <= last && FirstCursor(job) <= h && ChosenAt(job.grid, InitialUse(job), FirstCursor(job), h)
  {
    hide Scan, ChosenAt, InitialUse, Total;
    var s := WorkedHours(job);
    WorkedIncreases(job);
    var n := |s| - 1;
    assert s[n] == last by { LargestIsLast(s, last); }
    ScanListsChosen(job.grid, InitialUse(job), FirstCursor(job), CalendarLimit(job), Total(job.work), n);
    assert s[..n + 1] == s;
    var chosen := Chosen(job.grid, InitialUse(job), FirstCursor(job), last + 1);
    assert Elements(s) == chosen;
    assert h in s <==> h in chosen by { InElements(s, h); }
  }

  lemma InElements(s: seq<Hour>, h: Hour)
    ensures h in s <==> h in Elements(s)
  {
  }

  lemma LargestIsLast(s: seq<Hour>, last: Hour)
    requires Increasing(s) && last in s && forall x <- s :: x <= last
    ensures s[|s| - 1] == last
  {
    var j :| 0 <= j < |s| && s[j] == last;
    assert s[|s| - 1] in s;
  }

  lemma OpenBeforeIsUsable(rm: Roadmap, ov: Overrides, c: Hour, h: Hour)
    ensures OpenBefore(GridFor(rm, Some(ov)), c, h) == UsableBefore(rm, ov, c, h)
  {
    hide Usable, Open, PlanWeek, WeekOf, GridFor;
    forall x: Hour
      ensures Usable(rm, ov.rests, x) <==> Open(GridFor(rm, Some(ov)), x)
      ensures PlanWeek(rm, x) == WeekOf(GridFor(rm, Some(ov)), x)
    {
      UsableIsOpen(rm, ov, x);
    }
    UsableIsOpen(rm, ov, h);
  }

  /** The packer takes an hour exactly when it is usable and the week is not yet full. */
  lemma ChosenIffRoom(rm: Roadmap, ov: Overrides, used: map<int, int>, c: Hour, h: Hour)
    ensures ChosenAt(GridFor(rm, Some(ov)), used, c, h) <==>
      Usable(rm, ov.rests, h) && UsedIn(used, PlanWeek(rm, h)) + |UsableBefore(rm, ov, c, h)| < ov.weekly
  {
    hide Usable, Open, PlanWeek, WeekOf, OpenBefore, UsableBefore, StartDate;
    UsableIsOpen(rm, ov, h);
    OpenBeforeIsUsable(rm, ov, c, h);
  }

  // ---- The hours of a plan ----

  /** The weekly use that the packer starts from is what completed lines take. */
  lemma CompletedUse(rm: Roadmap, completed: set<Id>, asOf: Option<Instant>, saved: Option<Overrides>, w: int)
    requires ValidRoadmap(rm) && ValidSaved(saved) && Customized(rm, completed, asOf, saved)
    ensures UsedIn(InitialUse(PlanJob(rm, completed, asOf, saved)), w) ==
      Use(Lines(rm, completed, asOf, saved), w, false)
  {
    hide PackSpec, PlanOrder, ById, ValidRoadmap, Lines, FixedIn, Customized, PlanJob, Use, InitialUse, UsedIn;
    var job, lines, ids := PlanJob(rm, completed, asOf, saved), Lines(rm, completed, asOf, saved), PlanOrder(rm, saved);
    PlanIsPacked(rm, completed, asOf, saved);
    JobStartsLate(rm, completed, asOf, saved);
    LinesOfPlan(rm, completed, asOf, saved);
    FixedLinesUse(job, lines, ids, w);
  }

  /** An hour is shown exactly when the packing works it. */
  lemma ShownIffWorked(rm: Roadmap, completed: set<Id>, asOf: Option<Instant>, saved: Option<Overrides>, h: Hour)
    requires ValidRoadmap(rm) && ValidSaved(saved) && Customized(rm, completed, asOf, saved)
    ensures IsShown(rm, completed, asOf, saved, h) <==> h in WorkedHours(PlanJob(rm, completed, asOf, saved))
  {
    hide PackSpec, PlanJob, Customized, HoursOf, HoursShown, ValidRoadmap, WorkedHours, Total;
    var job := PlanJob(rm, completed, asOf, saved);
    PlanIsPacked(rm, completed, asOf, saved);
    PackedShape(job);
    if IsShown(rm, completed, asOf, saved, h) {
      var k :| h in HoursShown(rm, completed, asOf, saved, k);
      HoursShownOf(rm, completed, asOf, saved, k);
      WorkedIn(job, k, h);
      InElements(WorkedHours(job), h);
    }
    if h in WorkedHours(job) {
      WorkedBySomeone(job, h);
      var k :| k in job.work.order && h in HoursOf(job, k);
      HoursShownOf(rm, completed, asOf, saved, k);
      assert h in HoursShown(rm, completed, asOf, saved, k);
    }
  }

  lemma HoursShownOf(rm: Roadmap, completed: set<Id>, asOf: Option<Instant>, saved: Option<Overrides>, k: Id)
    requires ValidRoadmap(rm) && ValidSaved(saved) && Customized(rm, completed, asOf, saved)
    ensures var job := PlanJob(rm, completed, asOf, saved);
      |WorkedHours(job)| == Total(job.work) && HoursShown(rm, completed, asOf, saved, k) == HoursOf(job, k)
  {
    hide PackSpec, PlanJob, Customized, HoursOf, ValidRoadmap, WorkedHours, Total;
    PlanIsPacked(rm, completed, asOf, saved);
    PackedShape(PlanJob(rm, completed, asOf, saved));
  }

  /**
    The hours of a customized plan, exactly: from the start in effect up to the last hour shown, an hour is used if
    and only if the calendar allows it and the hours of its week before it, with those of completed lines, are
    still below the plan's weekly hours.
   */
  lemma PlanHoursExactly(rm: Roadmap, completed: set<Id>, asOf: Option<Instant>, saved: Option<Overrides>,
                         h: Hour, last: Hour)
    requires ValidRoadmap(rm) && ValidSaved(saved) && Customized(rm, completed, asOf, saved)
    requires IsShown(rm, completed, asOf, saved, last)
    requires forall x :: IsShown(rm, completed, asOf, saved, x) ==> x <= last
    ensures saved.Some?
    ensures var first := CeilHour(PlanJob(rm, completed, asOf, saved).from);
      IsShown(rm, completed, asOf, saved, h) <==>
        && first <= h <= last && Usable(rm, saved.value.rests, h)
        && Use(Lines(rm, completed, asOf, saved), PlanWeek(rm, h), false) + |UsableBefore(rm, saved.value, first, h)|
           < saved.value.weekly
  {
    hide PackSpec, PlanJob, Customized, ValidRoadmap, WorkedHours, IsShown, Usable, UsableBefore, Use, UsedIn, PlanWeek;
    hide InitialUse, ChosenAt, GridFor, Lines, FixedIn, ById;
    var job := PlanJob(rm, completed, asOf, saved);
    PlanIsPacked(rm, completed, asOf, saved);
    JobStartsLate(rm, completed, asOf, saved);
    ShownIffWorked(rm, completed, asOf, saved, h);
    ShownIffWorked(rm, completed, asOf, saved, last);
    forall x | x in WorkedHours(job)
      ensures x <= last
    {
      ShownIffWorked(rm, completed, asOf, saved, x);
    }
    ChosenIffWorked(job, h, last);
    ChosenIffRoom(rm, saved.value, InitialUse(job), FirstCursor(job), h);
    CompletedUse(rm, completed, asOf, saved, PlanWeek(rm, h));
  }

  /** No hour is shown in a rest week, on an unavailable date or outside the weekly windows. */
  lemma LineKeepsCalendar(rm: Roadmap, completed: set<Id>, asOf: Option<Instant>, saved: Option<Overrides>, h: Hour)
    requires ValidRoadmap(rm) && ValidSaved(saved) && Customized(rm, completed, asOf, saved)
    requires IsShown(rm, completed, asOf, saved, h)
    ensures saved.Some? && Usable(rm, saved.value.rests, h)
  {
    hide PackSpec, PlanJob, Customized, ValidRoadmap, WorkedHours, IsShown, Usable, Open, GridFor, Lines, FixedIn, ById;
    var job := PlanJob(rm, completed, asOf, saved);
    PlanIsPacked(rm, completed, asOf, saved);
    JobStartsLate(rm, completed, asOf, saved);
    ShownIffWorked(rm, completed, asOf, saved, h);
    WorkedHourOpen(job, h);
    UsableIsOpen(rm, saved.value, h);
  }
}
