/**
  What a plan that is not customized shows: its unfinished lines are those of the recommendation, at their solver
  dates, or packed anew where a step has none.
 */
module RecommendedPlan {
  import opened Basics
  import opened WorkCalendar
  import opened Rotation
  import opened Packer
  import opened PackLaws
  import opened WeeklyPlan
  import opened PlanLaws
  import opened PlanOrders
  import opened CustomPlan

  /** The same lines, wherever they are not completed. */
  predicate SameOpenLines(a: seq<PlanStep>, b: seq<PlanStep>) {
    |a| == |b| && forall i :: 0 <= i < |a| ==> a[i].completed == b[i].completed && (!a[i].completed ==> a[i] == b[i])
  }

  ghost predicate NotCustomized(rm: Roadmap, completed: set<Id>, asOf: Option<Instant>, saved: Option<Overrides>)
    requires ValidRoadmap(rm) && ValidSaved(saved)
  {
    BuildPlan(rm, completed, asOf, saved).Ready? && !BuildPlan(rm, completed, asOf, saved).plan.isCustomized
  }

  /** The `i`-th line of a plan that is not customized. */
  lemma RecommendedLineAt(rm: Roadmap, completed: set<Id>, asOf: Option<Instant>, saved: Option<Overrides>, i: nat)
    requires ValidRoadmap(rm) && ValidSaved(saved) && NotCustomized(rm, completed, asOf, saved)
    requires i < |BuildPlan(rm, completed, asOf, saved).plan.steps|
    ensures RecommendedPacking(rm, completed).Packed?
    ensures |BuildPlan(rm, completed, asOf, saved).plan.steps| == |RecommendedIds(rm)|
    ensures var k, line := RecommendedIds(rm)[i], BuildPlan(rm, completed, asOf, saved).plan.steps[i];
      var estimates, fixed := RecommendedPacking(rm, completed).schedules, FixedIn(rm, completed, saved);
      && k in ById(rm) && ById(rm)[k].id == k && Scheduling(rm, None, estimates + fixed)
      && line == PlanStepFor(rm, completed, Snapshots(saved), None, fixed, estimates + fixed, i + 1, ById(rm)[k])
  {
    hide RecommendedPacking, FixedSchedules, PackSpec, PlanSteps, ById, ValidRoadmap, Scheduling, PlanStepFor;
    hide StartDate, Collapses, RecommendedIds;
    RecommendedIdsMembers(rm);
    var estimates, fixed := RecommendedPacking(rm, completed).schedules, FixedIn(rm, completed, saved);
    PlanPackingKeys(rm, completed, asOf, None, estimates, fixed);
    PlanStepAt(rm, completed, Snapshots(saved), None, fixed, estimates + fixed, RecommendedIds(rm), i);
  }

  /** An unfinished line does not depend on the snapshots of completed ones. */
  lemma OpenLineSame(rm: Roadmap, completed: set<Id>, a: map<Id, PlanStep>, b: map<Id, PlanStep>,
                     estimates: map<Id, Scheduled>, fixed: map<Id, Scheduled>, fixed': map<Id, Scheduled>, n: nat,
                     k: Id)
    requires ValidRoadmap(rm) && k in ById(rm) && ById(rm)[k].id == k &&
      fixed.Keys == fixed'.Keys == ById(rm).Keys * completed
    requires Scheduling(rm, None, estimates + fixed) && Scheduling(rm, None, estimates + fixed')
    ensures var x := PlanStepFor(rm, completed, a, None, fixed, estimates + fixed, n, ById(rm)[k]);
      var y := PlanStepFor(rm, completed, b, None, fixed', estimates + fixed', n, ById(rm)[k]);
      x.completed == y.completed == (k in completed) && (k !in completed ==> x == y)
  {
    hide ValidRoadmap, ById, HoursFor, ExactAllocations, DatesOf, StartDate, WeekOfDate, Unmet;
    if k !in completed {
      assert k !in fixed && k !in fixed';
      assert k in estimates + fixed <==> k in estimates + fixed';
      assert k in estimates + fixed ==> (estimates + fixed)[k] == (estimates + fixed')[k];
      DatedOrPacked(rm, None, estimates + fixed, ById(rm)[k]);
      UnmetSame(rm, completed, estimates, fixed, fixed', ById(rm)[k], ById(rm)[k].prerequisites);
    }
  }

  lemma {:induction false} UnmetSame(rm: Roadmap, completed: set<Id>, estimates: map<Id, Scheduled>,
                                     fixed: map<Id, Scheduled>, fixed': map<Id, Scheduled>, s: Step,
                                     prerequisites: seq<Id>)
    requires ValidRoadmap(rm) && s.id in ById(rm) && ById(rm)[s.id] == s && s.id !in completed
    requires fixed.Keys == fixed'.Keys == ById(rm).Keys * completed
    requires Scheduling(rm, None, estimates + fixed) && Scheduling(rm, None, estimates + fixed')
    ensures Unmet(rm, completed, None, estimates + fixed, s, prerequisites)
         == Unmet(rm, completed, None, estimates + fixed', s, prerequisites)
  {
    hide ValidRoadmap, ById, Scheduling, IsUnmet;
    if prerequisites != [] {
      var n := |prerequisites| - 1;
      UnmetSame(rm, completed, estimates, fixed, fixed', s, prerequisites[..n]);
      IsUnmetSame(rm, completed, estimates, fixed, fixed', s, prerequisites[n]);
    }
  }

  lemma IsUnmetSame(rm: Roadmap, completed: set<Id>, estimates: map<Id, Scheduled>, fixed: map<Id, Scheduled>,
                    fixed': map<Id, Scheduled>, s: Step, p: Id)
    requires ValidRoadmap(rm) && s.id in ById(rm) && ById(rm)[s.id] == s && s.id !in completed
    requires fixed.Keys == fixed'.Keys == ById(rm).Keys * completed
    requires Scheduling(rm, None, estimates + fixed) && Scheduling(rm, None, estimates + fixed')
    ensures IsUnmet(rm, completed, None, estimates + fixed, s, p) <==>
      IsUnmet(rm, completed, None, estimates + fixed', s, p)
  {
    if p in ById(rm) && p !in completed && !(HasSolverDates(s) && HasSolverDates(ById(rm)[p])) {
      DatedOrEstimate(rm, estimates + fixed, s.id, p);
      assert p !in fixed && p !in fixed' && s.id !in fixed && s.id !in fixed';
    }
  }

  lemma DatedOrEstimate(rm: Roadmap, packed: map<Id, Scheduled>, a: Id, b: Id)
    requires ValidRoadmap(rm) && Scheduling(rm, None, packed) && a in ById(rm) && b in ById(rm)
    requires !HasSolverDates(ById(rm)[a]) || !HasSolverDates(ById(rm)[b])
    ensures a in packed && b in packed
  {
    assert ById(rm)[a] in rm.steps && ById(rm)[b] in rm.steps;
  }

  /** A completed line without a snapshot does not depend on those of others. */
  lemma UnsavedLineSame(rm: Roadmap, completed: set<Id>, saved: map<Id, PlanStep>, estimates: map<Id, Scheduled>,
                        fixed: map<Id, Scheduled>, fixed': map<Id, Scheduled>, n: nat, k: Id)
    requires ValidRoadmap(rm) && k in ById(rm) && ById(rm)[k].id == k && k in completed && k !in saved
    requires k in fixed && k in fixed' && fixed[k] == fixed'[k]
    requires Scheduling(rm, None, estimates + fixed) && Scheduling(rm, None, estimates + fixed')
    ensures PlanStepFor(rm, completed, saved, None, fixed, estimates + fixed, n, ById(rm)[k])
         == PlanStepFor(rm, completed, map[], None, fixed', estimates + fixed', n, ById(rm)[k])
  {
    hide ValidRoadmap, ById, HoursFor, ExactAllocations, DatesOf, StartDate, WeekOfDate, Unmet;
    assert (estimates + fixed)[k] == (estimates + fixed')[k];
  }

  /** A line without a snapshot, completed or not, is the one that the recommendation shows. */
  lemma UnsavedLineShown(rm: Roadmap, completed: set<Id>, asOf: Option<Instant>, saved: Option<Overrides>, i: nat)
    requires ValidRoadmap(rm) && ValidSaved(saved) && NotCustomized(rm, completed, asOf, saved)
    requires i < |BuildPlan(rm, completed, asOf, saved).plan.steps|
    requires BuildPlan(rm, completed, asOf, saved).plan.steps[i].id !in Snapshots(saved)
    ensures NotCustomized(rm, completed, asOf, None) && i < |BuildPlan(rm, completed, asOf, None).plan.steps|
    ensures BuildPlan(rm, completed, asOf, saved).plan.steps[i] == BuildPlan(rm, completed, asOf, None).plan.steps[i]
  {
    hide BuildPlan, ById, ValidRoadmap, PlanStepFor, Scheduling, RecommendedPacking, FixedIn, RecommendedIds;
    BuiltIsEffective(rm, completed, asOf, saved);
    ReadyTogether(rm, completed, asOf, saved);
    RecommendationShown(rm, completed, asOf, saved);
    LineIds(rm, completed, asOf, saved, i);
    RecommendedLineAt(rm, completed, asOf, saved, i);
    RecommendedLineAt(rm, completed, asOf, None, i);
    var k := RecommendedIds(rm)[i];
    if k in completed {
      FixedWithout(rm, completed, saved, k);
      UnsavedLineSame(rm, completed, Snapshots(saved), RecommendedPacking(rm, completed).schedules,
                      FixedIn(rm, completed, saved), FixedIn(rm, completed, None), i + 1, k);
    } else {
      OpenLineState(rm, completed, Snapshots(saved), RecommendedPacking(rm, completed).schedules,
                    FixedIn(rm, completed, saved), i + 1, k);
    }
  }

  lemma BuiltIsEffective(rm: Roadmap, completed: set<Id>, asOf: Option<Instant>, saved: Option<Overrides>)
    requires ValidRoadmap(rm) && ValidSaved(saved) && NotCustomized(rm, completed, asOf, saved)
    ensures Effective(rm, saved).None?
  {
    hide ById, ValidRoadmap, PlanSteps, PlanPacking, RecommendedPacking, FixedSchedules, Effective;
  }

  lemma FixedWithout(rm: Roadmap, completed: set<Id>, saved: Option<Overrides>, k: Id)
    requires ValidRoadmap(rm) && RecommendedPacking(rm, completed).Packed? && k in ById(rm) && k in completed
    requires k !in Snapshots(saved)
    ensures k in FixedIn(rm, completed, saved) && k in FixedIn(rm, completed, None)
    ensures FixedIn(rm, completed, saved)[k] == FixedIn(rm, completed, None)[k]
  {
    hide RecommendedPacking, ExactAllocations, Midnight, InstantOf;
    KnownId(rm, k);
    FixedScheduleOf(rm, completed, Snapshots(saved), RecommendedPacking(rm, completed).schedules, k);
    FixedScheduleOf(rm, completed, Snapshots(None), RecommendedPacking(rm, completed).schedules, k);
  }

  /** A plan that is not customized has the unfinished lines of the recommendation. */
  lemma RecommendationShown(rm: Roadmap, completed: set<Id>, asOf: Option<Instant>, saved: Option<Overrides>)
    requires ValidRoadmap(rm) && ValidSaved(saved) && Effective(rm, saved).None?
    ensures var plan, recommended := BuildPlan(rm, completed, asOf, saved), BuildPlan(rm, completed, asOf, None);
      && (plan.Ready? <==> recommended.Ready?)
      && (plan.Ready? ==> !plan.plan.isCustomized && SameOpenLines(plan.plan.steps, recommended.plan.steps))
  {
    hide BuildPlan, ById, ValidRoadmap, PlanStepFor, Scheduling, RecommendedPacking, FixedIn, RecommendedIds, Effective;
    ReadyTogether(rm, completed, asOf, saved);
    if BuildPlan(rm, completed, asOf, saved).Ready? {
      var x, y := BuildPlan(rm, completed, asOf, saved).plan.steps, BuildPlan(rm, completed, asOf, None).plan.steps;
      forall i | 0 <= i < |x|
        ensures x[i].completed == y[i].completed && (!x[i].completed ==> x[i] == y[i])
      {
        assert NotCustomized(rm, completed, asOf, saved) && NotCustomized(rm, completed, asOf, None);
        RecommendedLineAt(rm, completed, asOf, saved, i);
        RecommendedLineAt(rm, completed, asOf, None, i);
        OpenLineSame(rm, completed, Snapshots(saved), Snapshots(None), RecommendedPacking(rm, completed).schedules,
                     FixedIn(rm, completed, saved), FixedIn(rm, completed, None), i + 1, RecommendedIds(rm)[i]);
      }
    }
  }

  lemma ReadyTogether(rm: Roadmap, completed: set<Id>, asOf: Option<Instant>, saved: Option<Overrides>)
    requires ValidRoadmap(rm) && ValidSaved(saved) && Effective(rm, saved).None?
    ensures var plan, recommended := BuildPlan(rm, completed, asOf, saved), BuildPlan(rm, completed, asOf, None);
      && (plan.Ready? <==> recommended.Ready?)
      && (plan.Ready? ==> !plan.plan.isCustomized && !recommended.plan.isCustomized
                          && |plan.plan.steps| == |recommended.plan.steps|)
  {
    hide RecommendedPacking, FixedSchedules, ById, ValidRoadmap, Scheduling, PlanStepFor, StartDate, Collapses;
    hide RecommendedIds;
  }

  // ---- Unfinished lines ----

  /** Whether a recommended plan should report prerequisite `p` of step `s`. */
  ghost predicate MissesPrerequisite(rm: Roadmap, completed: set<Id>, estimates: map<Id, Scheduled>, s: Step, p: Id)
    requires ValidRoadmap(rm)
  {
    p in s.prerequisites &&
    (p in ById(rm) ==>
      && p !in completed
      && (if HasSolverDates(s) && HasSolverDates(ById(rm)[p])
          then s.plannedStart.value < ById(rm)[p].plannedEnd.value
          else s.id in estimates && p in estimates && estimates[s.id].startsAt < estimates[p].endsAt))
  }

  /** A dated step is shown on its solver dates, with its solver hours per week. */
  ghost predicate ShowsSolverDates(rm: Roadmap, line: PlanStep, s: Step) {
    && HasSolverDates(s)
    && line.startDate == LocalDate(rm.zone, s.plannedStart.value)
    && line.endDate == LastOccupiedDate(rm.zone, s.plannedStart.value, s.plannedEnd.value)
    && line.startWeek == WeekOfDate(StartDate(rm), line.startDate)
    && line.endWeek == WeekOfDate(StartDate(rm), line.endDate)
    && WeeksIncrease(line.allocations)
    && forall v: int :: HoursFrom(line.allocations, v) == CountWeek(rm, s.solverSlots, v)
  }

  lemma OpenLineShows(rm: Roadmap, completed: set<Id>, snapshots: map<Id, PlanStep>, estimates: map<Id, Scheduled>,
                      fixed: map<Id, Scheduled>, n: nat, k: Id)
    requires ValidRoadmap(rm) && k in ById(rm) && ById(rm)[k].id == k && fixed.Keys == ById(rm).Keys * completed
    requires Scheduling(rm, None, estimates + fixed) && k !in completed
    ensures var s := ById(rm)[k];
      var line := PlanStepFor(rm, completed, snapshots, None, fixed, estimates + fixed, n, s);
      && line.id == k && line.number == n && !line.completed && line.hours == Hours(s)
      && (HasSolverDates(s) ==> ShowsSolverDates(rm, line, s))
      && (!HasSolverDates(s) ==> k in estimates && Copies(rm, line, estimates[k]))
      && line.startAt == (if k in estimates then Some(estimates[k].startsAt) else s.plannedStart)
      && line.endAt == (if k in estimates then Some(estimates[k].endsAt) else s.plannedEnd)
  {
    hide ValidRoadmap, ById, Hours, DatesOf, StartDate, WeekOfDate, Unmet, LocalDate, LastOccupiedDate;
    hide ExactAllocations, WeeksIncrease, HoursFrom, CountWeek;
    var s := ById(rm)[k];
    assert k !in fixed;
    DatedOrPacked(rm, None, estimates + fixed, s);
    DatesAre(rm.zone, s);
    if HasSolverDates(s) {
      forall v: int
        ensures WeeksIncrease(ExactAllocations(rm, s.solverSlots))
        ensures HoursFrom(ExactAllocations(rm, s.solverSlots), v) == CountWeek(rm, s.solverSlots, v)
      {
        ExactAllocationsCount(rm, s.solverSlots, v);
      }
      ExactAllocationsCount(rm, s.solverSlots, 0);
    } else {
      EstimateDates(rm.zone, estimates[k]);
    }
  }

  lemma DatesAre(zone: int, s: Step)
    ensures HasSolverDates(s) ==>
      var d := DatesOf(zone, s.plannedStart.value, s.plannedEnd.value);
      d.first == LocalDate(zone, s.plannedStart.value) &&
      d.last == LastOccupiedDate(zone, s.plannedStart.value, s.plannedEnd.value)
  {
  }

  lemma EstimateDates(zone: int, s: Scheduled)
    ensures var d := DatesOf(zone, s.startsAt, s.endsAt);
      d.first == LocalDate(zone, s.startsAt) && d.last == LastOccupiedDate(zone, s.startsAt, s.endsAt)
  {
  }

  lemma OpenLineReports(rm: Roadmap, completed: set<Id>, snapshots: map<Id, PlanStep>, estimates: map<Id, Scheduled>,
                        fixed: map<Id, Scheduled>, n: nat, k: Id, p: Id)
    requires ValidRoadmap(rm) && k in ById(rm) && ById(rm)[k].id == k && fixed.Keys == ById(rm).Keys * completed
    requires Scheduling(rm, None, estimates + fixed) && k !in completed
    ensures var s := ById(rm)[k];
      var line := PlanStepFor(rm, completed, snapshots, None, fixed, estimates + fixed, n, s);
      p in line.unmet <==> MissesPrerequisite(rm, completed, estimates, s, p)
  {
    hide ValidRoadmap, ById, HoursFor, DatesOf, StartDate, WeekOfDate, Unmet, LocalDate, LastOccupiedDate;
    hide ExactAllocations;
    var s := ById(rm)[k];
    assert k !in fixed;
    if p in ById(rm) && p !in completed && !(HasSolverDates(s) && HasSolverDates(ById(rm)[p])) {
      assert p !in fixed;
      DatedOrEstimate(rm, estimates + fixed, k, p);
    }
  }

  /**
    An unfinished line of a plan that is not customized: its hours are its own, it stands at its solver dates, or
    where it is packed anew if it has none, and it reports exactly the prerequisites that are unknown, or
    unfinished and end after it starts.
   */
  lemma RecommendedLine(rm: Roadmap, completed: set<Id>, asOf: Option<Instant>, saved: Option<Overrides>, i: nat)
    requires ValidRoadmap(rm) && ValidSaved(saved) && NotCustomized(rm, completed, asOf, saved)
    requires i < |BuildPlan(rm, completed, asOf, saved).plan.steps|
    requires !BuildPlan(rm, completed, asOf, saved).plan.steps[i].completed
    ensures RecommendedPacking(rm, completed).Packed?
    ensures var line := BuildPlan(rm, completed, asOf, saved).plan.steps[i];
      var estimates := RecommendedPacking(rm, completed).schedules;
      && line.id in ById(rm) && line.number == i + 1
      && var s := ById(rm)[line.id];
         && line.hours == Hours(s)
         && (HasSolverDates(s) ==> ShowsSolverDates(rm, line, s))
         && (!HasSolverDates(s) ==> s.id in estimates && Copies(rm, line, estimates[s.id]))
         && line.startAt == (if s.id in estimates then Some(estimates[s.id].startsAt) else s.plannedStart)
         && line.endAt == (if s.id in estimates then Some(estimates[s.id].endsAt) else s.plannedEnd)
         && forall p :: p in line.unmet <==> MissesPrerequisite(rm, completed, estimates, s, p)
  {
    hide BuildPlan, ById, ValidRoadmap, PlanStepFor, Scheduling, RecommendedPacking, FixedIn, RecommendedIds, Effective;
    hide ShowsSolverDates, Copies, MissesPrerequisite, HasSolverDates, Hours;
    RecommendedLineAt(rm, completed, asOf, saved, i);
    LineIds(rm, completed, asOf, saved, i);
    var k, estimates, fixed := RecommendedIds(rm)[i], RecommendedPacking(rm, completed).schedules,
      FixedIn(rm, completed, saved);
    OpenLineState(rm, completed, Snapshots(saved), estimates, fixed, i + 1, k);
    OpenLineShows(rm, completed, Snapshots(saved), estimates, fixed, i + 1, k);
    forall p
      ensures p in BuildPlan(rm, completed, asOf, saved).plan.steps[i].unmet <==>
        MissesPrerequisite(rm, completed, estimates, ById(rm)[k], p)
    {
      OpenLineReports(rm, completed, Snapshots(saved), estimates, fixed, i + 1, k, p);
    }
  }

  lemma OpenLineState(rm: Roadmap, completed: set<Id>, snapshots: map<Id, PlanStep>, estimates: map<Id, Scheduled>,
                      fixed: map<Id, Scheduled>, n: nat, k: Id)
    requires ValidRoadmap(rm) && k in ById(rm) && ById(rm)[k].id == k && Scheduling(rm, None, estimates + fixed)
    ensures PlanStepFor(rm, completed, snapshots, None, fixed, estimates + fixed, n, ById(rm)[k]).completed <==>
      k in completed
  {
    hide ValidRoadmap, ById, HoursFor, DatesOf, StartDate, WeekOfDate, Unmet, ExactAllocations;
  }

  // ---- The plan's start ----

  lemma {:induction false} EarliestIsEarliest(steps: seq<Step>, none: Instant)
    ensures forall s <- steps :: HasSolverDates(s) ==> EarliestStart(steps, none) <= s.plannedStart.value
    ensures (exists s <- steps :: HasSolverDates(s) && s.plannedStart.value == EarliestStart(steps, none)) ||
            (EarliestStart(steps, none) == none && forall s <- steps :: !HasSolverDates(s))
  {
    if steps != [] {
      var first, rest := steps[0], steps[1..];
      assert steps == [first] + rest && first in steps;
      EarliestIsEarliest(rest, none);
    }
  }

  /**
    The plan starts with the earliest solver start of a dated step, or with the roadmap if no step is dated; its
    first week is the week of Monday to Sunday that holds this start.
   */
  lemma PlanStart(rm: Roadmap)
    ensures forall s <- rm.steps :: HasSolverDates(s) ==> StartsAt(rm) <= s.plannedStart.value
    ensures (exists s <- rm.steps :: HasSolverDates(s) && s.plannedStart.value == StartsAt(rm)) ||
            (StartsAt(rm) == rm.createdAt && forall s <- rm.steps :: !HasSolverDates(s))
    ensures StartDate(rm) % 7 == 0 && WeekOfInstant(rm, StartsAt(rm)) == 1
  {
    hide EarliestStart, HasSolverDates;
    EarliestIsEarliest(rm.steps, rm.createdAt);
  }

  /**
    Steps without dates are placed by packing all steps anew: from the plan's start, in the roadmap's calendar
    without rest weeks, with the recommended weekly hours, and around nothing.
   */
  lemma EstimatesArePacked(rm: Roadmap, completed: set<Id>) returns (job: Job)
    requires ValidRoadmap(rm) && exists s <- rm.steps :: !HasSolverDates(s)
    ensures ValidJob(job) && RecommendedPacking(rm, completed) == PackSpec(job)
    ensures job.from == StartsAt(rm) && job.fixedIds == [] && job.fixed == map[]
    ensures job.grid == Grid(rm.zone, StartDate(rm), rm.weekly, {}, rm.unavailable, rm.windows)
    ensures job.work == WorkFor(rm, completed, None, {})
  {
    hide PackSpec, ById, ValidRoadmap, StartsAt, StartDate, WorkFor, HasSolverDates;
    var nothing: map<Id, Scheduled> := map[];
    assert nothing.Keys == {};
    job := JobFor(rm, completed, None, None, [], nothing);
  }

  /**
    Custom work is packed in the roadmap's calendar with the saved weekly hours and rest weeks, around
    completed steps.
   */
  lemma CustomIsPacked(rm: Roadmap, completed: set<Id>, asOf: Option<Instant>, saved: Option<Overrides>)
    requires ValidRoadmap(rm) && ValidSaved(saved) && Customized(rm, completed, asOf, saved)
    ensures saved.Some? && RecommendedPacking(rm, completed).Packed?
    ensures var job := PlanJob(rm, completed, asOf, saved);
      && job.grid == Grid(rm.zone, StartDate(rm), saved.value.weekly, saved.value.rests, rm.unavailable, rm.windows)
      && job.fixed == FixedIn(rm, completed, saved) && job.fixed.Keys == ById(rm).Keys * completed
      && job.work == WorkFor(rm, completed, saved, ById(rm).Keys * completed)
  {
    hide PackSpec, ById, ValidRoadmap, StartDate, WorkFor, Customized, FixedIn, Lines, Scheduling, PlanOrder;
    PlanIsPacked(rm, completed, asOf, saved);
    JobStartsLate(rm, completed, asOf, saved);
    CustomWork(rm, completed, asOf, saved, FixedIn(rm, completed, saved));
  }

  /** Where completed work stands: as it was saved, else at its solver dates, else where it is estimated. */
  lemma CompletedStands(rm: Roadmap, completed: set<Id>, saved: Option<Overrides>, k: Id)
    requires ValidRoadmap(rm) && RecommendedPacking(rm, completed).Packed? && k in ById(rm) && k in completed
    ensures k in FixedIn(rm, completed, saved)
    ensures var s, fixed := ById(rm)[k], FixedIn(rm, completed, saved)[k];
      if k in Snapshots(saved) then
        var line := Snapshots(saved)[k];
        && fixed.allocations == line.allocations
        && fixed.startsAt == (if line.startAt.Some? then line.startAt.value
                              else InstantOf(Midnight(rm.zone, line.startDate)))
        && fixed.endsAt == (if line.endAt.Some? then line.endAt.value
                            else InstantOf(Midnight(rm.zone, line.endDate + 1)))
      else if HasSolverDates(s) then
        fixed == Scheduled(s.plannedStart.value, s.plannedEnd.value, ExactAllocations(rm, s.solverSlots))
      else k in RecommendedPacking(rm, completed).schedules && fixed == RecommendedPacking(rm, completed).schedules[k]
  {
    hide RecommendedPacking, ExactAllocations, Midnight, InstantOf;
    KnownId(rm, k);
    FixedScheduleOf(rm, completed, Snapshots(saved), RecommendedPacking(rm, completed).schedules, k);
  }
}
