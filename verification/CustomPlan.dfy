/**
  What a customized plan shows: every unfinished line stands for a set of open hours of its own, after all
  completed work and after the save in effect, and no week is overbooked.
 */
module CustomPlan {
  import opened Basics
  import opened WorkCalendar
  import opened SlotScan
  import opened Rotation
  import opened Packer
  import opened PackLaws
  import opened WeeklyPlan
  import opened PlanLaws

  ghost predicate Customized(rm: Roadmap, completed: set<Id>, asOf: Option<Instant>, saved: Option<Overrides>)
    requires ValidRoadmap(rm) && ValidSaved(saved)
  {
    BuildPlan(rm, completed, asOf, saved).Ready? && BuildPlan(rm, completed, asOf, saved).plan.isCustomized
  }

  ghost function Lines(rm: Roadmap, completed: set<Id>, asOf: Option<Instant>, saved: Option<Overrides>): seq<PlanStep>
    requires ValidRoadmap(rm) && ValidSaved(saved) && Customized(rm, completed, asOf, saved)
  {
    BuildPlan(rm, completed, asOf, saved).plan.steps
  }

  ghost function FixedIn(rm: Roadmap, completed: set<Id>, saved: Option<Overrides>): (fixed: map<Id, Scheduled>)
    requires ValidRoadmap(rm) && RecommendedPacking(rm, completed).Packed?
    ensures fixed.Keys == ById(rm).Keys * completed
  {
    FixedSchedules(rm, completed, Snapshots(saved), RecommendedPacking(rm, completed).schedules)
  }

  /** The packing behind a customized plan. */
  ghost function PlanJob(rm: Roadmap, completed: set<Id>, asOf: Option<Instant>, saved: Option<Overrides>): (job: Job)
    requires ValidRoadmap(rm) && ValidSaved(saved) && Customized(rm, completed, asOf, saved)
    ensures ValidJob(job)
  {
    CustomJob(rm, completed, asOf, saved, FixedIn(rm, completed, saved))
  }

  lemma PlanIsPacked(rm: Roadmap, completed: set<Id>, asOf: Option<Instant>, saved: Option<Overrides>)
    requires ValidRoadmap(rm) && ValidSaved(saved) && Customized(rm, completed, asOf, saved)
    ensures saved.Some? && RecommendedPacking(rm, completed).Packed?
    ensures PackSpec(PlanJob(rm, completed, asOf, saved)).Packed?
    ensures var packed := PackSpec(PlanJob(rm, completed, asOf, saved)).schedules;
      Scheduling(rm, saved, packed) && Lines(rm, completed, asOf, saved)
        == PlanSteps(rm, completed, Snapshots(saved), saved, FixedIn(rm, completed, saved), packed,
                     PlanOrder(rm, saved))
  {
    hide RecommendedPacking, FixedSchedules, PackSpec, CustomJob, PlanSteps, PlanOrder, ById, ValidRoadmap, Scheduling;
    hide StartDate, Collapses;
    var recommended := RecommendedPacking(rm, completed).schedules;
    PlanPackingKeys(rm, completed, asOf, saved, recommended, FixedIn(rm, completed, saved));
  }

  /** The hours a step works in a customized plan. */
  ghost function HoursShown(rm: Roadmap, completed: set<Id>, asOf: Option<Instant>, saved: Option<Overrides>,
                            k: Id): set<Hour>
    requires ValidRoadmap(rm) && ValidSaved(saved) && Customized(rm, completed, asOf, saved)
  {
    PlanIsPacked(rm, completed, asOf, saved);
    PackedShape(PlanJob(rm, completed, asOf, saved));
    HoursOf(PlanJob(rm, completed, asOf, saved), k)
  }

  // ---- One line ----

  /** The `i`-th line is that of the `i`-th step of the order. */
  lemma LineAt(rm: Roadmap, completed: set<Id>, asOf: Option<Instant>, saved: Option<Overrides>, i: nat)
    requires ValidRoadmap(rm) && ValidSaved(saved) && Customized(rm, completed, asOf, saved)
    requires i < |Lines(rm, completed, asOf, saved)|
    ensures |Lines(rm, completed, asOf, saved)| == |PlanOrder(rm, saved)|
    ensures var k, line := PlanOrder(rm, saved)[i], Lines(rm, completed, asOf, saved)[i];
      var packed := PackSpec(PlanJob(rm, completed, asOf, saved)).schedules;
      && saved.Some? && k in ById(rm) && ById(rm)[k].id == k && Scheduling(rm, saved, packed)
      && line == PlanStepFor(rm, completed, Snapshots(saved), saved, FixedIn(rm, completed, saved), packed,
                             i + 1, ById(rm)[k])
  {
    hide PackSpec, PlanJob, PlanStepFor, PlanOrder, ById, ValidRoadmap, Scheduling, Lines;
    PlanIsPacked(rm, completed, asOf, saved);
    PlanStepAt(rm, completed, Snapshots(saved), saved, FixedIn(rm, completed, saved),
               PackSpec(PlanJob(rm, completed, asOf, saved)).schedules, PlanOrder(rm, saved), i);
  }

  /** The line shows the hours: its instants, dates, weeks and allocations are theirs. */
  ghost predicate Shows(g: Grid, line: PlanStep, hours: set<Hour>, lo: Hour, hi: Hour) {
    && line.startAt.Some? && line.endAt.Some?
    && Describes(g, Scheduled(line.startAt.value, line.endAt.value, line.allocations), hours, lo, hi)
    && line.startDate == DateOfHour(g.zone, lo) && line.endDate == DateOfHour(g.zone, hi)
    && line.startWeek == WeekOf(g, lo) && line.endWeek == WeekOf(g, hi)
  }

  /** The instant from which a customized plan may place work. */
  function SaveInEffect(asOf: Instant, ov: Overrides): Instant {
    if ov.savedAt.Some? then ov.savedAt.value else asOf
  }

  /** The packing uses the plan's calendar, and starts after all completed work and the save in effect. */
  lemma JobStartsLate(rm: Roadmap, completed: set<Id>, asOf: Option<Instant>, saved: Option<Overrides>)
    requires ValidRoadmap(rm) && ValidSaved(saved) && Customized(rm, completed, asOf, saved)
    ensures saved.Some? && RecommendedPacking(rm, completed).Packed?
    ensures var job, fixed := PlanJob(rm, completed, asOf, saved), FixedIn(rm, completed, saved);
      && job.grid == GridFor(rm, saved) && job.fixed == fixed && Members(job.work.order) == ById(rm).Keys - completed
      && (asOf.Some? ==> SaveInEffect(asOf.value, saved.value) <= job.from)
      && forall p <- fixed :: fixed[p].endsAt <= job.from
  {
    hide PackSpec, PlanOrder, ById, ValidRoadmap, Customized, CustomJob, FixedIn, GridFor, SaveInEffect;
    hide Scheduling, Lines;
    PlanIsPacked(rm, completed, asOf, saved);
    CustomJobStartsLate(rm, completed, asOf, saved, FixedIn(rm, completed, saved));
  }

  lemma CustomJobStartsLate(rm: Roadmap, completed: set<Id>, asOf: Option<Instant>, ov: Option<Overrides>,
                            fixed: map<Id, Scheduled>)
    requires ValidRoadmap(rm) && ValidSaved(ov) && ov.Some? && fixed.Keys == ById(rm).Keys * completed
    ensures var job := CustomJob(rm, completed, asOf, ov, fixed);
      && job.grid == GridFor(rm, ov)
      && (asOf.Some? ==> SaveInEffect(asOf.value, ov.value) <= job.from)
      && forall p <- fixed :: fixed[p].endsAt <= job.from
  {
    hide FutureStart, WorkFor, FixedIds, GridFor, ById, ValidRoadmap;
    var job := CustomJob(rm, completed, asOf, ov, fixed);
    assert job.from == FutureStart(rm, asOf, ov, FixedIds(rm, completed), fixed);
    forall p | p in fixed
      ensures fixed[p].endsAt <= job.from
    {
    }
  }

  /**
    Every unfinished line shows the hours its step works; they are open in the calendar of the plan and
    start no earlier than the packing.
   */
  lemma LineShowsHours(rm: Roadmap, completed: set<Id>, asOf: Option<Instant>, saved: Option<Overrides>, i: nat)
      returns (lo: Hour, hi: Hour)
    requires ValidRoadmap(rm) && ValidSaved(saved) && Customized(rm, completed, asOf, saved)
    requires i < |Lines(rm, completed, asOf, saved)| && !Lines(rm, completed, asOf, saved)[i].completed
    ensures var line := Lines(rm, completed, asOf, saved)[i];
      var hours := HoursShown(rm, completed, asOf, saved, line.id);
      && Shows(GridFor(rm, saved), line, hours, lo, hi) && (forall h <- hours :: Open(GridFor(rm, saved), h))
      && PlanJob(rm, completed, asOf, saved).from <= line.startAt.value
  {
    hide PackSpec, PlanStepFor, PlanOrder, ById, ValidRoadmap, Scheduling, Lines, Describes, Open, HoursOf, FixedIn;
    hide Customized, FutureStart, WorkFor, PlanJob, Shows, Copies, GridFor, StartDate;
    var job := PlanJob(rm, completed, asOf, saved);
    LineAt(rm, completed, asOf, saved, i);
    var k := PlanOrder(rm, saved)[i];
    PlanIsPacked(rm, completed, asOf, saved);
    JobStartsLate(rm, completed, asOf, saved);
    UnfinishedStep(rm, completed, Snapshots(saved), saved, FixedIn(rm, completed, saved), PackSpec(job).schedules,
                   i + 1, k);
    assert k in Members(job.work.order);
    lo, hi := PackedDescribes(job, k);
    GridIsTheRoadmaps(rm, saved);
    LineShows(rm, GridFor(rm, saved), PackSpec(job).schedules[k], Lines(rm, completed, asOf, saved)[i],
              HoursOf(job, k), lo, hi);
    DescribesBounds(job.grid, PackSpec(job).schedules[k], HoursOf(job, k), lo, hi);
    CopiedStart(rm, Lines(rm, completed, asOf, saved)[i], PackSpec(job).schedules[k]);
  }

  lemma GridIsTheRoadmaps(rm: Roadmap, ov: Option<Overrides>)
    ensures GridFor(rm, ov).zone == rm.zone && GridFor(rm, ov).start == StartDate(rm)
  {
  }

  lemma CopiedStart(rm: Roadmap, line: PlanStep, s: Scheduled)
    requires Copies(rm, line, s)
    ensures line.startAt == Some(s.startsAt) && line.endAt == Some(s.endsAt)
  {
  }

  /** Where an unfinished line comes from. */
  lemma UnfinishedStep(rm: Roadmap, completed: set<Id>, snapshots: map<Id, PlanStep>, ov: Option<Overrides>,
                       fixed: map<Id, Scheduled>, packed: map<Id, Scheduled>, number: nat, k: Id)
    requires ValidRoadmap(rm) && ov.Some? && k in ById(rm) && ById(rm)[k].id == k && Scheduling(rm, ov, packed)
    requires fixed.Keys == ById(rm).Keys * completed
    ensures var line := PlanStepFor(rm, completed, snapshots, ov, fixed, packed, number, ById(rm)[k]);
      && line.id == k && (line.completed <==> k in completed)
      && (!line.completed ==> k in packed && Copies(rm, line, packed[k]) && line.hours == HoursFor(ov, ById(rm)[k]))
  {
    hide ValidRoadmap, ById, HoursFor, Unmet, ExactAllocations, LocalDate, LastOccupiedDate, WeekOfDate, StartDate;
  }

  /** The line has the instants, dates, weeks and allocations of the schedule. */
  predicate Copies(rm: Roadmap, line: PlanStep, s: Scheduled) {
    && line.startAt == Some(s.startsAt) && line.endAt == Some(s.endsAt) && line.allocations == s.allocations
    && line.startDate == LocalDate(rm.zone, s.startsAt)
    && line.endDate == LastOccupiedDate(rm.zone, s.startsAt, s.endsAt)
    && line.startWeek == WeekOfDate(StartDate(rm), line.startDate)
    && line.endWeek == WeekOfDate(StartDate(rm), line.endDate)
  }

  lemma LineShows(rm: Roadmap, g: Grid, s: Scheduled, line: PlanStep, hours: set<Hour>, lo: Hour, hi: Hour)
    requires Copies(rm, line, s) && Describes(g, s, hours, lo, hi) && g.zone == rm.zone && g.start == StartDate(rm)
    ensures Shows(g, line, hours, lo, hi)
  {
    hide StartDate, LocalDate, LastOccupiedDate, WeekOfDate, DateOfHour, InstantOf;
    WholeHourDates(g.zone, lo, hi);
  }

  // ---- The lines together ----

  /** An unfinished line starts after every completed one has ended. */
  lemma StartsAfterCompleted(rm: Roadmap, completed: set<Id>, asOf: Option<Instant>, saved: Option<Overrides>, i: nat,
                             j: nat)
    requires ValidRoadmap(rm) && ValidSaved(saved) && Customized(rm, completed, asOf, saved)
    requires i < |Lines(rm, completed, asOf, saved)| && j < |Lines(rm, completed, asOf, saved)|
    requires !Lines(rm, completed, asOf, saved)[i].completed && Lines(rm, completed, asOf, saved)[j].completed
    ensures var line, done := Lines(rm, completed, asOf, saved)[i], Lines(rm, completed, asOf, saved)[j];
      line.startAt.Some? && done.endAt.Some? && done.endAt.value <= line.startAt.value
  {
    hide PackSpec, PlanStepFor, PlanOrder, ById, ValidRoadmap, Scheduling, Lines, FixedIn, Customized, PlanJob;
    hide GridFor, Open, Describes;
    var lo, hi := LineShowsHours(rm, completed, asOf, saved, i);
    JobStartsLate(rm, completed, asOf, saved);
    CompletedEnd(rm, completed, asOf, saved, j);
  }

  /** An unfinished line starts no earlier than the save in effect. */
  lemma StartsAfterSave(rm: Roadmap, completed: set<Id>, asOf: Option<Instant>, saved: Option<Overrides>, i: nat)
    requires ValidRoadmap(rm) && ValidSaved(saved) && Customized(rm, completed, asOf, saved) && asOf.Some?
    requires i < |Lines(rm, completed, asOf, saved)| && !Lines(rm, completed, asOf, saved)[i].completed
    ensures var line := Lines(rm, completed, asOf, saved)[i];
      saved.Some? && line.startAt.Some? && SaveInEffect(asOf.value, saved.value) <= line.startAt.value
  {
    hide PackSpec, ById, ValidRoadmap, Lines, FixedIn, Customized, PlanJob, GridFor, Open, Describes, SaveInEffect;
    var lo, hi := LineShowsHours(rm, completed, asOf, saved, i);
    JobStartsLate(rm, completed, asOf, saved);
  }

  /** A completed line ends and is allocated as it was fixed. */
  lemma CompletedEnd(rm: Roadmap, completed: set<Id>, asOf: Option<Instant>, saved: Option<Overrides>, j: nat)
    requires ValidRoadmap(rm) && ValidSaved(saved) && Customized(rm, completed, asOf, saved)
    requires j < |Lines(rm, completed, asOf, saved)| && Lines(rm, completed, asOf, saved)[j].completed
    ensures RecommendedPacking(rm, completed).Packed?
    ensures var line, fixed := Lines(rm, completed, asOf, saved)[j], FixedIn(rm, completed, saved);
      line.id in fixed && line.endAt == Some(fixed[line.id].endsAt) && line.allocations == fixed[line.id].allocations
  {
    hide PackSpec, PlanStepFor, PlanOrder, ById, ValidRoadmap, Scheduling, Lines, FixedIn, Customized, PlanJob, GridFor;
    var job := PlanJob(rm, completed, asOf, saved);
    LineAt(rm, completed, asOf, saved, j);
    var k := PlanOrder(rm, saved)[j];
    PlanIsPacked(rm, completed, asOf, saved);
    JobStartsLate(rm, completed, asOf, saved);
    PackedKeys(job);
    var snapshots, fixed := Snapshots(saved), FixedIn(rm, completed, saved);
    UnfinishedStep(rm, completed, snapshots, saved, fixed, PackSpec(job).schedules, j + 1, k);
    SnapshotIsFixed(rm, completed, saved, k);
    CompletedStep(rm, completed, snapshots, saved, fixed, PackSpec(job).schedules, j + 1, k);
  }

  lemma SnapshotIsFixed(rm: Roadmap, completed: set<Id>, saved: Option<Overrides>, k: Id)
    requires ValidRoadmap(rm) && RecommendedPacking(rm, completed).Packed? && k in ById(rm) && k in completed
    requires ById(rm)[k].id == k
    ensures k in FixedIn(rm, completed, saved)
    ensures k in Snapshots(saved) ==> FixedIn(rm, completed, saved)[k].allocations == Snapshots(saved)[k].allocations
  {
    hide RecommendedPacking, ValidRoadmap;
  }

  lemma CompletedStep(rm: Roadmap, completed: set<Id>, snapshots: map<Id, PlanStep>, ov: Option<Overrides>,
                      fixed: map<Id, Scheduled>, packed: map<Id, Scheduled>, number: nat, k: Id)
    requires ValidRoadmap(rm) && ov.Some? && k in ById(rm) && ById(rm)[k].id == k && Scheduling(rm, ov, packed)
    requires k in completed && k in fixed && k in packed && packed[k] == fixed[k]
    requires k in snapshots ==> fixed[k].allocations == snapshots[k].allocations
    ensures var line := PlanStepFor(rm, completed, snapshots, ov, fixed, packed, number, ById(rm)[k]);
      line.endAt == Some(fixed[k].endsAt) && line.allocations == fixed[k].allocations
  {
    hide ValidRoadmap, ById, HoursFor, Unmet, ExactAllocations, LocalDate, LastOccupiedDate, WeekOfDate, StartDate;
  }

  /** No hour is shown for two steps. */
  lemma LinesApart(rm: Roadmap, completed: set<Id>, asOf: Option<Instant>, saved: Option<Overrides>, k: Id, k': Id)
    requires ValidRoadmap(rm) && ValidSaved(saved) && Customized(rm, completed, asOf, saved) && k != k'
    ensures HoursShown(rm, completed, asOf, saved, k) !! HoursShown(rm, completed, asOf, saved, k')
  {
    hide PackSpec, PlanJob, Customized, HoursOf, ValidRoadmap;
    PlanIsPacked(rm, completed, asOf, saved);
    PackedShape(PlanJob(rm, completed, asOf, saved));
    HoursDisjoint(PlanJob(rm, completed, asOf, saved), k, k');
  }

  // ---- Exact hours ----

  /** Every unfinished step asks for an hour. */
  predicate AllPositive(rm: Roadmap, completed: set<Id>, ov: Option<Overrides>) {
    forall s <- rm.steps :: s.id !in completed ==> HoursFor(ov, s) >= 1
  }

  lemma HoursAsked(rm: Roadmap, completed: set<Id>, asOf: Option<Instant>, ov: Option<Overrides>,
                   fixed: map<Id, Scheduled>, k: Id)
    requires ValidRoadmap(rm) && ValidSaved(ov) && fixed.Keys == ById(rm).Keys * completed
    requires k in ById(rm) && k !in completed
    ensures var w := CustomJob(rm, completed, asOf, ov, fixed).work;
      k in w.hours && w.hours[k] == HoursFor(ov, ById(rm)[k]) && k in Members(w.order)
  {
    hide ByPosition, PlanOrder, Preferred, HoursFor, OpenPrerequisites, FutureStart, GridFor, ById, ValidRoadmap;
    hide FixedIds;
    hide OrderToPlan, WaitsToPlan;
  }

  lemma AllPositiveById(rm: Roadmap, completed: set<Id>, ov: Option<Overrides>)
    requires ValidRoadmap(rm)
    ensures AllPositive(rm, completed, ov) <==>
      forall k <- ById(rm).Keys :: k !in completed ==> HoursFor(ov, ById(rm)[k]) >= 1
  {
    hide HoursFor;
    forall s | s in rm.steps
      ensures s.id in ById(rm).Keys && ById(rm)[s.id] == s
    {
      var i :| 0 <= i < |rm.steps| && rm.steps[i] == s;
    }
    assert forall k <- ById(rm).Keys :: ById(rm)[k] in rm.steps && ById(rm)[k].id == k;
  }

  lemma PositiveIff(rm: Roadmap, completed: set<Id>, asOf: Option<Instant>, ov: Option<Overrides>,
                    fixed: map<Id, Scheduled>)
    requires ValidRoadmap(rm) && ValidSaved(ov) && fixed.Keys == ById(rm).Keys * completed
    ensures Positive(CustomJob(rm, completed, asOf, ov, fixed).work) <==> AllPositive(rm, completed, ov)
  {
    hide HoursFor, CustomJob, ById, ValidRoadmap, AllPositive;
    var w := CustomJob(rm, completed, asOf, ov, fixed).work;
    AllPositiveById(rm, completed, ov);
    forall k | k in ById(rm).Keys && k !in completed
      ensures k in Members(w.order) && k in w.hours && w.hours[k] == HoursFor(ov, ById(rm)[k])
    {
      HoursAsked(rm, completed, asOf, ov, fixed, k);
    }
    assert forall k <- w.order :: k in Members(w.order);
  }

  ghost predicate LinesExact(lines: seq<PlanStep>) {
    forall i :: 0 <= i < |lines| && !lines[i].completed ==> TotalHours(lines[i].allocations) == lines[i].hours
  }

  /** An unfinished line has the allocations of its packing and shows the hours its step asks for. */
  lemma LineHours(rm: Roadmap, completed: set<Id>, asOf: Option<Instant>, saved: Option<Overrides>, i: nat)
    requires ValidRoadmap(rm) && ValidSaved(saved) && Customized(rm, completed, asOf, saved)
    requires i < |Lines(rm, completed, asOf, saved)|
    ensures |Lines(rm, completed, asOf, saved)| == |PlanOrder(rm, saved)|
    ensures var k, line := PlanOrder(rm, saved)[i], Lines(rm, completed, asOf, saved)[i];
      var job := PlanJob(rm, completed, asOf, saved);
      && k in ById(rm) && line.id == k && (line.completed <==> k in completed) && PackSpec(job).Packed?
      && k in PackSpec(job).schedules && line.allocations == PackSpec(job).schedules[k].allocations
      && (!line.completed ==> k in job.work.hours && line.hours == job.work.hours[k])
  {
    hide PackSpec, PlanStepFor, PlanOrder, ById, ValidRoadmap, Scheduling, Lines, FixedIn, Customized, HoursFor;
    hide CustomJob, AllPositive;
    var job := PlanJob(rm, completed, asOf, saved);
    LineAt(rm, completed, asOf, saved, i);
    var k := PlanOrder(rm, saved)[i];
    PlanIsPacked(rm, completed, asOf, saved);
    JobStartsLate(rm, completed, asOf, saved);
    var fixed := FixedIn(rm, completed, saved);
    UnfinishedStep(rm, completed, Snapshots(saved), saved, fixed, PackSpec(job).schedules, i + 1, k);
    if k in completed {
      CompletedEnd(rm, completed, asOf, saved, i);
      PackedKeys(job);
    } else {
      HoursAsked(rm, completed, asOf, saved, fixed, k);
    }
  }

  lemma LineAsks(rm: Roadmap, completed: set<Id>, asOf: Option<Instant>, saved: Option<Overrides>, i: nat)
    requires ValidRoadmap(rm) && ValidSaved(saved) && Customized(rm, completed, asOf, saved)
    requires i < |Lines(rm, completed, asOf, saved)| && !Lines(rm, completed, asOf, saved)[i].completed
    ensures var line := Lines(rm, completed, asOf, saved)[i];
      line.id in ById(rm) && line.hours == HoursFor(saved, ById(rm)[line.id])
  {
    hide PackSpec, PlanStepFor, PlanOrder, ById, ValidRoadmap, Scheduling, Lines, FixedIn, Customized, HoursFor;
    var job := PlanJob(rm, completed, asOf, saved);
    LineAt(rm, completed, asOf, saved, i);
    PlanIsPacked(rm, completed, asOf, saved);
    UnfinishedStep(rm, completed, Snapshots(saved), saved, FixedIn(rm, completed, saved), PackSpec(job).schedules,
                   i + 1, PlanOrder(rm, saved)[i]);
  }

  /** All unfinished lines are allocated exactly the hours they show if and only if none asks for zero. */
  lemma ExactLinesIffPositive(rm: Roadmap, completed: set<Id>, asOf: Option<Instant>, saved: Option<Overrides>)
    requires ValidRoadmap(rm) && ValidSaved(saved) && Customized(rm, completed, asOf, saved)
    ensures LinesExact(Lines(rm, completed, asOf, saved)) <==> AllPositive(rm, completed, saved)
  {
    hide PackSpec, PlanOrder, ById, ValidRoadmap, Lines, FixedIn, Customized, CustomJob, TotalHours, Positive;
    hide AllPositive;
    var job, lines, ids := PlanJob(rm, completed, asOf, saved), Lines(rm, completed, asOf, saved), PlanOrder(rm, saved);
    PlanIsPacked(rm, completed, asOf, saved);
    JobStartsLate(rm, completed, asOf, saved);
    PositiveIff(rm, completed, asOf, saved, FixedIn(rm, completed, saved));
    ExactIffPositive(job);
    LineCount(rm, completed, asOf, saved);
    forall i | 0 <= i < |lines|
      ensures ids[i] in ById(rm) && (lines[i].completed <==> ids[i] in completed)
      ensures ids[i] in PackSpec(job).schedules && lines[i].allocations == PackSpec(job).schedules[ids[i]].allocations
      ensures !lines[i].completed ==> ids[i] in job.work.hours && lines[i].hours == job.work.hours[ids[i]]
    {
      LineHours(rm, completed, asOf, saved, i);
    }
    if AllExact(job.work, PackSpec(job).schedules) {
      forall i | 0 <= i < |lines| && !lines[i].completed
        ensures TotalHours(lines[i].allocations) == lines[i].hours
      {
        assert ids[i] in Members(job.work.order);
      }
    }
    if LinesExact(lines) {
      forall k | k in Members(job.work.order)
        ensures k in PackSpec(job).schedules && TotalHours(PackSpec(job).schedules[k].allocations) == job.work.hours[k]
      {
        assert k in Members(ids);
        var i :| 0 <= i < |ids| && ids[i] == k;
        assert !lines[i].completed;
      }
    }
  }

  lemma LineCount(rm: Roadmap, completed: set<Id>, asOf: Option<Instant>, saved: Option<Overrides>)
    requires ValidRoadmap(rm) && ValidSaved(saved) && Customized(rm, completed, asOf, saved)
    ensures |Lines(rm, completed, asOf, saved)| == |PlanOrder(rm, saved)|
  {
    hide PackSpec, PlanJob, PlanOrder, ById, ValidRoadmap, Scheduling, Lines;
    PlanIsPacked(rm, completed, asOf, saved);
  }

  // ---- Weeks ----

  /** The hours that the given steps work in week `w`. */
  ghost function WeekWork(job: Job, ids: seq<Id>, w: int): set<Hour>
    requires ValidJob(job) && |WorkedHours(job)| == Total(job.work)
  {
    set h <- HoursOfWeek(job.grid, Elements(WorkedHours(job)), w) | exists k <- ids :: h in HoursOf(job, k)
  }

  ghost function WeekHours(job: Job, ids: seq<Id>, w: int): (m: map<Id, int>)
    requires ValidJob(job) && |WorkedHours(job)| == Total(job.work)
  {
    map k | k in ids :: |HoursOfWeek(job.grid, HoursOf(job, k), w)|
  }

  /** What single steps work in a week adds up to what they work together. */
  lemma {:induction false} WeekAddsUp(job: Job, all: seq<Id>, ids: seq<Id>, w: int)
    requires ValidJob(job) && |WorkedHours(job)| == Total(job.work) && NoDup(ids) && Members(ids) <= Members(all)
    ensures Members(ids) <= WeekHours(job, all, w).Keys
    ensures Sum(ids, WeekHours(job, all, w)) == |WeekWork(job, ids, w)|
    decreases |ids|
  {
    hide WorkedHours, Total, HoursOf;
    if ids == [] {
      assert WeekWork(job, ids, w) == {};
    } else {
      var first, rest := ids[0], ids[1..];
      assert first in ids && Members(rest) <= Members(all) && ids == [first] + rest;
      WeekAddsUp(job, all, rest, w);
      WeekSplits(job, first, rest, w);
    }
  }

  lemma WeekSplits(job: Job, first: Id, rest: seq<Id>, w: int)
    requires ValidJob(job) && |WorkedHours(job)| == Total(job.work) && first !in rest
    ensures |WeekWork(job, [first] + rest, w)| ==
      |HoursOfWeek(job.grid, HoursOf(job, first), w)| + |WeekWork(job, rest, w)|
  {
    hide WorkedHours, Total, HoursOf;
    var own, others := HoursOfWeek(job.grid, HoursOf(job, first), w), WeekWork(job, rest, w);
    forall h | h in own
      ensures h in Elements(WorkedHours(job)) && h !in others
    {
      WorkedIn(job, first, h);
      forall k | k in rest
        ensures h !in HoursOf(job, k)
      {
        HoursDisjoint(job, first, k);
      }
    }
    assert WeekWork(job, [first] + rest, w) == own + others;
  }

  lemma WorkedIn(job: Job, k: Id, h: Hour)
    requires ValidJob(job) && |WorkedHours(job)| == Total(job.work) && h in HoursOf(job, k)
    ensures h in Elements(WorkedHours(job))
  {
    hide WorkedHours, Grants, Total;
    StepHoursBounded(WorkedHours(job), Grants(job.work, Total(job.work)), k, h);
  }

  /** The hours that completed lines, or all lines, are allocated in week `w`. */
  function Use(lines: seq<PlanStep>, w: int, all: bool): int {
    if lines == [] then 0
    else
      var n := |lines| - 1;
      Use(lines[..n], w, all) + if all || lines[n].completed then HoursIn(lines[n].allocations, w) else 0
  }

  lemma {:induction false} UseIsSum(lines: seq<PlanStep>, w: int, all: bool, ids: seq<Id>, m: map<Id, int>)
    requires |lines| == |ids| && Members(ids) <= m.Keys
    requires forall i :: 0 <= i < |ids| ==>
      ids[i] in m && m[ids[i]] == if all || lines[i].completed then HoursIn(lines[i].allocations, w) else 0
    ensures Use(lines, w, all) == Sum(ids, m)
    decreases |ids|
  {
    hide HoursIn;
    if ids != [] {
      var n := |ids| - 1;
      MembersPrefix(ids, n);
      assert ids == ids[..n] + [ids[n]] && ids[..n + 1] == ids;
      UseIsSum(lines[..n], w, all, ids[..n], m);
      assert Members([ids[n]]) == {ids[n]} && [ids[n]][1..] == [] && Sum([], m) == 0;
      SumConcat(ids[..n], [ids[n]], m);
    }
  }

  /** The weekly use that the packer counts for fixed schedules. */
  lemma {:induction false} FixedUseIsSum(ids: seq<Id>, fixed: map<Id, Scheduled>, w: int, m: map<Id, int>)
    requires Members(ids) <= fixed.Keys && Members(ids) <= m.Keys
    requires forall k <- Members(ids) :: m[k] == HoursIn(fixed[k].allocations, w)
    ensures UsedIn(FixedUse(ids, fixed), w) == Sum(ids, m)
    decreases |ids|
  {
    hide HoursIn;
    if ids != [] {
      var n := |ids| - 1;
      MembersPrefix(ids, n);
      assert ids == ids[..n] + [ids[n]] && ids[..n + 1] == ids;
      FixedUseIsSum(ids[..n], fixed, w, m);
      AddUseAdds(FixedUse(ids[..n], fixed), fixed[ids[n]].allocations, w);
      assert Members([ids[n]]) == {ids[n]} && [ids[n]][1..] == [] && Sum([], m) == 0;
      SumConcat(ids[..n], [ids[n]], m);
    }
  }

  lemma {:induction false} AddUseAdds(used: map<int, int>, allocations: seq<Allocation>, w: int)
    ensures UsedIn(AddUse(used, allocations), w) == UsedIn(used, w) + HoursIn(allocations, w)
    decreases |allocations|
  {
    if allocations != [] {
      AddUseAdds(used, allocations[..|allocations| - 1], w);
    }
  }

  /** What the packed steps of a job are allocated in a week is within the room that fixed work leaves. */
  lemma JobWithinCap(job: Job, w: int, m: map<Id, int>)
    requires ValidJob(job) && PackSpec(job).Packed? && Members(job.work.order) <= m.Keys
    requires forall k <- Members(job.work.order) ::
      k in PackSpec(job).schedules && m[k] == HoursIn(PackSpec(job).schedules[k].allocations, w)
    ensures UsedIn(InitialUse(job), w) + Sum(job.work.order, m) <= Max(job.grid.weekly, UsedIn(InitialUse(job), w))
  {
    hide PackSpec, HoursIn, WorkedHours, InitialUse, HoursOf, Describes, Open, Total;
    PackedShape(job);
    var order := job.work.order;
    var hours := WeekHours(job, order, w);
    WeekAddsUp(job, order, order, w);
    forall k | k in Members(order)
      ensures m[k] == hours[k]
    {
      var lo, hi := PackedDescribes(job, k);
      DescribesWeek(job.grid, PackSpec(job).schedules[k], HoursOf(job, k), lo, hi, w);
    }
    SumAgrees(order, m, hours);
    SubsetSize(WeekWork(job, order, w), HoursOfWeek(job.grid, Elements(WorkedHours(job)), w));
    WeeklyCap(job, w);
  }

  lemma DescribesWeek(g: Grid, s: Scheduled, hours: set<Hour>, lo: Hour, hi: Hour, w: int)
    requires Describes(g, s, hours, lo, hi)
    ensures HoursIn(s.allocations, w) == |HoursOfWeek(g, hours, w)|
  {
  }

  /** The lines have the allocations of the packing, and the fixed ones are completed. */
  ghost predicate LinesOf(lines: seq<PlanStep>, ids: seq<Id>, job: Job, packed: map<Id, Scheduled>) {
    |lines| == |ids| && forall i :: 0 <= i < |ids| ==>
      ids[i] in packed && lines[i].allocations == packed[ids[i]].allocations &&
        (lines[i].completed <==> ids[i] in job.fixed)
  }

  /** What completed lines take is what the packer counts for fixed schedules. */
  lemma FixedLinesUse(job: Job, lines: seq<PlanStep>, ids: seq<Id>, w: int)
    requires ValidJob(job) && PackSpec(job).Packed? && NoDup(ids)
    requires Members(ids) == job.fixed.Keys + Members(job.work.order)
    requires LinesOf(lines, ids, job, PackSpec(job).schedules)
    ensures UsedIn(InitialUse(job), w) == Use(lines, w, false)
  {
    hide PackSpec, HoursIn, Use, UsedIn, InitialUse, Sum;
    PackedKeys(job);
    var packed := PackSpec(job).schedules;
    var done := map k | k in packed :: if k in job.fixed then HoursIn(packed[k].allocations, w) else 0;
    UseIsSum(lines, w, false, ids, done);
    SplitSum(ids, job.fixedIds, job.work.order, done);
    assert forall k <- job.work.order :: k in Members(job.work.order);
    SumOfZeros(job.work.order, done);
    InitialUseIsSum(job, w, done);
  }

  lemma LinesWithinCap(job: Job, lines: seq<PlanStep>, ids: seq<Id>, w: int)
    requires ValidJob(job) && PackSpec(job).Packed? && NoDup(ids)
    requires Members(ids) == job.fixed.Keys + Members(job.work.order)
    requires LinesOf(lines, ids, job, PackSpec(job).schedules)
    ensures Use(lines, w, true) <= Max(job.grid.weekly, Use(lines, w, false))
  {
    hide PackSpec, HoursIn, Use, UsedIn, InitialUse, Sum;
    PackedKeys(job);
    var packed := PackSpec(job).schedules;
    var all := map k | k in packed :: HoursIn(packed[k].allocations, w);
    var done := map k | k in packed :: if k in job.fixed then all[k] else 0;
    UseIsSum(lines, w, true, ids, all);
    UseIsSum(lines, w, false, ids, done);
    JobSums(job, ids, w, packed, all, done);
  }

  /** All allocations together, against those of the fixed schedules alone. */
  lemma JobSums(job: Job, ids: seq<Id>, w: int, packed: map<Id, Scheduled>, all: map<Id, int>, done: map<Id, int>)
    requires ValidJob(job) && PackSpec(job) == Packed(packed) && NoDup(ids)
    requires Members(ids) == packed.Keys == job.fixed.Keys + Members(job.work.order) == all.Keys == done.Keys
    requires forall k <- job.fixed :: packed[k] == job.fixed[k]
    requires forall k <- packed ::
      all[k] == HoursIn(packed[k].allocations, w) && done[k] == if k in job.fixed then all[k] else 0
    ensures Sum(ids, all) <= Max(job.grid.weekly, Sum(ids, done))
  {
    hide PackSpec, HoursIn, UsedIn, InitialUse, Sum;
    SplitSum(ids, job.fixedIds, job.work.order, all);
    SplitSum(ids, job.fixedIds, job.work.order, done);
    SumAgrees(job.fixedIds, all, done);
    assert forall k <- job.work.order :: k in Members(job.work.order);
    SumOfZeros(job.work.order, done);
    InitialUseIsSum(job, w, all);
    JobWithinCap(job, w, all);
  }

  lemma InitialUseIsSum(job: Job, w: int, m: map<Id, int>)
    requires ValidJob(job) && job.fixed.Keys <= m.Keys
    requires forall k <- job.fixed :: m[k] == HoursIn(job.fixed[k].allocations, w)
    ensures UsedIn(InitialUse(job), w) == Sum(job.fixedIds, m)
  {
    hide HoursIn, UsedIn, Sum;
    FixedUseIsSum(job.fixedIds, job.fixed, w, m);
  }

  /** All lines of a week together are within the larger of the plan's hours and what completed lines take. */
  lemma PlanWithinCap(rm: Roadmap, completed: set<Id>, asOf: Option<Instant>, saved: Option<Overrides>, w: int)
    requires ValidRoadmap(rm) && ValidSaved(saved) && Customized(rm, completed, asOf, saved)
    ensures saved.Some?
    ensures var lines := Lines(rm, completed, asOf, saved);
      Use(lines, w, true) <= Max(saved.value.weekly, Use(lines, w, false))
  {
    hide PackSpec, PlanOrder, ById, ValidRoadmap, Lines, FixedIn, Customized, PlanJob, Use;
    var job, lines, ids := PlanJob(rm, completed, asOf, saved), Lines(rm, completed, asOf, saved), PlanOrder(rm, saved);
    PlanIsPacked(rm, completed, asOf, saved);
    JobStartsLate(rm, completed, asOf, saved);
    LineCount(rm, completed, asOf, saved);
    LinesOfPlan(rm, completed, asOf, saved);
    LinesWithinCap(job, lines, ids, w);
  }

  lemma LinesOfPlan(rm: Roadmap, completed: set<Id>, asOf: Option<Instant>, saved: Option<Overrides>)
    requires ValidRoadmap(rm) && ValidSaved(saved) && Customized(rm, completed, asOf, saved)
    ensures var job := PlanJob(rm, completed, asOf, saved);
      && PackSpec(job).Packed? && Members(PlanOrder(rm, saved)) == job.fixed.Keys + Members(job.work.order)
      && LinesOf(Lines(rm, completed, asOf, saved), PlanOrder(rm, saved), job, PackSpec(job).schedules)
  {
    hide PackSpec, PlanOrder, ById, ValidRoadmap, Lines, FixedIn, Customized, PlanJob;
    var job, lines, ids := PlanJob(rm, completed, asOf, saved), Lines(rm, completed, asOf, saved), PlanOrder(rm, saved);
    PlanIsPacked(rm, completed, asOf, saved);
    JobStartsLate(rm, completed, asOf, saved);
    LineCount(rm, completed, asOf, saved);
    forall i | 0 <= i < |ids|
      ensures var packed := PackSpec(job).schedules;
        ids[i] in packed && lines[i].allocations == packed[ids[i]].allocations &&
          (lines[i].completed <==> ids[i] in job.fixed)
    {
      LineHours(rm, completed, asOf, saved, i);
    }
  }

  lemma SplitSum(ids: seq<Id>, a: seq<Id>, b: seq<Id>, m: map<Id, int>)
    requires NoDup(ids) && NoDup(a) && NoDup(b) && Members(a) !! Members(b)
    requires Members(ids) == Members(a) + Members(b) && Members(ids) <= m.Keys
    ensures Sum(ids, m) == Sum(a, m) + Sum(b, m)
  {
    NoDupConcat(a, b);
    SumPermutes(ids, a + b, m);
    SumConcat(a, b, m);
  }
}
