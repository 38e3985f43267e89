/**
  The weekly plan of a roadmap: the recommendation, the saved customization on top of it, and the
  completed steps that neither may move.
 */
module WeeklyPlan {
  import opened Basics
  import opened WorkCalendar
  import opened WorkingHours
  import opened SlotScan
  import opened Rotation
  import opened Packer

  datatype Step = Step(
    id: Id, position: int, plannedStart: Option<Instant>, plannedEnd: Option<Instant>, prerequisites: seq<Id>,
    pinnedHours: Option<nat>, estimatedHours: Option<nat>, solverSlots: seq<Instant>)

  datatype Roadmap = Roadmap(
    createdAt: Instant, zone: int, weekly: int, windows: seq<AvailabilityWindow>, unavailable: set<Date>,
    steps: seq<Step>)

  datatype PlanStep = PlanStep(
    id: Id, number: nat, completed: bool, hours: int, startWeek: int, endWeek: int, startDate: Date, endDate: Date,
    unmet: seq<Id>, allocations: seq<Allocation>, startAt: Option<Instant>, endAt: Option<Instant>)

  datatype Overrides = Overrides(
    weekly: int, rests: set<int>, order: seq<Id>, hours: map<Id, nat>, savedAt: Option<Instant>,
    version: nat, isCustomized: bool, snapshots: map<Id, PlanStep>)

  datatype Plan = Plan(version: nat, isCustomized: bool, weekly: int, rests: set<int>, start: Date,
                       steps: seq<PlanStep>)

  datatype Built = Ready(plan: Plan) | Failed(outcome: Outcome)

  // ---- Steps ----

  predicate ValidRoadmap(rm: Roadmap) {
    DistinctIds(rm.steps)
  }

  function Before(a: Step, b: Step): bool {
    a.position < b.position || (a.position == b.position && a.id <= b.id)
  }

  function InsertStep(s: Step, sorted: seq<Step>): (r: seq<Step>)
    ensures multiset(r) == multiset(sorted) + multiset{s}
  {
    if sorted == [] then [s]
    else if Before(s, sorted[0]) then [s] + sorted
    else
      assert sorted == [sorted[0]] + sorted[1..];
      [sorted[0]] + InsertStep(s, sorted[1..])
  }

  /** The steps by position, ties by identifier. */
  function Recommended(steps: seq<Step>): (r: seq<Step>)
    ensures multiset(r) == multiset(steps)
  {
    if steps == [] then []
    else
      assert steps == [steps[0]] + steps[1..];
      InsertStep(steps[0], Recommended(steps[1..]))
  }

  ghost predicate InOrder(s: seq<Step>) {
    forall i, j :: 0 <= i < j < |s| ==> Before(s[i], s[j])
  }

  lemma {:induction false} InsertInOrder(s: Step, sorted: seq<Step>)
    requires InOrder(sorted)
    ensures InOrder(InsertStep(s, sorted))
  {
    if sorted != [] && !Before(s, sorted[0]) {
      InsertInOrder(s, sorted[1..]);
      var r := InsertStep(s, sorted[1..]);
      forall j | 0 <= j < |r|
        ensures Before(sorted[0], r[j])
      {
        assert r[j] in multiset(r);
      }
    }
  }

  /** The recommended order is the order of positions. */
  lemma {:induction false} RecommendedInOrder(steps: seq<Step>)
    ensures InOrder(Recommended(steps)) && multiset(Recommended(steps)) == multiset(steps)
  {
    if steps != [] {
      RecommendedInOrder(steps[1..]);
      InsertInOrder(steps[0], Recommended(steps[1..]));
    }
  }

  function ById(rm: Roadmap): map<Id, Step>
    requires ValidRoadmap(rm)
  {
    map i | 0 <= i < |rm.steps| :: rm.steps[i].id := rm.steps[i]
  }

  function IdsOf(steps: seq<Step>): (ids: seq<Id>)
    ensures |ids| == |steps| && forall i :: 0 <= i < |ids| ==> ids[i] == steps[i].id
  {
    if steps == [] then [] else [steps[0].id] + IdsOf(steps[1..])
  }

  function RecommendedIds(rm: Roadmap): seq<Id> {
    IdsOf(Recommended(rm.steps))
  }

  lemma RecommendedIdsMembers(rm: Roadmap)
    requires ValidRoadmap(rm)
    ensures NoDup(RecommendedIds(rm)) && Members(RecommendedIds(rm)) == ById(rm).Keys
  {
    hide Recommended, Members, IdsOf, ById;
    var r := Recommended(rm.steps);
    RecommendedDistinct(rm.steps);
    IdsMembers(r);
    SameIds(r, rm.steps);
    KnownIds(rm);
  }

  lemma SameIds(a: seq<Step>, b: seq<Step>)
    requires multiset(a) == multiset(b)
    ensures (set s | s in a :: s.id) == set s | s in b :: s.id
  {
    forall s: Step
      ensures s in a <==> s in b
    {
      assert s in multiset(a) <==> s in multiset(b);
    }
  }

  lemma KnownIds(rm: Roadmap)
    requires ValidRoadmap(rm)
    ensures ById(rm).Keys == set s | s in rm.steps :: s.id
  {
  }

  lemma IdsMembers(steps: seq<Step>)
    ensures Members(IdsOf(steps)) == set s | s in steps :: s.id
  {
    var ids := IdsOf(steps);
    forall k | k in Members(ids)
      ensures exists s :: s in steps && s.id == k
    {
      var i :| 0 <= i < |ids| && ids[i] == k;
      assert steps[i] in steps;
    }
    forall s | s in steps
      ensures s.id in Members(ids)
    {
      var i :| 0 <= i < |steps| && steps[i] == s;
      assert ids[i] == s.id;
    }
  }

  predicate DistinctIds(steps: seq<Step>) {
    forall i, j :: 0 <= i < j < |steps| ==> steps[i].id != steps[j].id
  }

  lemma {:induction false} InsertDistinct(s: Step, sorted: seq<Step>)
    requires DistinctIds(sorted) && forall i :: 0 <= i < |sorted| ==> sorted[i].id != s.id
    ensures DistinctIds(InsertStep(s, sorted))
  {
    if sorted != [] && !Before(s, sorted[0]) {
      InsertDistinct(s, sorted[1..]);
      var rest := InsertStep(s, sorted[1..]);
      forall i | 0 <= i < |rest|
        ensures rest[i].id != sorted[0].id
      {
        assert rest[i] in multiset(sorted[1..]) + multiset{s};
      }
    }
  }

  lemma {:induction false} RecommendedDistinct(steps: seq<Step>)
    requires DistinctIds(steps)
    ensures DistinctIds(Recommended(steps))
  {
    if steps != [] {
      RecommendedDistinct(steps[1..]);
      var rest := Recommended(steps[1..]);
      forall i | 0 <= i < |rest|
        ensures rest[i].id != steps[0].id
      {
        assert rest[i] in multiset(steps[1..]);
      }
      InsertDistinct(steps[0], rest);
    }
  }

  function Hours(s: Step): nat {
    if s.pinnedHours.Some? then s.pinnedHours.value
    else if s.estimatedHours.Some? then s.estimatedHours.value
    else 20
  }

  predicate HasSolverDates(s: Step) {
    s.plannedStart.Some? && s.plannedEnd.Some? && s.plannedEnd.value >= s.plannedStart.value
  }

  // ---- The plan's calendar ----

  function EarliestStart(steps: seq<Step>, none: Instant): Instant {
    if steps == [] then none
    else
      var rest := EarliestStart(steps[1..], none);
      if !HasSolverDates(steps[0]) then rest
      else if (exists s <- steps[1..] :: HasSolverDates(s)) then Min(steps[0].plannedStart.value, rest)
      else steps[0].plannedStart.value
  }

  /** The plan starts with the earliest solver start, or with the roadmap itself when there is none. */
  function StartsAt(rm: Roadmap): Instant {
    EarliestStart(rm.steps, rm.createdAt)
  }

  function StartDate(rm: Roadmap): Date {
    MondayOf(LocalDate(rm.zone, StartsAt(rm)))
  }

  function WeekOfInstant(rm: Roadmap, t: Instant): int {
    WeekOfDate(StartDate(rm), LocalDate(rm.zone, t))
  }

  /** Adds one hour to week `w` of allocations kept in week order. */
  function AddInOrder(allocations: seq<Allocation>, w: int): seq<Allocation> {
    if allocations == [] || w < allocations[0].week then [Allocation(w, 1)] + allocations
    else if w == allocations[0].week then [Allocation(w, allocations[0].hours + 1)] + allocations[1..]
    else [allocations[0]] + AddInOrder(allocations[1..], w)
  }

  /** Hours per plan week of the hours the solver assigned. */
  function ExactAllocations(rm: Roadmap, slots: seq<Instant>): seq<Allocation> {
    if slots == [] then []
    else AddInOrder(ExactAllocations(rm, slots[..|slots| - 1]), WeekOfInstant(rm, slots[|slots| - 1]))
  }

  // ---- Customization ----

  predicate ValidSaved(saved: Option<Overrides>) {
    saved.Some? ==> NoDup(saved.value.order)
  }

  lemma MergeOrders(order: seq<Id>, all: seq<Id>)
    requires NoDup(order) && NoDup(all)
    ensures var custom := ByPosition(order, Members(all));
      var ids := custom + ByPosition(all, Members(all) - Members(custom));
      NoDup(ids) && Members(ids) == Members(all)
  {
    var custom := ByPosition(order, Members(all));
    ByPositionMembers(order, Members(all));
    ByPositionMembers(all, Members(all) - Members(custom));
    NoDupConcat(custom, ByPosition(all, Members(all) - Members(custom)));
  }

  /** The saved order first, then what it does not mention in recommended order. */
  function OrderedIds(rm: Roadmap, order: seq<Id>): (ids: seq<Id>)
    requires ValidRoadmap(rm) && NoDup(order)
    ensures NoDup(ids) && Members(ids) == ById(rm).Keys
  {
    RecommendedIdsMembers(rm);
    MergeOrders(order, RecommendedIds(rm));
    var custom := ByPosition(order, Members(RecommendedIds(rm)));
    custom + ByPosition(RecommendedIds(rm), Members(RecommendedIds(rm)) - Members(custom))
  }

  function HoursFor(ov: Option<Overrides>, s: Step): nat {
    if ov.Some? && s.id in ov.value.hours then ov.value.hours[s.id] else Hours(s)
  }

  /** A customization that says what the recommendation says anyway. */
  predicate Collapses(rm: Roadmap, ov: Overrides)
    requires ValidRoadmap(rm) && NoDup(ov.order)
  {
    && ov.weekly == rm.weekly && ov.rests == {}
    && OrderedIds(rm, ov.order) == RecommendedIds(rm)
    && (forall s <- rm.steps :: HoursFor(Some(ov), s) == Hours(s))
  }

  function Effective(rm: Roadmap, saved: Option<Overrides>): (ov: Option<Overrides>)
    requires ValidRoadmap(rm) && ValidSaved(saved)
    ensures ov.Some? ==> ov == saved
  {
    if saved.Some? && saved.value.isCustomized && !Collapses(rm, saved.value) then saved else None
  }

  function PlanOrder(rm: Roadmap, ov: Option<Overrides>): (ids: seq<Id>)
    requires ValidRoadmap(rm) && ValidSaved(ov)
    ensures NoDup(ids) && Members(ids) == ById(rm).Keys
  {
    RecommendedIdsMembers(rm);
    if ov.Some? then OrderedIds(rm, ov.value.order) else RecommendedIds(rm)
  }

  function Snapshots(saved: Option<Overrides>): map<Id, PlanStep> {
    if saved.Some? then saved.value.snapshots else map[]
  }

  // ---- Jobs for the packer ----

  function Preferred(rm: Roadmap, order: seq<Id>, ov: Option<Overrides>): map<Id, int>
    requires ValidRoadmap(rm)
  {
    if ov.Some? && order != RecommendedIds(rm) then map[]
    else
      map k | k in ById(rm) && HasSolverDates(ById(rm)[k]) ::
        WorkingHourOffset(ById(rm)[k].plannedStart.value, StartsAt(rm), rm.weekly, rm.zone)
  }

  /** Unfinished prerequisites, known to the roadmap or not. */
  function OpenPrerequisites(rm: Roadmap, completed: set<Id>, s: Step): set<Id>
    requires ValidRoadmap(rm)
  {
    set p | p in s.prerequisites && (p !in ById(rm) || p !in completed)
  }

  function LatestEnd(ids: seq<Id>, fixed: map<Id, Scheduled>, none: Instant): (t: Instant)
    requires Members(ids) <= fixed.Keys
    ensures none <= t && forall k <- ids :: fixed[k].endsAt <= t
    ensures t == none || exists k <- ids :: t == fixed[k].endsAt
  {
    if ids == [] then none
    else
      var k := ids[0];
      assert k in Members(ids) && Members(ids[1..]) <= Members(ids);
      assert ids == [k] + ids[1..] && k in ids;
      Max(fixed[k].endsAt, LatestEnd(ids[1..], fixed, none))
  }

  /** New work starts with the plan, but after the save in effect and after completed work. */
  function FutureStart(rm: Roadmap, asOf: Option<Instant>, ov: Option<Overrides>, fixedIds: seq<Id>,
                       fixed: map<Id, Scheduled>): (t: Instant)
    requires Members(fixedIds) == fixed.Keys
    ensures StartsAt(rm) <= t
    ensures forall k <- fixed :: fixed[k].endsAt <= t
    ensures ov.Some? && asOf.Some? ==> (if ov.value.savedAt.Some? then ov.value.savedAt.value else asOf.value) <= t
    ensures var at := if ov.Some? && ov.value.savedAt.Some? then ov.value.savedAt else asOf;
      var matters := fixed.Keys != {} || (ov.Some? && asOf.Some?);
      && (matters && at.Some? ==> at.value <= t)
      && (t == StartsAt(rm) || (matters && at == Some(t)) || exists k <- fixed :: t == fixed[k].endsAt)
  {
    var startsAt := StartsAt(rm);
    var at := if ov.Some? && ov.value.savedAt.Some? then ov.value.savedAt else asOf;
    if fixedIds != [] || (ov.Some? && asOf.Some?) then
      assert forall k <- fixed :: k in fixedIds;
      LatestEnd(fixedIds, fixed, Max(startsAt, if at.Some? then at.value else startsAt))
    else
      assert fixed.Keys == {};
      startsAt
  }

  function GridFor(rm: Roadmap, ov: Option<Overrides>): Grid {
    Grid(rm.zone, StartDate(rm), if ov.Some? then ov.value.weekly else rm.weekly,
         if ov.Some? then ov.value.rests else {}, rm.unavailable, rm.windows)
  }

  function HoursToPlan(rm: Roadmap, ov: Option<Overrides>, fixed: set<Id>): (m: map<Id, int>)
    requires ValidRoadmap(rm)
    ensures m.Keys == ById(rm).Keys - fixed && forall k <- m :: m[k] >= 0
  {
    map k | k in ById(rm) && k !in fixed :: HoursFor(ov, ById(rm)[k])
  }

  function WaitsToPlan(rm: Roadmap, completed: set<Id>, fixed: set<Id>): (m: map<Id, set<Id>>)
    requires ValidRoadmap(rm)
    ensures m.Keys == ById(rm).Keys - fixed
  {
    map k | k in ById(rm) && k !in fixed :: OpenPrerequisites(rm, completed, ById(rm)[k])
  }

  function OrderToPlan(rm: Roadmap, ov: Option<Overrides>, fixed: set<Id>): (order: seq<Id>)
    requires ValidRoadmap(rm) && ValidSaved(ov)
    ensures NoDup(order) && Members(order) == ById(rm).Keys - fixed
  {
    ByPositionMembers(PlanOrder(rm, ov), ById(rm).Keys - fixed);
    ByPosition(PlanOrder(rm, ov), ById(rm).Keys - fixed)
  }

  /** The steps that are not fixed, in plan order, with their hours and unfinished prerequisites. */
  function WorkFor(rm: Roadmap, completed: set<Id>, ov: Option<Overrides>, fixed: set<Id>): (w: Work)
    requires ValidRoadmap(rm) && ValidSaved(ov)
    ensures Valid(w) && Members(w.order) == ById(rm).Keys - fixed
  {
    Work(OrderToPlan(rm, ov, fixed), HoursToPlan(rm, ov, fixed), WaitsToPlan(rm, completed, fixed),
         Preferred(rm, PlanOrder(rm, ov), ov))
  }

  function JobFor(rm: Roadmap, completed: set<Id>, asOf: Option<Instant>, ov: Option<Overrides>,
                  fixedIds: seq<Id>, fixed: map<Id, Scheduled>): (job: Job)
    requires ValidRoadmap(rm) && ValidSaved(ov) && NoDup(fixedIds) && Members(fixedIds) == fixed.Keys
    ensures ValidJob(job) && job.fixed == fixed && Members(job.work.order) == ById(rm).Keys - fixed.Keys
  {
    Job(GridFor(rm, ov), WorkFor(rm, completed, ov, fixed.Keys), FutureStart(rm, asOf, ov, fixedIds, fixed),
        fixedIds, fixed)
  }

  // ---- The plan ----

  /** A successful packing schedules what was fixed, as it was, and every other step. */
  lemma PackedKeys(job: Job)
    requires ValidJob(job) && PackSpec(job).Packed?
    ensures PackSpec(job).schedules.Keys == job.fixed.Keys + Members(job.work.order)
    ensures forall k <- job.fixed :: PackSpec(job).schedules[k] == job.fixed[k]
  {
    hide Scan, Grants, Total;
    var book := Book(job.grid, WorkedHours(job), Grants(job.work, Total(job.work)));
    assert book.Keys <= Members(job.work.order);
    assert Members(job.work.order) <= book.Keys;
  }

  predicate NeedsEstimate(rm: Roadmap) {
    exists s <- rm.steps :: !HasSolverDates(s)
  }

  lemma RecommendedKeys(rm: Roadmap, completed: set<Id>)
    requires ValidRoadmap(rm)
    ensures var r := PackSpec(JobFor(rm, completed, None, None, [], map[]));
      r.Packed? ==> r.schedules.Keys == ById(rm).Keys
  {
    hide PackSpec, ById;
    var job := JobFor(rm, completed, None, None, [], map[]);
    if PackSpec(job).Packed? {
      PackedKeys(job);
    }
  }

  /** The recommendation packed anew, when some step has no solver dates. */
  function RecommendedPacking(rm: Roadmap, completed: set<Id>): (r: Outcome)
    requires ValidRoadmap(rm)
    ensures r.Packed? && NeedsEstimate(rm) ==> r.schedules.Keys == ById(rm).Keys
  {
    if !NeedsEstimate(rm) then Packed(map[])
    else
      RecommendedKeys(rm, completed);
      PackSpec(JobFor(rm, completed, None, None, [], map[]))
  }

  /** Where completed work stands: in its snapshot, or at its solver dates, or in the recommendation. */
  function FixedSchedule(rm: Roadmap, snapshots: map<Id, PlanStep>, recommended: map<Id, Scheduled>, s: Step): Scheduled
    requires s.id in snapshots || HasSolverDates(s) || s.id in recommended
  {
    if s.id in snapshots then SnapshotSchedule(rm.zone, snapshots[s.id])
    else if HasSolverDates(s) then
      Scheduled(s.plannedStart.value, s.plannedEnd.value, ExactAllocations(rm, s.solverSlots))
    else recommended[s.id]
  }

  function SnapshotSchedule(zone: int, snapshot: PlanStep): Scheduled {
    Scheduled(if snapshot.startAt.Some? then snapshot.startAt.value else InstantOf(Midnight(zone, snapshot.startDate)),
              if snapshot.endAt.Some? then snapshot.endAt.value else InstantOf(Midnight(zone, snapshot.endDate + 1)),
              snapshot.allocations)
  }

  predicate Estimated(rm: Roadmap, recommended: map<Id, Scheduled>)
    requires ValidRoadmap(rm)
  {
    NeedsEstimate(rm) ==> recommended.Keys == ById(rm).Keys
  }

  lemma DatedOrEstimated(rm: Roadmap, recommended: map<Id, Scheduled>, k: Id)
    requires ValidRoadmap(rm) && Estimated(rm, recommended) && k in ById(rm)
    ensures HasSolverDates(ById(rm)[k]) || (NeedsEstimate(rm) && k in recommended)
    ensures ById(rm)[k].id == k && ById(rm)[k] in rm.steps
  {
  }

  function FixedSchedules(rm: Roadmap, completed: set<Id>, snapshots: map<Id, PlanStep>,
                          recommended: map<Id, Scheduled>): (fixed: map<Id, Scheduled>)
    requires ValidRoadmap(rm) && Estimated(rm, recommended)
    ensures fixed.Keys == ById(rm).Keys * completed
  {
    map k | k in ById(rm) && k in completed ::
      DatedOrEstimated(rm, recommended, k); FixedSchedule(rm, snapshots, recommended, ById(rm)[k])
  }

  lemma FixedScheduleOf(rm: Roadmap, completed: set<Id>, snapshots: map<Id, PlanStep>,
                        recommended: map<Id, Scheduled>, k: Id)
    requires ValidRoadmap(rm) && Estimated(rm, recommended) && k in ById(rm) && k in completed
    ensures var s := ById(rm)[k];
      && (s.id in snapshots || HasSolverDates(s) || s.id in recommended)
      && FixedSchedules(rm, completed, snapshots, recommended)[k] == FixedSchedule(rm, snapshots, recommended, s)
  {
    hide FixedSchedule, ValidRoadmap, ById, Estimated;
    DatedOrEstimated(rm, recommended, k);
  }

  function FixedIds(rm: Roadmap, completed: set<Id>): (ids: seq<Id>)
    requires ValidRoadmap(rm)
    ensures NoDup(ids) && Members(ids) == ById(rm).Keys * completed
  {
    RecommendedIdsMembers(rm);
    ByPositionMembers(RecommendedIds(rm), completed);
    ByPosition(RecommendedIds(rm), completed)
  }

  function CustomJob(rm: Roadmap, completed: set<Id>, asOf: Option<Instant>, ov: Option<Overrides>,
                     fixed: map<Id, Scheduled>): (job: Job)
    requires ValidRoadmap(rm) && ValidSaved(ov) && fixed.Keys == ById(rm).Keys * completed
    ensures ValidJob(job) && job.fixed == fixed && Members(job.work.order) == ById(rm).Keys - completed
  {
    JobFor(rm, completed, asOf, ov, FixedIds(rm, completed), fixed)
  }

  /** All schedules of the plan: the custom packing around fixed work, or recommended and fixed work. */
  function PlanPacking(rm: Roadmap, completed: set<Id>, asOf: Option<Instant>, ov: Option<Overrides>,
                       recommended: map<Id, Scheduled>, fixed: map<Id, Scheduled>): Outcome
    requires ValidRoadmap(rm) && ValidSaved(ov) && fixed.Keys == ById(rm).Keys * completed
  {
    if ov.None? then Packed(recommended + fixed)
    else PackSpec(CustomJob(rm, completed, asOf, ov, fixed))
  }

  lemma PlanPackingKeys(rm: Roadmap, completed: set<Id>, asOf: Option<Instant>, ov: Option<Overrides>,
                        recommended: map<Id, Scheduled>, fixed: map<Id, Scheduled>)
    requires ValidRoadmap(rm) && ValidSaved(ov) && fixed.Keys == ById(rm).Keys * completed
    requires Estimated(rm, recommended)
    requires PlanPacking(rm, completed, asOf, ov, recommended, fixed).Packed?
    ensures var packed := PlanPacking(rm, completed, asOf, ov, recommended, fixed).schedules;
      && Scheduling(rm, ov, packed)
      && (forall k <- fixed :: k in packed && packed[k] == fixed[k])
  {
    hide PackSpec, CustomJob, ById, ValidRoadmap, ValidJob;
    if ov.Some? {
      PackedKeys(CustomJob(rm, completed, asOf, ov, fixed));
    }
  }

  predicate Scheduling(rm: Roadmap, ov: Option<Overrides>, packed: map<Id, Scheduled>)
    requires ValidRoadmap(rm)
  {
    ov.Some? || NeedsEstimate(rm) ==> ById(rm).Keys <= packed.Keys
  }

  predicate IsUnmet(rm: Roadmap, completed: set<Id>, ov: Option<Overrides>, packed: map<Id, Scheduled>, s: Step, p: Id)
    requires ValidRoadmap(rm) && s.id in ById(rm) && ById(rm)[s.id] == s && Scheduling(rm, ov, packed)
  {
    if p !in ById(rm) then true
    else if p in completed then false
    else if ov.None? && HasSolverDates(s) && HasSolverDates(ById(rm)[p]) then
      ById(rm)[p].plannedEnd.value > s.plannedStart.value
    else
      packed[p].endsAt > packed[s.id].startsAt
  }

  function Unmet(rm: Roadmap, completed: set<Id>, ov: Option<Overrides>, packed: map<Id, Scheduled>, s: Step,
                 prerequisites: seq<Id>): (unmet: seq<Id>)
    requires ValidRoadmap(rm) && s.id in ById(rm) && ById(rm)[s.id] == s && Scheduling(rm, ov, packed)
    ensures forall p :: p in unmet <==> p in prerequisites && IsUnmet(rm, completed, ov, packed, s, p)
  {
    if prerequisites == [] then []
    else
      var n := |prerequisites| - 1;
      var front := Unmet(rm, completed, ov, packed, s, prerequisites[..n]);
      assert prerequisites == prerequisites[..n] + [prerequisites[n]];
      if IsUnmet(rm, completed, ov, packed, s, prerequisites[n]) then front + [prerequisites[n]] else front
  }

  datatype Dates = Dates(first: Date, last: Date)

  function DatesOf(zone: int, startsAt: Instant, endsAt: Instant): Dates {
    Dates(LocalDate(zone, startsAt), LastOccupiedDate(zone, startsAt, endsAt))
  }

  /** One line of the plan. Completed work is shown where it is fixed, with the hours of its snapshot. */
  function PlanStepFor(rm: Roadmap, completed: set<Id>, snapshots: map<Id, PlanStep>, ov: Option<Overrides>,
                       fixed: map<Id, Scheduled>, packed: map<Id, Scheduled>, number: nat, s: Step): PlanStep
    requires ValidRoadmap(rm) && s.id in ById(rm) && ById(rm)[s.id] == s && Scheduling(rm, ov, packed)
  {
    DatedOrPacked(rm, ov, packed, s);
    var snapshot := if s.id in completed && s.id in snapshots then Some(snapshots[s.id]) else None;
    var hours := if snapshot.Some? then snapshot.value.hours else HoursFor(ov, s);
    var dates := if s.id in fixed then DatesOf(rm.zone, fixed[s.id].startsAt, fixed[s.id].endsAt)
                 else if ov.None? && HasSolverDates(s) then DatesOf(rm.zone, s.plannedStart.value, s.plannedEnd.value)
                 else DatesOf(rm.zone, packed[s.id].startsAt, packed[s.id].endsAt);
    var unmet := if s.id in completed then [] else Unmet(rm, completed, ov, packed, s, s.prerequisites);
    var allocations := if snapshot.Some? then snapshot.value.allocations
                       else if ov.Some? || !HasSolverDates(s) then packed[s.id].allocations
                       else ExactAllocations(rm, s.solverSlots);
    PlanStep(s.id, number, s.id in completed, hours,
             WeekOfDate(StartDate(rm), dates.first), WeekOfDate(StartDate(rm), dates.last), dates.first, dates.last,
             unmet, allocations,
             if s.id in packed then Some(packed[s.id].startsAt) else s.plannedStart,
             if s.id in packed then Some(packed[s.id].endsAt) else s.plannedEnd)
  }

  lemma DatedOrPacked(rm: Roadmap, ov: Option<Overrides>, packed: map<Id, Scheduled>, s: Step)
    requires ValidRoadmap(rm) && s.id in ById(rm) && ById(rm)[s.id] == s && Scheduling(rm, ov, packed)
    ensures (ov.None? && HasSolverDates(s)) || s.id in packed
  {
    if !HasSolverDates(s) {
      assert NeedsEstimate(rm);
    }
  }

  function PlanSteps(rm: Roadmap, completed: set<Id>, snapshots: map<Id, PlanStep>, ov: Option<Overrides>,
                     fixed: map<Id, Scheduled>, packed: map<Id, Scheduled>, ids: seq<Id>): (steps: seq<PlanStep>)
    requires ValidRoadmap(rm) && Members(ids) <= ById(rm).Keys && Scheduling(rm, ov, packed)
    ensures |steps| == |ids|
  {
    if ids == [] then []
    else
      var n := |ids| - 1;
      MembersPrefix(ids, n);
      assert ids[..n + 1] == ids;
      PlanSteps(rm, completed, snapshots, ov, fixed, packed, ids[..n])
        + [PlanStepFor(rm, completed, snapshots, ov, fixed, packed, n + 1, ById(rm)[ids[n]])]
  }

  /** What the planner shows for a roadmap, the steps completed so far and the customization saved for it. */
  function BuildPlan(rm: Roadmap, completed: set<Id>, asOf: Option<Instant>, saved: Option<Overrides>): Built
    requires ValidRoadmap(rm) && ValidSaved(saved)
  {
    var ov := Effective(rm, saved);
    var recommended := RecommendedPacking(rm, completed);
    if !recommended.Packed? then Failed(recommended)
    else
      var fixed := FixedSchedules(rm, completed, Snapshots(saved), recommended.schedules);
      var packed := PlanPacking(rm, completed, asOf, ov, recommended.schedules, fixed);
      if !packed.Packed? then Failed(packed)
      else
        PlanPackingKeys(rm, completed, asOf, ov, recommended.schedules, fixed);
        Ready(Plan(if saved.Some? then saved.value.version else 0, ov.Some?,
                   if ov.Some? then ov.value.weekly else rm.weekly, if ov.Some? then ov.value.rests else {},
                   StartDate(rm),
                   PlanSteps(rm, completed, Snapshots(saved), ov, fixed, packed.schedules, PlanOrder(rm, ov))))
  }

  // ---- Building it ----

  method CollectUnmet(rm: Roadmap, completed: set<Id>, ov: Option<Overrides>, packed: map<Id, Scheduled>, s: Step)
      returns (unmet: seq<Id>)
    requires ValidRoadmap(rm) && s.id in ById(rm) && ById(rm)[s.id] == s && Scheduling(rm, ov, packed)
    ensures unmet == Unmet(rm, completed, ov, packed, s, s.prerequisites)
  {
    hide IsUnmet, Scheduling, ValidRoadmap, ById;
    unmet := [];
    for i := 0 to |s.prerequisites|
      invariant unmet == Unmet(rm, completed, ov, packed, s, s.prerequisites[..i])
    {
      assert s.prerequisites[..i + 1][..i] == s.prerequisites[..i];
      if IsUnmet(rm, completed, ov, packed, s, s.prerequisites[i]) {
        unmet := unmet + [s.prerequisites[i]];
      }
    }
    assert s.prerequisites[..|s.prerequisites|] == s.prerequisites;
  }

  method CountExactAllocations(rm: Roadmap, slots: seq<Instant>) returns (allocations: seq<Allocation>)
    ensures allocations == ExactAllocations(rm, slots)
  {
    allocations := [];
    for i := 0 to |slots|
      invariant allocations == ExactAllocations(rm, slots[..i])
    {
      assert slots[..i + 1][..i] == slots[..i];
      allocations := AddInOrder(allocations, WeekOfInstant(rm, slots[i]));
    }
    assert slots[..|slots|] == slots;
  }

  method FixCompleted(rm: Roadmap, completed: set<Id>, snapshots: map<Id, PlanStep>, recommended: map<Id, Scheduled>)
      returns (fixed: map<Id, Scheduled>)
    requires ValidRoadmap(rm) && Estimated(rm, recommended)
    ensures fixed == FixedSchedules(rm, completed, snapshots, recommended)
  {
    hide ById, ValidRoadmap, Estimated, FixedSchedule, FixedSchedules, RecommendedIds;
    ghost var target := FixedSchedules(rm, completed, snapshots, recommended);
    RecommendedIdsMembers(rm);
    var ids := RecommendedIds(rm);
    fixed := map[];
    for i := 0 to |ids|
      invariant fixed.Keys == Members(ids[..i]) * completed <= target.Keys
      invariant forall k <- fixed :: fixed[k] == target[k]
    {
      MembersPrefix(ids, i);
      var k := ids[i];
      if k in completed {
        DatedOrEstimated(rm, recommended, k);
        FixedScheduleOf(rm, completed, snapshots, recommended, k);
        fixed := fixed[k := FixedSchedule(rm, snapshots, recommended, ById(rm)[k])];
      }
    }
    assert ids[..|ids|] == ids;
    assert fixed.Keys == target.Keys;
    assert forall k <- target :: fixed[k] == target[k];
  }

  method PackRecommended(rm: Roadmap, completed: set<Id>) returns (r: Outcome)
    requires ValidRoadmap(rm)
    ensures r == RecommendedPacking(rm, completed)
  {
    hide PackSpec, JobFor;
    if NeedsEstimate(rm) {
      r := Pack(JobFor(rm, completed, None, None, [], map[]));
    } else {
      r := Packed(map[]);
    }
  }

  method PackPlan(rm: Roadmap, completed: set<Id>, asOf: Option<Instant>, ov: Option<Overrides>,
                  recommended: map<Id, Scheduled>, fixed: map<Id, Scheduled>) returns (r: Outcome)
    requires ValidRoadmap(rm) && ValidSaved(ov) && fixed.Keys == ById(rm).Keys * completed
    ensures r == PlanPacking(rm, completed, asOf, ov, recommended, fixed)
  {
    hide PackSpec, CustomJob;
    if ov.Some? {
      r := Pack(CustomJob(rm, completed, asOf, ov, fixed));
    } else {
      r := Packed(recommended + fixed);
    }
  }

  /** Builds the plan: recommendation, fixed history, packing, and then one line per step in plan order. */
  method BuildWeeklyPlan(rm: Roadmap, completed: set<Id>, asOf: Option<Instant>, saved: Option<Overrides>)
      returns (built: Built)
    requires ValidRoadmap(rm) && ValidSaved(saved)
    ensures built == BuildPlan(rm, completed, asOf, saved)
  {
    hide PlanPacking, RecommendedPacking, FixedSchedules, Effective, PlanOrder, ById, ValidRoadmap, Scheduling;
    hide PlanStepFor, StartDate;
    var ov := Effective(rm, saved);
    var recommended := PackRecommended(rm, completed);
    if !recommended.Packed? {
      return Failed(recommended);
    }
    var snapshots := Snapshots(saved);
    var fixed := FixCompleted(rm, completed, snapshots, recommended.schedules);
    var packed := PackPlan(rm, completed, asOf, ov, recommended.schedules, fixed);
    if !packed.Packed? {
      return Failed(packed);
    }
    PlanPackingKeys(rm, completed, asOf, ov, recommended.schedules, fixed);
    var ids := PlanOrder(rm, ov);
    var lines := [];
    for i := 0 to |ids|
      invariant Members(ids[..i]) <= ById(rm).Keys
      invariant lines == PlanSteps(rm, completed, snapshots, ov, fixed, packed.schedules, ids[..i])
    {
      MembersPrefix(ids, i);
      DatedOrEstimated(rm, recommended.schedules, ids[i]);
      assert ids[..i + 1][..i] == ids[..i];
      lines := lines + [PlanStepFor(rm, completed, snapshots, ov, fixed, packed.schedules, i + 1, ById(rm)[ids[i]])];
    }
    assert ids[..|ids|] == ids;
    built := Ready(Plan(if saved.Some? then saved.value.version else 0, ov.Some?,
                        if ov.Some? then ov.value.weekly else rm.weekly, if ov.Some? then ov.value.rests else {},
                        StartDate(rm), lines));
  }
}
