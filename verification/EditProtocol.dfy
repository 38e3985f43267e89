/**
  The edit protocol around the plan: saving and resetting a customization under a version check,
  with the schedules of completed steps frozen into what is saved.
 */
module EditProtocol {
  import opened Basics
  import opened WorkCalendar
  import opened Rotation
  import opened Packer
  import opened WeeklyPlan
  import opened PlanLaws

  datatype Request = Request(expectedVersion: nat, weekly: int, rests: set<int>, order: seq<Id>, hours: map<Id, nat>)

  datatype Refusal =
    | BadOrder
    | UnknownHours
    | CompletedHoursChanged
    | CannotPlan(outcome: Outcome)
    | ProgressConflict
    | VersionConflict

  datatype Drafted = Draft(plan: Overrides) | Refused(reason: Refusal)

  datatype Written = Accepted(saved: Overrides) | Rejected(reason: Refusal)

  // ---- Saving ----

  function LinesById(steps: seq<PlanStep>): map<Id, PlanStep> {
    if steps == [] then map[]
    else LinesById(steps[..|steps| - 1])[steps[|steps| - 1].id := steps[|steps| - 1]]
  }

  function CompletedLines(plan: Plan): map<Id, PlanStep> {
    var lines := LinesById(plan.steps);
    map k | k in lines && lines[k].completed :: lines[k]
  }

  predicate HoursChanged(hours: map<Id, nat>, completed: map<Id, PlanStep>) {
    exists k <- completed :: k in hours && hours[k] != completed[k].hours
  }

  function DraftFrom(rm: Roadmap, request: Request, savedAt: Option<Instant>, current: Plan): Overrides
    requires ValidRoadmap(rm) && request.hours.Keys <= ById(rm).Keys
  {
    Overrides(request.weekly, request.rests, request.order,
              map k | k in request.hours && request.hours[k] != Hours(ById(rm)[k]) :: request.hours[k],
              savedAt, request.expectedVersion, true, CompletedLines(current))
  }

  /** Checks a request against the roadmap and the current plan, and carries the completed lines over. */
  function MakeOverrides(rm: Roadmap, completed: set<Id>, asOf: Option<Instant>, request: Request,
                         savedAt: Option<Instant>, existing: Option<Overrides>): (d: Drafted)
    requires ValidRoadmap(rm) && ValidSaved(existing)
    ensures d.Draft? ==> NoDup(d.plan.order)
  {
    if |request.order| != |ById(rm).Keys| || Members(request.order) != ById(rm).Keys then Refused(BadOrder)
    else if !(request.hours.Keys <= ById(rm).Keys) then Refused(UnknownHours)
    else
      DistinctBySize(request.order);
      var recommended := BuildPlan(rm, completed, asOf, None);
      var current := BuildPlan(rm, completed, asOf, existing);
      if recommended.Failed? then Refused(CannotPlan(recommended.outcome))
      else if current.Failed? then Refused(CannotPlan(current.outcome))
      else if HoursChanged(request.hours, CompletedLines(current.plan)) then Refused(CompletedHoursChanged)
      else Draft(DraftFrom(rm, request, savedAt, current.plan))
  }

  lemma {:induction false} DistinctBySize(s: seq<Id>)
    ensures |Members(s)| <= |s|
    ensures |Members(s)| == |s| ==> NoDup(s)
  {
    if s != [] {
      var n := |s| - 1;
      DistinctBySize(s[..n]);
      MembersPrefix(s, n);
      assert s[..n + 1] == s;
    }
  }

  function CurrentVersion(saved: Option<Overrides>): nat {
    if saved.Some? then saved.value.version else 0
  }

  /** The write: refused when a step was completed meanwhile or the version moved on. */
  function Write(saved: Option<Overrides>, plan: Overrides, completedNow: set<Id>, dbNow: Instant): Written {
    if exists k <- plan.snapshots :: k in completedNow && !plan.snapshots[k].completed then Rejected(ProgressConflict)
    else if CurrentVersion(saved) != plan.version then Rejected(VersionConflict)
    else Accepted(plan.(version := plan.version + 1, savedAt := Some(dbNow)))
  }

  /**
    One save: steps `completed` when the request is loaded, `completedNow` when it is written. What
    is stored holds the lines of the previewed plan.
   */
  function Save(rm: Roadmap, saved: Option<Overrides>, completed: set<Id>, asOf: Option<Instant>, request: Request,
                now: Instant, completedNow: set<Id>, dbNow: Instant): Written
    requires ValidRoadmap(rm) && ValidSaved(saved)
  {
    var draft := MakeOverrides(rm, completed, asOf, request, Some(now), saved);
    if draft.Refused? then Rejected(draft.reason)
    else
      var preview := BuildPlan(rm, completed, asOf, Some(draft.plan));
      if preview.Failed? then Rejected(CannotPlan(preview.outcome))
      else
        Write(saved, draft.plan.(isCustomized := preview.plan.isCustomized, snapshots := LinesById(preview.plan.steps)),
              completedNow, dbNow)
  }

  lemma SaveKeepsValid(rm: Roadmap, saved: Option<Overrides>, completed: set<Id>, asOf: Option<Instant>,
                       request: Request, now: Instant, completedNow: set<Id>, dbNow: Instant)
    requires ValidRoadmap(rm) && ValidSaved(saved)
    ensures var r := Save(rm, saved, completed, asOf, request, now, completedNow, dbNow);
      r.Accepted? ==>
        && NoDup(r.saved.order)
        && request.expectedVersion == CurrentVersion(saved) && r.saved.version == CurrentVersion(saved) + 1
  {
    hide BuildPlan, LinesById, ById, ValidRoadmap, HoursChanged;
  }

  /** A reset: a versioned row that keeps only the snapshots of completed steps. */
  function Reset(rm: Roadmap, saved: Option<Overrides>, expectedVersion: nat, completedNow: set<Id>,
                 dbNow: Instant): (r: Written)
    ensures r.Accepted? ==> NoDup(r.saved.order)
  {
    var previous := Snapshots(saved);
    if CurrentVersion(saved) != expectedVersion then Rejected(VersionConflict)
    else Accepted(Overrides(rm.weekly, {}, [], map[], Some(dbNow), expectedVersion + 1, false,
                            map k | k in previous && k in completedNow :: previous[k]))
  }

  // ---- What completed steps show ----

  /** The part of a line that completing a step freezes. */
  datatype View = View(hours: int, startDate: Date, endDate: Date, startWeek: int, endWeek: int,
                       startAt: Option<Instant>, endAt: Option<Instant>, allocations: seq<Allocation>)

  function ViewOf(line: PlanStep): View {
    View(line.hours, line.startDate, line.endDate, line.startWeek, line.endWeek, line.startAt, line.endAt,
         line.allocations)
  }

  function ScheduleView(rm: Roadmap, hours: int, s: Scheduled): View {
    var dates := DatesOf(rm.zone, s.startsAt, s.endsAt);
    View(hours, dates.first, dates.last, WeekOfDate(StartDate(rm), dates.first), WeekOfDate(StartDate(rm), dates.last),
         Some(s.startsAt), Some(s.endsAt), s.allocations)
  }

  /** What a completed step shows once `snapshot` is saved for it: a function of the snapshot alone. */
  function SnapshotView(rm: Roadmap, snapshot: PlanStep): View {
    ScheduleView(rm, snapshot.hours, SnapshotSchedule(rm.zone, snapshot))
  }

  /** A line whose dates and weeks are those of its exact times. */
  predicate Settled(rm: Roadmap, line: PlanStep) {
    SnapshotView(rm, line) == ViewOf(line)
  }

  lemma CompletedLine(rm: Roadmap, completed: set<Id>, snapshots: map<Id, PlanStep>, ov: Option<Overrides>,
                      recommended: map<Id, Scheduled>, packed: map<Id, Scheduled>, number: nat, s: Step)
    requires ValidRoadmap(rm) && s.id in ById(rm) && ById(rm)[s.id] == s && Scheduling(rm, ov, packed)
    requires Estimated(rm, recommended) && s.id in completed
    requires var fixed := FixedSchedules(rm, completed, snapshots, recommended);
      s.id in packed && packed[s.id] == fixed[s.id]
    ensures var line := PlanStepFor(rm, completed, snapshots, ov, FixedSchedules(rm, completed, snapshots, recommended),
                                    packed, number, s);
      && line.id == s.id && line.completed && Settled(rm, line)
      && (s.id in snapshots ==> ViewOf(line) == SnapshotView(rm, snapshots[s.id]))
  {
    hide ValidRoadmap, Scheduling, Estimated, ExactAllocations, HoursFor, LocalDate, LastOccupiedDate, WeekOfDate;
    hide StartDate;
    DatedOrEstimated(rm, recommended, s.id);
  }

  lemma {:induction false} LineOf(rm: Roadmap, completed: set<Id>, snapshots: map<Id, PlanStep>, ov: Option<Overrides>,
                                  fixed: map<Id, Scheduled>, packed: map<Id, Scheduled>, ids: seq<Id>, k: Id)
      returns (number: nat)
    requires ValidRoadmap(rm) && Members(ids) <= ById(rm).Keys && Scheduling(rm, ov, packed) && k in ids
    ensures k in ById(rm) && ById(rm)[k].id == k
    ensures var lines := LinesById(PlanSteps(rm, completed, snapshots, ov, fixed, packed, ids));
      k in lines && lines[k] == PlanStepFor(rm, completed, snapshots, ov, fixed, packed, number, ById(rm)[k])
    decreases |ids|
  {
    hide PlanStepFor, Scheduling, ValidRoadmap, ById;
    var n := |ids| - 1;
    MembersPrefix(ids, n);
    assert ids[..n + 1] == ids;
    PlanStepAt(rm, completed, snapshots, ov, fixed, packed, ids, n);
    LineKeepsId(rm, completed, snapshots, ov, fixed, packed, n + 1, ById(rm)[ids[n]]);
    if ids[n] == k {
      number := n + 1;
    } else {
      assert k in Members(ids[..n]);
      number := LineOf(rm, completed, snapshots, ov, fixed, packed, ids[..n], k);
    }
  }

  lemma LineKeepsId(rm: Roadmap, completed: set<Id>, snapshots: map<Id, PlanStep>, ov: Option<Overrides>,
                    fixed: map<Id, Scheduled>, packed: map<Id, Scheduled>, number: nat, s: Step)
    requires ValidRoadmap(rm) && s.id in ById(rm) && ById(rm)[s.id] == s && Scheduling(rm, ov, packed)
    ensures var line := PlanStepFor(rm, completed, snapshots, ov, fixed, packed, number, s);
      line.id == s.id && line.completed == (s.id in completed)
  {
  }

  /** Every plan has a settled line for every completed step; with a snapshot, it shows the snapshot. */
  lemma CompletedShown(rm: Roadmap, completed: set<Id>, asOf: Option<Instant>, saved: Option<Overrides>, k: Id)
    requires ValidRoadmap(rm) && ValidSaved(saved) && BuildPlan(rm, completed, asOf, saved).Ready?
    requires k in ById(rm) && k in completed
    ensures var lines := LinesById(BuildPlan(rm, completed, asOf, saved).plan.steps);
      && k in lines && lines[k].completed && Settled(rm, lines[k])
      && (k in Snapshots(saved) ==> ViewOf(lines[k]) == SnapshotView(rm, Snapshots(saved)[k]))
  {
    hide RecommendedPacking, PlanPacking, FixedSchedules, PlanSteps, PlanOrder, PlanStepFor, ById, ValidRoadmap;
    hide Effective;
    hide StartDate, Settled, ViewOf, SnapshotView, Scheduling, LinesById;
    var ov := Effective(rm, saved);
    var recommended := RecommendedPacking(rm, completed).schedules;
    var fixed := FixedSchedules(rm, completed, Snapshots(saved), recommended);
    PlanPackingKeys(rm, completed, asOf, ov, recommended, fixed);
    var packed := PlanPacking(rm, completed, asOf, ov, recommended, fixed).schedules;
    var ids := PlanOrder(rm, ov);
    assert k in Members(ids);
    var number := LineOf(rm, completed, Snapshots(saved), ov, fixed, packed, ids, k);
    CompletedLine(rm, completed, Snapshots(saved), ov, recommended, packed, number, ById(rm)[k]);
  }

  lemma LineState(rm: Roadmap, completed: set<Id>, asOf: Option<Instant>, saved: Option<Overrides>, k: Id)
    requires ValidRoadmap(rm) && ValidSaved(saved) && BuildPlan(rm, completed, asOf, saved).Ready? && k in ById(rm)
    ensures var lines := LinesById(BuildPlan(rm, completed, asOf, saved).plan.steps);
      k in lines && lines[k].completed == (k in completed)
  {
    hide RecommendedPacking, PlanPacking, FixedSchedules, PlanSteps, PlanOrder, PlanStepFor, ById, ValidRoadmap;
    hide Effective;
    hide StartDate, Scheduling, LinesById;
    var ov := Effective(rm, saved);
    var recommended := RecommendedPacking(rm, completed).schedules;
    var fixed := FixedSchedules(rm, completed, Snapshots(saved), recommended);
    PlanPackingKeys(rm, completed, asOf, ov, recommended, fixed);
    var packed := PlanPacking(rm, completed, asOf, ov, recommended, fixed).schedules;
    var ids := PlanOrder(rm, ov);
    assert k in Members(ids);
    var number := LineOf(rm, completed, Snapshots(saved), ov, fixed, packed, ids, k);
    LineKeepsId(rm, completed, Snapshots(saved), ov, fixed, packed, number, ById(rm)[k]);
  }

  // ---- Saves and resets keep it ----

  /** A save that did not see a step completed is not written over the completion. */
  lemma SaveSeesProgress(rm: Roadmap, saved: Option<Overrides>, completed: set<Id>, asOf: Option<Instant>,
                         request: Request, now: Instant, completedNow: set<Id>, dbNow: Instant, k: Id)
    requires ValidRoadmap(rm) && ValidSaved(saved) && k in ById(rm) && k in completedNow
    requires Save(rm, saved, completed, asOf, request, now, completedNow, dbNow).Accepted?
    ensures k in completed
  {
    hide BuildPlan, ById, ValidRoadmap, LinesById, HoursChanged;
    var draft := MakeOverrides(rm, completed, asOf, request, Some(now), saved).plan;
    LineState(rm, completed, asOf, Some(draft), k);
    var lines := LinesById(BuildPlan(rm, completed, asOf, Some(draft)).plan.steps);
    assert Save(rm, saved, completed, asOf, request, now, completedNow, dbNow).saved.snapshots == lines;
  }

  /** An accepted save stores, for every step completed when it was loaded, what the plan showed for it. */
  lemma SaveKeepsCompleted(rm: Roadmap, saved: Option<Overrides>, completed: set<Id>, asOf: Option<Instant>,
                           request: Request, now: Instant, completedNow: set<Id>, dbNow: Instant, k: Id)
    requires ValidRoadmap(rm) && ValidSaved(saved) && k in ById(rm) && k in completed
    requires Save(rm, saved, completed, asOf, request, now, completedNow, dbNow).Accepted?
    ensures BuildPlan(rm, completed, asOf, saved).Ready?
    ensures var saved' := Save(rm, saved, completed, asOf, request, now, completedNow, dbNow).saved;
      var shown := LinesById(BuildPlan(rm, completed, asOf, saved).plan.steps);
      && NoDup(saved'.order)
      && k in saved'.snapshots && k in shown && SnapshotView(rm, saved'.snapshots[k]) == ViewOf(shown[k])
  {
    hide BuildPlan, ById, ValidRoadmap, LinesById, SnapshotView, ViewOf, HoursChanged;
    CompletedShown(rm, completed, asOf, saved, k);
    var draft := MakeOverrides(rm, completed, asOf, request, Some(now), saved).plan;
    CompletedShown(rm, completed, asOf, Some(draft), k);
  }

  lemma ResetKeepsCompleted(rm: Roadmap, saved: Option<Overrides>, expectedVersion: nat, completedNow: set<Id>,
                            dbNow: Instant, k: Id)
    requires k in Snapshots(saved) && k in completedNow
    requires Reset(rm, saved, expectedVersion, completedNow, dbNow).Accepted?
    ensures var saved' := Reset(rm, saved, expectedVersion, completedNow, dbNow).saved;
      NoDup(saved'.order) && k in saved'.snapshots && saved'.snapshots[k] == Snapshots(saved)[k]
  {
  }

  // ---- Runs ----

  datatype Event =
    | DoSave(completed: set<Id>, asOf: Option<Instant>, request: Request, now: Instant, completedNow: set<Id>,
             dbNow: Instant)
    | DoReset(expectedVersion: nat, completedNow: set<Id>, dbNow: Instant)

  function Result(rm: Roadmap, saved: Option<Overrides>, e: Event): (r: Written)
    requires ValidRoadmap(rm) && ValidSaved(saved)
    ensures r.Accepted? ==> NoDup(r.saved.order)
  {
    match e
    case DoSave(completed, asOf, request, now, completedNow, dbNow) =>
      SaveKeepsValid(rm, saved, completed, asOf, request, now, completedNow, dbNow);
      Save(rm, saved, completed, asOf, request, now, completedNow, dbNow)
    case DoReset(expectedVersion, completedNow, dbNow) =>
      Reset(rm, saved, expectedVersion, completedNow, dbNow)
  }

  function Next(rm: Roadmap, saved: Option<Overrides>, e: Event): (saved': Option<Overrides>)
    requires ValidRoadmap(rm) && ValidSaved(saved)
    ensures ValidSaved(saved')
  {
    match Result(rm, saved, e)
    case Accepted(saved') => Some(saved')
    case Rejected(_) => saved
  }

  /** The row after a run of saves and resets, whatever they ask for. */
  function After(rm: Roadmap, saved: Option<Overrides>, events: seq<Event>): (saved': Option<Overrides>)
    requires ValidRoadmap(rm) && ValidSaved(saved)
    ensures ValidSaved(saved')
    decreases |events|
  {
    if events == [] then saved else After(rm, Next(rm, saved, events[0]), events[1..])
  }

  lemma StepKeepsSnapshot(rm: Roadmap, saved: Option<Overrides>, e: Event, k: Id)
    requires ValidRoadmap(rm) && ValidSaved(saved) && k in ById(rm) && k in Snapshots(saved) && k in e.completedNow
    ensures var saved' := Next(rm, saved, e);
      k in Snapshots(saved') && SnapshotView(rm, Snapshots(saved')[k]) == SnapshotView(rm, Snapshots(saved)[k])
  {
    hide Save, Reset, BuildPlan, ById, ValidRoadmap, SnapshotView, ViewOf, LinesById;
    if Result(rm, saved, e).Accepted? {
      match e
      case DoSave(completed, asOf, request, now, completedNow, dbNow) =>
        SaveSeesProgress(rm, saved, completed, asOf, request, now, completedNow, dbNow, k);
        SaveKeepsCompleted(rm, saved, completed, asOf, request, now, completedNow, dbNow, k);
        CompletedShown(rm, completed, asOf, saved, k);
      case DoReset(expectedVersion, completedNow, dbNow) =>
        ResetKeepsCompleted(rm, saved, expectedVersion, completedNow, dbNow, k);
    }
  }

  lemma {:induction false} RunKeepsSnapshot(rm: Roadmap, saved: Option<Overrides>, events: seq<Event>, k: Id)
    requires ValidRoadmap(rm) && ValidSaved(saved) && k in ById(rm) && k in Snapshots(saved)
    requires forall i :: 0 <= i < |events| ==> k in events[i].completedNow
    ensures var saved' := After(rm, saved, events);
      k in Snapshots(saved') && SnapshotView(rm, Snapshots(saved')[k]) == SnapshotView(rm, Snapshots(saved)[k])
    decreases |events|
  {
    hide Next, ById, ValidRoadmap, SnapshotView;
    if events != [] {
      StepKeepsSnapshot(rm, saved, events[0], k);
      RunKeepsSnapshot(rm, Next(rm, saved, events[0]), events[1..], k);
    }
  }

  /**
    Completed work never moves again: once a save was accepted while the step was completed, every
    plan built after any further saves and resets, all written while it is completed, shows the hours,
    dates, weeks, exact times and allocations that were shown before that save.
   */
  lemma CompletedIsFrozen(rm: Roadmap, saved: Option<Overrides>, save: Event, later: seq<Event>,
                          completed: set<Id>, asOf: Option<Instant>, k: Id)
    requires ValidRoadmap(rm) && ValidSaved(saved) && k in ById(rm) && k in completed
    requires save.DoSave? && k in save.completedNow && Result(rm, saved, save).Accepted?
    requires forall i :: 0 <= i < |later| ==> k in later[i].completedNow
    requires BuildPlan(rm, completed, asOf, After(rm, saved, [save] + later)).Ready?
    ensures BuildPlan(rm, save.completed, save.asOf, saved).Ready?
    ensures var before := LinesById(BuildPlan(rm, save.completed, save.asOf, saved).plan.steps);
      var after := LinesById(BuildPlan(rm, completed, asOf, After(rm, saved, [save] + later)).plan.steps);
      k in before && k in after && ViewOf(after[k]) == ViewOf(before[k])
  {
    hide Save, BuildPlan, ById, ValidRoadmap, SnapshotView, ViewOf, LinesById;
    SaveSeesProgress(rm, saved, save.completed, save.asOf, save.request, save.now, save.completedNow, save.dbNow, k);
    SaveKeepsCompleted(rm, saved, save.completed, save.asOf, save.request, save.now, save.completedNow, save.dbNow, k);
    var first := Next(rm, saved, save);
    assert ([save] + later)[1..] == later;
    RunKeepsSnapshot(rm, first, later, k);
    CompletedShown(rm, completed, asOf, After(rm, saved, [save] + later), k);
  }

  // ---- Versions ----

  function ExpectedVersion(e: Event): nat {
    match e
    case DoSave(_, _, request, _, _, _) => request.expectedVersion
    case DoReset(expectedVersion, _, _) => expectedVersion
  }

  /** A write is accepted only on the version it expects, and moves the version on by one. */
  lemma WriteMovesVersion(rm: Roadmap, saved: Option<Overrides>, e: Event)
    requires ValidRoadmap(rm) && ValidSaved(saved)
    ensures Result(rm, saved, e).Accepted? ==>
      ExpectedVersion(e) == CurrentVersion(saved) && CurrentVersion(Next(rm, saved, e)) == CurrentVersion(saved) + 1
    ensures Result(rm, saved, e).Rejected? ==> Next(rm, saved, e) == saved
  {
    hide Save, ValidRoadmap;
    match e
    case DoSave(completed, asOf, request, now, completedNow, dbNow) =>
      SaveKeepsValid(rm, saved, completed, asOf, request, now, completedNow, dbNow);
    case DoReset(expectedVersion, completedNow, dbNow) =>
  }

  lemma {:induction false} VersionsGrow(rm: Roadmap, saved: Option<Overrides>, events: seq<Event>)
    requires ValidRoadmap(rm) && ValidSaved(saved)
    ensures CurrentVersion(saved) <= CurrentVersion(After(rm, saved, events))
    decreases |events|
  {
    hide Next, Result, ValidRoadmap;
    if events != [] {
      WriteMovesVersion(rm, saved, events[0]);
      VersionsGrow(rm, Next(rm, saved, events[0]), events[1..]);
    }
  }

  /** Of all the writes of a run that expect one version, at most one is ever accepted, resets included. */
  lemma OneWritePerVersion(rm: Roadmap, saved: Option<Overrides>, first: Event, between: seq<Event>, second: Event)
    requires ValidRoadmap(rm) && ValidSaved(saved) && Result(rm, saved, first).Accepted?
    requires ExpectedVersion(second) == ExpectedVersion(first)
    ensures Result(rm, After(rm, Next(rm, saved, first), between), second).Rejected?
  {
    hide Result, Next, ValidRoadmap, ExpectedVersion;
    WriteMovesVersion(rm, saved, first);
    VersionsGrow(rm, Next(rm, saved, first), between);
    WriteMovesVersion(rm, After(rm, Next(rm, saved, first), between), second);
  }

  // ---- The store ----

  datatype Response = Shown(built: Built) | Denied(reason: Refusal)

  /** The saved row of one roadmap and the endpoints that read and write it. */
  class PlanStore {
    const rm: Roadmap
    var saved: Option<Overrides>

    ghost predicate IsValid()
      reads this
    {
      ValidRoadmap(rm) && ValidSaved(saved)
    }

    constructor (rm: Roadmap)
      requires ValidRoadmap(rm)
      ensures IsValid() && this.rm == rm && saved == None
    {
      this.rm := rm;
      saved := None;
    }

    method GetPlan(completed: set<Id>, asOf: Option<Instant>) returns (built: Built)
      requires IsValid()
      ensures built == BuildPlan(rm, completed, asOf, saved)
    {
      built := BuildWeeklyPlan(rm, completed, asOf, saved);
    }

    method DraftOverrides(completed: set<Id>, asOf: Option<Instant>, request: Request, savedAt: Option<Instant>)
        returns (draft: Drafted)
      requires IsValid()
      ensures draft == MakeOverrides(rm, completed, asOf, request, savedAt, saved)
    {
      hide BuildPlan, ById, ValidRoadmap, DraftFrom;
      if |request.order| != |ById(rm).Keys| || Members(request.order) != ById(rm).Keys {
        return Refused(BadOrder);
      }
      if !(request.hours.Keys <= ById(rm).Keys) {
        return Refused(UnknownHours);
      }
      var recommended := BuildWeeklyPlan(rm, completed, asOf, None);
      if recommended.Failed? {
        return Refused(CannotPlan(recommended.outcome));
      }
      var current := BuildWeeklyPlan(rm, completed, asOf, saved);
      if current.Failed? {
        return Refused(CannotPlan(current.outcome));
      }
      if HoursChanged(request.hours, CompletedLines(current.plan)) {
        return Refused(CompletedHoursChanged);
      }
      draft := Draft(DraftFrom(rm, request, savedAt, current.plan));
    }

    method PutPlan(completed: set<Id>, asOf: Option<Instant>, request: Request, now: Instant,
                   completedNow: set<Id>, dbNow: Instant) returns (response: Response)
      requires IsValid()
      modifies this
      ensures IsValid()
      ensures saved == Next(rm, old(saved), DoSave(completed, asOf, request, now, completedNow, dbNow))
      ensures response == match Result(rm, old(saved), DoSave(completed, asOf, request, now, completedNow, dbNow))
                          case Accepted(_) => Shown(BuildPlan(rm, completed, asOf, saved))
                          case Rejected(reason) => Denied(reason)
    {
      hide BuildPlan, ById, ValidRoadmap, MakeOverrides, LinesById;
      SaveKeepsValid(rm, saved, completed, asOf, request, now, completedNow, dbNow);
      var draft := DraftOverrides(completed, asOf, request, Some(now));
      if draft.Refused? {
        return Denied(draft.reason);
      }
      var preview := BuildWeeklyPlan(rm, completed, asOf, Some(draft.plan));
      if preview.Failed? {
        return Denied(CannotPlan(preview.outcome));
      }
      var plan := draft.plan.(isCustomized := preview.plan.isCustomized, snapshots := LinesById(preview.plan.steps));
      var written := Write(saved, plan, completedNow, dbNow);
      if written.Rejected? {
        return Denied(written.reason);
      }
      saved := Some(written.saved);
      var built := BuildWeeklyPlan(rm, completed, asOf, saved);
      response := Shown(built);
    }

    /** Shows what a save would show, or what a reset would show, without writing anything. */
    method PreviewPlan(completed: set<Id>, asOf: Option<Instant>, request: Option<Request>) returns (response: Response)
      requires IsValid()
      ensures request.None? ==> response == Shown(BuildPlan(rm, completed, asOf,
                                  if saved.Some? then Some(saved.value.(isCustomized := false)) else None))
      ensures request.Some? ==>
        response == match MakeOverrides(rm, completed, asOf, request.value, None, saved)
                    case Draft(plan) => Shown(BuildPlan(rm, completed, asOf, Some(plan)))
                    case Refused(reason) => Denied(reason)
    {
      hide BuildPlan, ById, ValidRoadmap, MakeOverrides;
      if request.None? {
        var built := BuildWeeklyPlan(rm, completed, asOf,
                                     if saved.Some? then Some(saved.value.(isCustomized := false)) else None);
        return Shown(built);
      }
      var draft := DraftOverrides(completed, asOf, request.value, None);
      if draft.Refused? {
        return Denied(draft.reason);
      }
      var built := BuildWeeklyPlan(rm, completed, asOf, Some(draft.plan));
      response := Shown(built);
    }

    method DeletePlan(completed: set<Id>, asOf: Option<Instant>, expectedVersion: nat,
                      completedNow: set<Id>, dbNow: Instant) returns (response: Response)
      requires IsValid()
      modifies this
      ensures IsValid()
      ensures saved == Next(rm, old(saved), DoReset(expectedVersion, completedNow, dbNow))
      ensures response == match Result(rm, old(saved), DoReset(expectedVersion, completedNow, dbNow))
                          case Accepted(_) => Shown(BuildPlan(rm, completed, asOf, saved))
                          case Rejected(reason) => Denied(reason)
    {
      hide BuildPlan, ById, ValidRoadmap;
      var written := Reset(rm, saved, expectedVersion, completedNow, dbNow);
      if written.Rejected? {
        return Denied(written.reason);
      }
      saved := Some(written.saved);
      var built := BuildWeeklyPlan(rm, completed, asOf, saved);
      response := Shown(built);
    }
  }
}
