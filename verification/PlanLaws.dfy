/**
  Whole plans: when a customized plan reports missing prerequisites, and how its lines relate to
  the schedules behind them.
 */
module PlanLaws {
  import opened Basics
  import opened WorkCalendar
  import opened Rotation
  import opened Prerequisites
  import opened Packer
  import opened PackLaws
  import opened WeeklyPlan

  // ---- The prerequisite graph of the unfinished steps ----

  predicate Requires(rm: Roadmap, completed: set<Id>, k: Id, p: Id)
    requires ValidRoadmap(rm)
  {
    k in ById(rm) && k !in completed && p in ById(rm)[k].prerequisites
  }

  ghost predicate MissesUnknown(rm: Roadmap, completed: set<Id>)
    requires ValidRoadmap(rm)
  {
    exists k, p :: Requires(rm, completed, k, p) && p !in ById(rm)
  }

  /** Unfinished steps that require each other in a ring. */
  ghost predicate IsRing(rm: Roadmap, completed: set<Id>, c: seq<Id>)
    requires ValidRoadmap(rm)
  {
    && c != [] && Members(c) <= ById(rm).Keys - completed
    && (forall i, j :: 0 <= i < |c| && 0 <= j < |c| && j == i + 1 ==> Requires(rm, completed, c[i], c[j]))
    && Requires(rm, completed, c[|c| - 1], c[0])
  }

  ghost predicate BrokenRoadmap(rm: Roadmap, completed: set<Id>)
    requires ValidRoadmap(rm)
  {
    MissesUnknown(rm, completed) || exists c :: IsRing(rm, completed, c)
  }

  lemma WaitsForIff(rm: Roadmap, completed: set<Id>, ov: Option<Overrides>, k: Id, p: Id)
    requires ValidRoadmap(rm) && ValidSaved(ov)
    ensures var w := WorkFor(rm, completed, ov, ById(rm).Keys * completed);
      WaitsFor(w, k, p) <==> Requires(rm, completed, k, p) && (p !in ById(rm) || p !in completed)
  {
    hide ByPosition, PlanOrder, Preferred, HoursFor;
  }

  lemma RingIffCycle(rm: Roadmap, completed: set<Id>, ov: Option<Overrides>, c: seq<Id>)
    requires ValidRoadmap(rm) && ValidSaved(ov)
    ensures IsCycle(WorkFor(rm, completed, ov, ById(rm).Keys * completed), c) <==> IsRing(rm, completed, c)
  {
    hide WorkFor, WaitsFor, Requires, Valid;
    var w := WorkFor(rm, completed, ov, ById(rm).Keys * completed);
    assert ById(rm).Keys - ById(rm).Keys * completed == ById(rm).Keys - completed;
    if c != [] && Members(c) <= ById(rm).Keys - completed {
      forall i, j | 0 <= i < |c| && 0 <= j < |c|
        ensures WaitsFor(w, c[i], c[j]) <==> Requires(rm, completed, c[i], c[j])
      {
        assert c[j] in Members(c);
        WaitsForIff(rm, completed, ov, c[i], c[j]);
      }
    }
  }

  lemma BrokenIff(rm: Roadmap, completed: set<Id>, ov: Option<Overrides>)
    requires ValidRoadmap(rm) && ValidSaved(ov)
    ensures Broken(WorkFor(rm, completed, ov, ById(rm).Keys * completed)) <==> BrokenRoadmap(rm, completed)
  {
    hide WorkFor, Requires, IsRing, IsCycle, ById;
    var w := WorkFor(rm, completed, ov, ById(rm).Keys * completed);
    forall c: seq<Id>
      ensures IsCycle(w, c) <==> IsRing(rm, completed, c)
    {
      RingIffCycle(rm, completed, ov, c);
    }
    if HasUnknown(w) {
      var k, p :| k in w.order && p in w.waits[k] && p !in w.order;
      WaitsForIff(rm, completed, ov, k, p);
      assert p !in Members(w.order) && WaitsFor(w, k, p);
      assert Requires(rm, completed, k, p) && p !in ById(rm);
    }
    if MissesUnknown(rm, completed) {
      var k, p :| Requires(rm, completed, k, p) && p !in ById(rm);
      WaitsForIff(rm, completed, ov, k, p);
      assert WaitsFor(w, k, p) && k in Members(w.order) && p !in Members(w.order);
      assert k in w.order && p in w.waits[k] && p !in w.order;
    }
  }

  // ---- Lines ----

  lemma KeyedById(rm: Roadmap, k: Id)
    requires ValidRoadmap(rm) && k in ById(rm)
    ensures ById(rm)[k].id == k
  {
  }

  lemma MembersInside(ids: seq<Id>, all: set<Id>, i: nat)
    requires Members(ids) <= all && i < |ids|
    ensures ids[i] in all && Members(ids[..i]) <= all
  {
    assert ids[i] in Members(ids) && Members(ids[..i]) <= Members(ids);
  }

  lemma {:induction false} PlanStepAt(rm: Roadmap, completed: set<Id>, snapshots: map<Id, PlanStep>,
                                      ov: Option<Overrides>, fixed: map<Id, Scheduled>,
                                      packed: map<Id, Scheduled>, ids: seq<Id>, i: nat)
    requires ValidRoadmap(rm) && Members(ids) <= ById(rm).Keys && Scheduling(rm, ov, packed) && i < |ids|
    ensures ids[i] in ById(rm) && ById(rm)[ids[i]].id == ids[i]
    ensures PlanSteps(rm, completed, snapshots, ov, fixed, packed, ids)[i]
         == PlanStepFor(rm, completed, snapshots, ov, fixed, packed, i + 1, ById(rm)[ids[i]])
  {
    hide PlanStepFor, Scheduling, ById, ValidRoadmap, Members;
    MembersPrefix(ids, i);
    var n := |ids| - 1;
    KeyedById(rm, ids[i]) by { MembersInside(ids, ById(rm).Keys, i); }
    if i < n {
      MembersPrefix(ids, n);
      assert ids[..n + 1] == ids;
      PlanStepAt(rm, completed, snapshots, ov, fixed, packed, ids[..n], i);
    }
  }

  /** The line of an unfinished step of a customized plan reports exactly the prerequisites that are not met. */
  lemma UnmetIffNotMet(rm: Roadmap, completed: set<Id>, ov: Option<Overrides>, packed: map<Id, Scheduled>, k: Id, p: Id)
    requires ValidRoadmap(rm) && ov.Some? && packed.Keys == ById(rm).Keys && k in ById(rm) && k !in completed
    requires Scheduling(rm, ov, packed) && ById(rm)[k].id == k
    ensures p in Unmet(rm, completed, ov, packed, ById(rm)[k], ById(rm)[k].prerequisites)
       <==> p in OpenPrerequisites(rm, completed, ById(rm)[k]) && !Met(packed, p, k)
  {
    hide Unmet;
  }

  lemma CustomJobWaits(rm: Roadmap, completed: set<Id>, asOf: Option<Instant>, ov: Option<Overrides>,
                       fixed: map<Id, Scheduled>, k: Id)
    requires ValidRoadmap(rm) && ValidSaved(ov) && fixed.Keys == ById(rm).Keys * completed
    requires k in ById(rm) && k !in completed
    ensures var w := CustomJob(rm, completed, asOf, ov, fixed).work;
      k in w.waits && w.waits[k] == OpenPrerequisites(rm, completed, ById(rm)[k]) && w.waits[k] !! fixed.Keys
  {
    hide ByPosition, PlanOrder, Preferred, HoursFor, FutureStart, GridFor;
  }

  ghost predicate Reported(rm: Roadmap, completed: set<Id>, ov: Option<Overrides>, packed: map<Id, Scheduled>, k: Id)
    requires ValidRoadmap(rm) && Scheduling(rm, ov, packed)
  {
    && k in ById(rm) && k !in completed && ById(rm)[k].id == k
    && Unmet(rm, completed, ov, packed, ById(rm)[k], ById(rm)[k].prerequisites) != []
  }

  lemma ReportedIffNotMet(rm: Roadmap, completed: set<Id>, ov: Option<Overrides>, packed: map<Id, Scheduled>, k: Id)
    requires ValidRoadmap(rm) && ov.Some? && packed.Keys == ById(rm).Keys && k in ById(rm) && k !in completed
    ensures Scheduling(rm, ov, packed)
    ensures Reported(rm, completed, ov, packed, k)
       <==> exists p <- OpenPrerequisites(rm, completed, ById(rm)[k]) :: !Met(packed, p, k)
  {
    assert Scheduling(rm, ov, packed);
    hide Unmet, OpenPrerequisites, Met, IsUnmet;
    var unmet := Unmet(rm, completed, ov, packed, ById(rm)[k], ById(rm)[k].prerequisites);
    if unmet != [] {
      UnmetIffNotMet(rm, completed, ov, packed, k, unmet[0]);
      assert unmet[0] in unmet;
    }
    if p :| p in OpenPrerequisites(rm, completed, ById(rm)[k]) && !Met(packed, p, k) {
      UnmetIffNotMet(rm, completed, ov, packed, k, p);
    }
  }

  /** Some unfinished step of a custom packing is reported if and only if the roadmap is broken. */
  lemma ReportedIffBroken(rm: Roadmap, completed: set<Id>, asOf: Option<Instant>, ov: Option<Overrides>,
                          fixed: map<Id, Scheduled>, packed: map<Id, Scheduled>)
    requires ValidRoadmap(rm) && ValidSaved(ov) && ov.Some?
    requires fixed.Keys == ById(rm).Keys * completed
    requires PackSpec(CustomJob(rm, completed, asOf, ov, fixed)) == Packed(packed)
    ensures Scheduling(rm, ov, packed)
    ensures (exists k :: Reported(rm, completed, ov, packed, k)) <==> BrokenRoadmap(rm, completed)
  {
    hide PackSpec, CustomJob, BrokenRoadmap, Broken, Reported, ById, ValidRoadmap, WorkFor, Met, OpenPrerequisites;
    var job := CustomJob(rm, completed, asOf, ov, fixed);
    PackedKeys(job);
    assert packed.Keys == ById(rm).Keys;
    forall k | k in job.work.order
      ensures k in Members(job.work.order)
      ensures k in job.work.waits && job.work.waits[k] == OpenPrerequisites(rm, completed, ById(rm)[k])
      ensures job.work.waits[k] !! fixed.Keys
      ensures Scheduling(rm, ov, packed)
      ensures Reported(rm, completed, ov, packed, k)
         <==> exists p <- OpenPrerequisites(rm, completed, ById(rm)[k]) :: !Met(packed, p, k)
    {
      assert k in Members(job.work.order);
      CustomJobWaits(rm, completed, asOf, ov, fixed, k);
      ReportedIffNotMet(rm, completed, ov, packed, k);
    }
    MetIffSound(job);
    CustomWork(rm, completed, asOf, ov, fixed);
    BrokenIff(rm, completed, ov);
    if k :| Reported(rm, completed, ov, packed, k) {
      ReportedIsOpen(rm, completed, ov, packed, k);
      assert k in Members(job.work.order) && k in job.work.order;
      var p :| p in OpenPrerequisites(rm, completed, ById(rm)[k]) && !Met(packed, p, k);
      assert p in job.work.waits[k] && !Met(packed, p, k);
    }
    if !AllMet(job.work, packed) {
      var k, p :| k in job.work.order && p in job.work.waits[k] && !Met(packed, p, k);
      assert Reported(rm, completed, ov, packed, k);
    }
  }

  lemma ReportedIsOpen(rm: Roadmap, completed: set<Id>, ov: Option<Overrides>, packed: map<Id, Scheduled>, k: Id)
    requires ValidRoadmap(rm) && Scheduling(rm, ov, packed) && Reported(rm, completed, ov, packed, k)
    ensures k in ById(rm) && k !in completed
  {
  }

  lemma CustomWork(rm: Roadmap, completed: set<Id>, asOf: Option<Instant>, ov: Option<Overrides>,
                   fixed: map<Id, Scheduled>)
    requires ValidRoadmap(rm) && ValidSaved(ov) && fixed.Keys == ById(rm).Keys * completed
    ensures CustomJob(rm, completed, asOf, ov, fixed).work == WorkFor(rm, completed, ov, ById(rm).Keys * completed)
  {
  }

  /**
    In a customized plan some line reports a missing prerequisite if and only if an unfinished step
    has an unknown prerequisite or unfinished steps require each other in a ring.
   */
  lemma ViolationsIffBroken(rm: Roadmap, completed: set<Id>, asOf: Option<Instant>, saved: Option<Overrides>)
    requires ValidRoadmap(rm) && ValidSaved(saved) && BuildPlan(rm, completed, asOf, saved).Ready?
    requires BuildPlan(rm, completed, asOf, saved).plan.isCustomized
    ensures var steps := BuildPlan(rm, completed, asOf, saved).plan.steps;
      (exists i :: 0 <= i < |steps| && steps[i].unmet != []) <==> BrokenRoadmap(rm, completed)
  {
    hide RecommendedPacking, FixedSchedules, PackSpec, CustomJob, BrokenRoadmap, PlanSteps, PlanOrder, ById;
    hide ValidRoadmap;
    hide Scheduling, Reported, PlanStepFor, StartDate, Collapses;
    var recommended := RecommendedPacking(rm, completed).schedules;
    var fixed := FixedSchedules(rm, completed, Snapshots(saved), recommended);
    var packed := PlanPacking(rm, completed, asOf, saved, recommended, fixed).schedules;
    var ids := PlanOrder(rm, saved);
    var steps := BuildPlan(rm, completed, asOf, saved).plan.steps;
    ReportedIffBroken(rm, completed, asOf, saved, fixed, packed);
    assert steps == PlanSteps(rm, completed, Snapshots(saved), saved, fixed, packed, ids);
    forall i | 0 <= i < |steps|
      ensures steps[i].unmet != [] <==> Reported(rm, completed, saved, packed, ids[i])
    {
      LineReports(rm, completed, Snapshots(saved), saved, fixed, packed, ids, i);
    }
    if k :| Reported(rm, completed, saved, packed, k) {
      ReportedIsOpen(rm, completed, saved, packed, k);
      assert k in Members(ids);
      var i :| 0 <= i < |ids| && ids[i] == k;
      assert steps[i].unmet != [];
    }
  }

  lemma LineReports(rm: Roadmap, completed: set<Id>, snapshots: map<Id, PlanStep>, ov: Option<Overrides>,
                    fixed: map<Id, Scheduled>, packed: map<Id, Scheduled>, ids: seq<Id>, i: nat)
    requires ValidRoadmap(rm) && Members(ids) <= ById(rm).Keys && Scheduling(rm, ov, packed) && i < |ids|
    ensures PlanSteps(rm, completed, snapshots, ov, fixed, packed, ids)[i].unmet != []
       <==> Reported(rm, completed, ov, packed, ids[i])
  {
    hide Scheduling, PlanSteps, ValidRoadmap, ById, HoursFor, ExactAllocations, Unmet, StartDate, LocalDate, DatesOf;
    PlanStepAt(rm, completed, snapshots, ov, fixed, packed, ids, i);
  }

  // ---- Hours the solver assigned ----

  lemma {:induction false} AddInOrderCounts(a: seq<Allocation>, w: int, v: int)
    requires WeeksIncrease(a)
    ensures WeeksIncrease(AddInOrder(a, w)) && AddInOrder(a, w) != []
    ensures AddInOrder(a, w)[0].week == if a == [] || w < a[0].week then w else a[0].week
    ensures HoursFrom(AddInOrder(a, w), v) == HoursFrom(a, v) + if v == w then 1 else 0
  {
    if a != [] && w > a[0].week {
      AddInOrderCounts(a[1..], w, v);
    }
  }

  function HoursFrom(a: seq<Allocation>, v: int): int {
    if a == [] then 0 else (if a[0].week == v then a[0].hours else 0) + HoursFrom(a[1..], v)
  }

  function CountWeek(rm: Roadmap, slots: seq<Instant>, v: int): nat {
    if slots == [] then 0
    else CountWeek(rm, slots[..|slots| - 1], v) + if WeekOfInstant(rm, slots[|slots| - 1]) == v then 1 else 0
  }

  /** Solver hours are projected week by week: weeks in order, each with the number of hours that fall in it. */
  lemma {:induction false} ExactAllocationsCount(rm: Roadmap, slots: seq<Instant>, v: int)
    ensures WeeksIncrease(ExactAllocations(rm, slots))
    ensures HoursFrom(ExactAllocations(rm, slots), v) == CountWeek(rm, slots, v)
  {
    hide WeekOfInstant;
    if slots != [] {
      var n := |slots| - 1;
      ExactAllocationsCount(rm, slots[..n], v);
      AddInOrderCounts(ExactAllocations(rm, slots[..n]), WeekOfInstant(rm, slots[n]), v);
    }
  }
}
