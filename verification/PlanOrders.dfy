/**
  The order of a plan's lines: the saved order first, then the steps it leaves out by position; and when a
  saved plan counts as customized.
 */
module PlanOrders {
  import opened Basics
  import opened WorkCalendar
  import opened WorkingHours
  import opened Rotation
  import opened Packer
  import opened Priority
  import opened WeeklyPlan
  import opened PlanLaws

  /** By position, ties by identifier. */
  predicate StepBefore(a: Step, b: Step) {
    a.position < b.position || (a.position == b.position && a.id < b.id)
  }

  /** What an order says of two steps of the roadmap. */
  ghost predicate SavedBefore(rm: Roadmap, order: seq<Id>, a: Id, b: Id)
    requires ValidRoadmap(rm) && a in ById(rm) && b in ById(rm)
  {
    if a in order && b in order then exists i, j :: 0 <= i < j < |order| && order[i] == a && order[j] == b
    else if a in order || b in order then a in order
    else StepBefore(ById(rm)[a], ById(rm)[b])
  }

  // ---- Positions ----

  lemma PositionInOrder(order: seq<Id>, a: Id, b: Id)
    requires NoDup(order) && a in order && b in order
    ensures Ahead(order, a, b) <==> exists i, j :: 0 <= i < j < |order| && order[i] == a && order[j] == b
  {
    var i, j := Position(order, a), Position(order, b);
    assert order[i] == a && order[j] == b;
  }

  lemma {:induction false} PositionConcat(a: seq<Id>, b: seq<Id>, k: Id)
    ensures Position(a + b, k) == if k in a then Position(a, k) else |a| + Position(b, k)
  {
    if a == [] {
      assert a + b == b;
    } else {
      var first, rest := a[0], a[1..];
      assert a == [first] + rest && a + b == [first] + (rest + b);
      PositionConcat(rest, b, k);
      if k != first {
        PositionCons(first, rest, k);
        PositionCons(first, rest + b, k);
      }
    }
  }

  lemma FilterKeepsOrder(order: seq<Id>, keep: set<Id>, a: Id, b: Id)
    requires NoDup(order) && a in order && b in order && a in keep && b in keep
    ensures Ahead(ByPosition(order, keep), a, b) <==> Ahead(order, a, b)
  {
    ByPositionSorted(order, keep);
    AheadInOrder(order, ByPosition(order, keep), a, b);
  }

  /** The recommended order is by position, ties by identifier. */
  lemma RecommendedByPosition(rm: Roadmap, a: Id, b: Id)
    requires ValidRoadmap(rm) && a in ById(rm) && b in ById(rm) && a != b
    ensures Ahead(RecommendedIds(rm), a, b) <==> StepBefore(ById(rm)[a], ById(rm)[b])
  {
    hide Recommended, ById;
    RecommendedInOrder(rm.steps);
    RecommendedIdsMembers(rm);
    var r, ids := Recommended(rm.steps), RecommendedIds(rm);
    assert a in Members(ids) && b in Members(ids) && a in ids && b in ids;
    var i, j := Position(ids, a), Position(ids, b);
    StepAt(rm, i);
    StepAt(rm, j);
    assert ids[i] == a && ids[j] == b;
    if i < j {
      assert Before(r[i], r[j]);
    } else {
      assert i != j && Before(r[j], r[i]);
    }
  }

  lemma StepAt(rm: Roadmap, i: nat)
    requires ValidRoadmap(rm) && i < |RecommendedIds(rm)|
    ensures |RecommendedIds(rm)| == |Recommended(rm.steps)| && RecommendedIds(rm)[i] in ById(rm)
    ensures ById(rm)[RecommendedIds(rm)[i]] == Recommended(rm.steps)[i]
  {
    hide Recommended;
    var s := Recommended(rm.steps)[i];
    assert s in multiset(Recommended(rm.steps)) && s in rm.steps;
    var j :| 0 <= j < |rm.steps| && rm.steps[j] == s;
  }

  /** The saved order, step by step. */
  lemma OrderFollowsSaved(rm: Roadmap, order: seq<Id>, a: Id, b: Id)
    requires ValidRoadmap(rm) && NoDup(order) && a in ById(rm) && b in ById(rm) && a != b
    ensures Ahead(OrderedIds(rm, order), a, b) <==> SavedBefore(rm, order, a, b)
  {
    hide RecommendedIds, ById, ByPosition, Position, StepBefore;
    RecommendedIdsMembers(rm);
    var all := RecommendedIds(rm);
    var custom := ByPosition(order, Members(all));
    var rest := ByPosition(all, Members(all) - Members(custom));
    assert a in Members(all) && b in Members(all);
    PositionConcat(custom, rest, a);
    PositionConcat(custom, rest, b);
    if a in order && b in order {
      FilterKeepsOrder(order, Members(all), a, b);
      PositionInOrder(order, a, b);
    } else if a !in order && b !in order {
      assert a in rest && b in rest;
      FilterKeepsOrder(all, Members(all) - Members(custom), a, b);
      RecommendedByPosition(rm, a, b);
    }
  }

  // ---- Customized or not ----

  /** The saved order puts no two steps differently than their positions do. */
  ghost predicate OrderUnchanged(rm: Roadmap, order: seq<Id>)
    requires ValidRoadmap(rm)
  {
    forall a, b :: a in ById(rm) && b in ById(rm) && StepBefore(ById(rm)[a], ById(rm)[b]) ==>
      SavedBefore(rm, order, a, b)
  }

  lemma KnownId(rm: Roadmap, a: Id)
    requires ValidRoadmap(rm) && a in ById(rm)
    ensures ById(rm)[a].id == a
  {
  }

  /** Two orders of the same steps that agree on all pairs are the same. */
  lemma AgreeingOrders(x: seq<Id>, y: seq<Id>)
    requires NoDup(x) && NoDup(y) && Members(x) == Members(y)
    requires forall a, b :: a in y && b in y && Ahead(y, a, b) ==> Ahead(x, a, b)
    ensures x == y
  {
    QueueIsSorted(y);
    QueueIsSorted(x);
    hide Position;
    forall i, j | 0 <= i < j < |y|
      ensures Position(x, y[i]) < Position(x, y[j])
    {
      assert y[i] in y && y[j] in y && Ahead(y, y[i], y[j]);
    }
    SortIsByPosition(x, y);
    SortIsByPosition(x, x);
  }

  lemma UnchangedIff(rm: Roadmap, order: seq<Id>)
    requires ValidRoadmap(rm) && NoDup(order)
    ensures OrderedIds(rm, order) == RecommendedIds(rm) <==> OrderUnchanged(rm, order)
  {
    hide RecommendedIds, OrderedIds, ById, Position, StepBefore, SavedBefore;
    RecommendedIdsMembers(rm);
    var x, y := OrderedIds(rm, order), RecommendedIds(rm);
    forall a, b | a in ById(rm) && b in ById(rm)
      ensures a == b || ((Ahead(y, a, b) <==> StepBefore(ById(rm)[a], ById(rm)[b])) &&
                         (Ahead(x, a, b) <==> SavedBefore(rm, order, a, b)))
      ensures a == b ==> !StepBefore(ById(rm)[a], ById(rm)[b])
    {
      if a != b {
        RecommendedByPosition(rm, a, b);
        OrderFollowsSaved(rm, order, a, b);
      } else {
        NotBeforeItself(ById(rm)[a]);
      }
    }
    if OrderUnchanged(rm, order) {
      forall a, b | a in y && b in y && Ahead(y, a, b)
        ensures Ahead(x, a, b)
      {
        assert a in Members(y) && b in Members(y);
      }
      AgreeingOrders(x, y);
    }
  }

  lemma NotBeforeItself(s: Step)
    ensures !StepBefore(s, s)
  {
  }

  /** The saved plan says something else than the recommendation. */
  ghost predicate Differs(rm: Roadmap, ov: Overrides)
    requires ValidRoadmap(rm)
  {
    || ov.weekly != rm.weekly || ov.rests != {} || !OrderUnchanged(rm, ov.order)
    || exists s <- rm.steps :: s.id in ov.hours && ov.hours[s.id] != Hours(s)
  }

  /**
    A plan is customized exactly when it is saved as such and differs from the recommendation in its weekly hours,
    rest weeks, order or hours; then it has the saved weekly hours and rest weeks, else the recommended ones.
   */
  lemma CustomizedIff(rm: Roadmap, completed: set<Id>, asOf: Option<Instant>, saved: Option<Overrides>)
    requires ValidRoadmap(rm) && ValidSaved(saved) && BuildPlan(rm, completed, asOf, saved).Ready?
    ensures var plan := BuildPlan(rm, completed, asOf, saved).plan;
      && (plan.isCustomized <==> saved.Some? && saved.value.isCustomized && Differs(rm, saved.value))
      && plan.weekly == (if plan.isCustomized then saved.value.weekly else rm.weekly)
      && plan.rests == (if plan.isCustomized then saved.value.rests else {})
      && plan.version == (if saved.Some? then saved.value.version else 0)
  {
    hide RecommendedPacking, FixedSchedules, PlanPacking, PlanSteps, PlanOrder, ById, ValidRoadmap, StartDate;
    hide OrderedIds, RecommendedIds, OrderUnchanged, Hours;
    if saved.Some? {
      UnchangedIff(rm, saved.value.order);
    }
  }

  // ---- What is packed ----

  /** The solver gave the step a start and an end that is not before it. */
  ghost predicate Dated(s: Step) {
    exists lo, hi :: s.plannedStart == Some(lo) && s.plannedEnd == Some(hi) && lo <= hi
  }

  /** A step would rather start where the solver put it, as long as the order is not changed. */
  lemma WishesIff(rm: Roadmap, completed: set<Id>, ov: Option<Overrides>, fixed: set<Id>, k: Id)
    requires ValidRoadmap(rm) && ValidSaved(ov)
    ensures var wishes := WorkFor(rm, completed, ov, fixed).preferred;
      && (k in wishes <==> k in ById(rm) && Dated(ById(rm)[k]) && (ov.None? || OrderUnchanged(rm, ov.value.order)))
      && (k in wishes ==>
            wishes[k] == WorkingHourOffset(ById(rm)[k].plannedStart.value, StartsAt(rm), rm.weekly, rm.zone))
  {
    hide RecommendedIds, OrderedIds, ById, OrderUnchanged, StartsAt, WorkingHourOffset, ValidRoadmap, OrderToPlan;
    if ov.Some? {
      UnchangedIff(rm, ov.value.order);
    }
  }

  /** Steps are packed by the saved order if there is one in effect, else by their positions. */
  lemma WorkFollowsSaved(rm: Roadmap, completed: set<Id>, ov: Option<Overrides>, fixed: set<Id>, a: Id, b: Id)
    requires ValidRoadmap(rm) && ValidSaved(ov) && a in ById(rm) && b in ById(rm) && a != b
    requires a !in fixed && b !in fixed
    ensures Ahead(WorkFor(rm, completed, ov, fixed).order, a, b) <==>
      if ov.Some? then SavedBefore(rm, ov.value.order, a, b) else StepBefore(ById(rm)[a], ById(rm)[b])
  {
    hide RecommendedIds, OrderedIds, ById, Position, ByPosition, SavedBefore, StepBefore, Preferred, ValidRoadmap;
    var ids := PlanOrder(rm, ov);
    assert a in Members(ids) && b in Members(ids);
    FilterKeepsOrder(ids, ById(rm).Keys - fixed, a, b);
    if ov.Some? {
      OrderFollowsSaved(rm, ov.value.order, a, b);
    } else {
      RecommendedByPosition(rm, a, b);
    }
  }

  /** A step's own hours are those it was pinned to, else its estimate, else 20. */
  ghost predicate OwnHours(s: Step, hours: int) {
    match (s.pinnedHours, s.estimatedHours)
    case (Some(pinned), _) => hours == pinned
    case (None, Some(estimated)) => hours == estimated
    case (None, None) => hours == 20
  }

  /** What each step asks for and waits for. */
  lemma WorkAsks(rm: Roadmap, completed: set<Id>, ov: Option<Overrides>, fixed: set<Id>, k: Id)
    requires ValidRoadmap(rm) && ValidSaved(ov) && k in ById(rm) && k !in fixed
    ensures var w, s := WorkFor(rm, completed, ov, fixed), ById(rm)[k];
      && k in w.hours
      && (if ov.Some? && k in ov.value.hours then w.hours[k] == ov.value.hours[k] else OwnHours(s, w.hours[k]))
      && k in w.waits && forall p :: p in w.waits[k] <==> p in s.prerequisites && (p in ById(rm) ==> p !in completed)
  {
    hide RecommendedIds, OrderedIds, ById, Preferred, ValidRoadmap, OrderToPlan;
    KnownId(rm, k);
  }

  // ---- The lines ----

  lemma {:induction false} PlanStepIds(rm: Roadmap, completed: set<Id>, snapshots: map<Id, PlanStep>,
                                       ov: Option<Overrides>, fixed: map<Id, Scheduled>, packed: map<Id, Scheduled>,
                                       ids: seq<Id>, i: nat)
    requires ValidRoadmap(rm) && Members(ids) <= ById(rm).Keys && Scheduling(rm, ov, packed) && i < |ids|
    ensures var line := PlanSteps(rm, completed, snapshots, ov, fixed, packed, ids)[i];
      line.id == ids[i] && line.number == i + 1 && (line.completed <==> ids[i] in completed)
  {
    hide Scheduling, PlanSteps, ValidRoadmap, ById, HoursFor, ExactAllocations, Unmet, StartDate, LocalDate, DatesOf;
    PlanStepAt(rm, completed, snapshots, ov, fixed, packed, ids, i);
  }

  /** The line `i` of every plan is numbered `i + 1` and is that of the `i`-th step of the order. */
  lemma LineIds(rm: Roadmap, completed: set<Id>, asOf: Option<Instant>, saved: Option<Overrides>, i: nat)
    requires ValidRoadmap(rm) && ValidSaved(saved) && BuildPlan(rm, completed, asOf, saved).Ready?
    requires i < |BuildPlan(rm, completed, asOf, saved).plan.steps|
    ensures var steps := BuildPlan(rm, completed, asOf, saved).plan.steps;
      var ids := PlanOrder(rm, Effective(rm, saved));
      |steps| == |ids| && steps[i].id == ids[i] && steps[i].number == i + 1 &&
      (steps[i].completed <==> steps[i].id in completed)
  {
    hide RecommendedPacking, FixedSchedules, PlanPacking, PlanSteps, PlanOrder, ById, ValidRoadmap, StartDate;
    hide Collapses, Scheduling;
    var ov := Effective(rm, saved);
    var recommended := RecommendedPacking(rm, completed).schedules;
    var fixed := FixedSchedules(rm, completed, Snapshots(saved), recommended);
    var packed := PlanPacking(rm, completed, asOf, ov, recommended, fixed).schedules;
    PlanPackingKeys(rm, completed, asOf, ov, recommended, fixed);
    PlanStepIds(rm, completed, Snapshots(saved), ov, fixed, packed, PlanOrder(rm, ov), i);
  }

  /** In every plan the lines follow the saved order if it is customized, else the positions. */
  lemma LinesInOrder(rm: Roadmap, completed: set<Id>, asOf: Option<Instant>, saved: Option<Overrides>, i: nat, j: nat)
    requires ValidRoadmap(rm) && ValidSaved(saved) && BuildPlan(rm, completed, asOf, saved).Ready?
    requires i < j < |BuildPlan(rm, completed, asOf, saved).plan.steps|
    ensures var plan := BuildPlan(rm, completed, asOf, saved).plan;
      var a, b := plan.steps[i].id, plan.steps[j].id;
      && a in ById(rm) && b in ById(rm) && a != b
      && if plan.isCustomized then saved.Some? && SavedBefore(rm, saved.value.order, a, b)
         else StepBefore(ById(rm)[a], ById(rm)[b])
  {
    hide RecommendedPacking, FixedSchedules, PlanPacking, PlanSteps, OrderedIds, RecommendedIds, ById, ValidRoadmap;
    hide StartDate, Collapses, Position, SavedBefore, StepBefore;
    LineIds(rm, completed, asOf, saved, i);
    LineIds(rm, completed, asOf, saved, j);
    var ov := Effective(rm, saved);
    var ids := PlanOrder(rm, ov);
    var a, b := ids[i], ids[j];
    assert a in Members(ids) && b in Members(ids);
    InItsPlace(ids, i);
    InItsPlace(ids, j);
    if ov.Some? {
      OrderFollowsSaved(rm, saved.value.order, a, b);
    } else {
      RecommendedByPosition(rm, a, b);
    }
  }

  lemma InItsPlace(ids: seq<Id>, i: nat)
    requires NoDup(ids) && i < |ids|
    ensures Position(ids, ids[i]) == i
  {
    assert ids[i] in ids;
  }

  /** Every step of the roadmap has a line, and only those. */
  lemma LinesAreSteps(rm: Roadmap, completed: set<Id>, asOf: Option<Instant>, saved: Option<Overrides>, k: Id)
    requires ValidRoadmap(rm) && ValidSaved(saved) && BuildPlan(rm, completed, asOf, saved).Ready?
    ensures var steps := BuildPlan(rm, completed, asOf, saved).plan.steps;
      k in ById(rm) <==> exists i :: 0 <= i < |steps| && steps[i].id == k
  {
    hide BuildPlan, PlanOrder, ById, ValidRoadmap, Effective;
    var steps, ids := BuildPlan(rm, completed, asOf, saved).plan.steps, PlanOrder(rm, Effective(rm, saved));
    LineTotal(rm, completed, asOf, saved);
    forall i | 0 <= i < |steps|
      ensures steps[i].id == ids[i] && ids[i] in Members(ids)
    {
      LineIds(rm, completed, asOf, saved, i);
    }
    if k in ById(rm) {
      assert k in Members(ids);
      var i :| 0 <= i < |ids| && ids[i] == k;
      assert steps[i].id == k;
    }
  }

  lemma LineTotal(rm: Roadmap, completed: set<Id>, asOf: Option<Instant>, saved: Option<Overrides>)
    requires ValidRoadmap(rm) && ValidSaved(saved) && BuildPlan(rm, completed, asOf, saved).Ready?
    ensures |BuildPlan(rm, completed, asOf, saved).plan.steps| == |PlanOrder(rm, Effective(rm, saved))|
  {
    hide RecommendedPacking, FixedSchedules, PlanPacking, PlanOrder, ById, ValidRoadmap, StartDate, Effective;
    hide Scheduling;
  }
}
