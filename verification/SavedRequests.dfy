/**
  What a save keeps of a request, what the plan then shows of it, and what a reset shows.
 */
module SavedRequests {
  import opened Basics
  import opened WorkCalendar
  import opened Rotation
  import opened Packer
  import opened WeeklyPlan
  import opened PlanOrders
  import opened CustomPlan
  import opened CustomHours
  import opened RecommendedPlan
  import opened EditProtocol

  /** The hours a request asks for a step: its own unless the request says otherwise. */
  function Asked(rm: Roadmap, request: Request, k: Id): nat
    requires ValidRoadmap(rm) && k in ById(rm)
  {
    if k in request.hours then request.hours[k] else Hours(ById(rm)[k])
  }

  /** The plan says what the request says. */
  ghost predicate Keeps(rm: Roadmap, request: Request, plan: Overrides)
    requires ValidRoadmap(rm)
  {
    && plan.weekly == request.weekly && plan.rests == request.rests && plan.order == request.order
    && forall k <- ById(rm) :: HoursFor(Some(plan), ById(rm)[k]) == Asked(rm, request, k)
  }

  // ---- Drafts ----

  /** A completed line of the plan whose hours the request would change. */
  ghost predicate ChangesCompleted(steps: seq<PlanStep>, request: Request) {
    exists i :: 0 <= i < |steps| && steps[i].completed && steps[i].id in request.hours &&
      request.hours[steps[i].id] != steps[i].hours
  }

  lemma DraftKeeps(rm: Roadmap, completed: set<Id>, asOf: Option<Instant>, request: Request,
                   savedAt: Option<Instant>, existing: Option<Overrides>)
    requires ValidRoadmap(rm) && ValidSaved(existing)
    ensures var d := MakeOverrides(rm, completed, asOf, request, savedAt, existing);
      d.Draft? ==>
        && Keeps(rm, request, d.plan) && d.plan.version == request.expectedVersion && d.plan.isCustomized
        && d.plan.savedAt == savedAt
  {
    hide BuildPlan, HoursChanged, CompletedLines, ById, ValidRoadmap, Keeps, DraftFrom;
    if MakeOverrides(rm, completed, asOf, request, savedAt, existing).Draft? {
      DraftFromKeeps(rm, request, savedAt, BuildPlan(rm, completed, asOf, existing).plan);
    }
  }

  lemma DraftFromKeeps(rm: Roadmap, request: Request, savedAt: Option<Instant>, current: Plan)
    requires ValidRoadmap(rm) && request.hours.Keys <= ById(rm).Keys
    ensures var plan := DraftFrom(rm, request, savedAt, current);
      Keeps(rm, request, plan) && plan.version == request.expectedVersion && plan.isCustomized &&
      plan.savedAt == savedAt
  {
    hide CompletedLines, Hours, ById, ValidRoadmap;
    var plan := DraftFrom(rm, request, savedAt, current);
    forall k | k in ById(rm)
      ensures HoursFor(Some(plan), ById(rm)[k]) == Asked(rm, request, k)
    {
      KnownId(rm, k);
    }
  }

  lemma {:induction false} LinesHave(steps: seq<PlanStep>, i: nat)
    requires i < |steps| && forall a, b :: 0 <= a < b < |steps| ==> steps[a].id != steps[b].id
    ensures steps[i].id in LinesById(steps) && LinesById(steps)[steps[i].id] == steps[i]
  {
    var n := |steps| - 1;
    if i < n {
      LinesHave(steps[..n], i);
    }
  }

  lemma {:induction false} LinesFrom(steps: seq<PlanStep>, k: Id)
    requires k in LinesById(steps)
    ensures exists i :: 0 <= i < |steps| && steps[i].id == k && LinesById(steps)[k] == steps[i]
  {
    var n := |steps| - 1;
    if steps[n].id != k {
      LinesFrom(steps[..n], k);
      var i :| 0 <= i < n && steps[..n][i].id == k && LinesById(steps[..n])[k] == steps[..n][i];
      assert steps[i] == steps[..n][i];
    }
  }

  lemma ChangedIff(plan: Plan, request: Request)
    requires forall a, b :: 0 <= a < b < |plan.steps| ==> plan.steps[a].id != plan.steps[b].id
    ensures HoursChanged(request.hours, CompletedLines(plan)) <==> ChangesCompleted(plan.steps, request)
  {
    hide LinesById;
    var steps, lines := plan.steps, LinesById(plan.steps);
    if HoursChanged(request.hours, CompletedLines(plan)) {
      var k :| k in CompletedLines(plan) && k in request.hours && request.hours[k] != CompletedLines(plan)[k].hours;
      LinesFrom(steps, k);
      var i :| 0 <= i < |steps| && steps[i].id == k && lines[k] == steps[i];
      assert steps[i].completed;
    }
    if i :| 0 <= i < |steps| && steps[i].completed && steps[i].id in request.hours &&
            request.hours[steps[i].id] != steps[i].hours {
      LinesHave(steps, i);
      assert steps[i].id in CompletedLines(plan);
    }
  }

  lemma DistinctLines(rm: Roadmap, completed: set<Id>, asOf: Option<Instant>, saved: Option<Overrides>)
    requires ValidRoadmap(rm) && ValidSaved(saved) && BuildPlan(rm, completed, asOf, saved).Ready?
    ensures var steps := BuildPlan(rm, completed, asOf, saved).plan.steps;
      forall a, b :: 0 <= a < b < |steps| ==> steps[a].id != steps[b].id
  {
    hide BuildPlan, ById, ValidRoadmap, SavedBefore, StepBefore;
    var steps := BuildPlan(rm, completed, asOf, saved).plan.steps;
    forall a, b | 0 <= a < b < |steps|
      ensures steps[a].id != steps[b].id
    {
      LinesInOrder(rm, completed, asOf, saved, a, b);
    }
  }

  lemma DuplicatesShow(s: seq<Id>)
    ensures |s| == |Members(s)| <==> NoDup(s)
  {
    DistinctBySize(s);
    if NoDup(s) {
      MembersCount(s);
    }
  }

  lemma {:induction false} MembersCount(s: seq<Id>)
    requires NoDup(s)
    ensures |Members(s)| == |s|
  {
    if s != [] {
      var n := |s| - 1;
      MembersCount(s[..n]);
      MembersPrefix(s, n);
      assert s[..n + 1] == s;
      var last := s[n];
      assert last !in Members(s[..n]);
    }
  }

  /**
    A draft is made exactly when the order names every step once, hours are given for steps of the roadmap only,
    the recommended and the current plan can be built, and no completed line would change its hours.
   */
  lemma DraftIff(rm: Roadmap, completed: set<Id>, asOf: Option<Instant>, request: Request,
                 savedAt: Option<Instant>, existing: Option<Overrides>)
    requires ValidRoadmap(rm) && ValidSaved(existing)
    ensures MakeOverrides(rm, completed, asOf, request, savedAt, existing).Draft? <==>
      && NoDup(request.order) && Members(request.order) == ById(rm).Keys && request.hours.Keys <= ById(rm).Keys
      && BuildPlan(rm, completed, asOf, None).Ready? && BuildPlan(rm, completed, asOf, existing).Ready?
      && !ChangesCompleted(BuildPlan(rm, completed, asOf, existing).plan.steps, request)
  {
    hide BuildPlan, HoursChanged, ChangesCompleted, ById, ValidRoadmap, DraftFrom;
    DuplicatesShow(request.order);
    if BuildPlan(rm, completed, asOf, existing).Ready? {
      DistinctLines(rm, completed, asOf, existing);
      ChangedIff(BuildPlan(rm, completed, asOf, existing).plan, request);
    }
  }

  // ---- Saves ----

  /** Nobody finished a step that the save does not know as completed. */
  ghost predicate ProgressKnown(rm: Roadmap, completed: set<Id>, completedNow: set<Id>)
    requires ValidRoadmap(rm)
  {
    forall k :: k in ById(rm) && k in completedNow ==> k in completed
  }

  /** An accepted save stores the request, with the next version and the time of the write. */
  lemma SaveStoresRequest(rm: Roadmap, saved: Option<Overrides>, completed: set<Id>, asOf: Option<Instant>,
                          request: Request, now: Instant, completedNow: set<Id>, dbNow: Instant)
    requires ValidRoadmap(rm) && ValidSaved(saved)
    requires Save(rm, saved, completed, asOf, request, now, completedNow, dbNow).Accepted?
    ensures var s := Save(rm, saved, completed, asOf, request, now, completedNow, dbNow).saved;
      && Keeps(rm, request, s) && NoDup(s.order) && s.version == request.expectedVersion + 1 && s.savedAt == Some(dbNow)
      && (s.isCustomized <==> Differs(rm, s))
  {
    hide BuildPlan, MakeOverrides, LinesById, ById, ValidRoadmap, Differs, HoursFor;
    var draft := MakeOverrides(rm, completed, asOf, request, Some(now), saved).plan;
    DraftKeeps(rm, completed, asOf, request, Some(now), saved);
    CustomizedIff(rm, completed, asOf, Some(draft));
    var s := Save(rm, saved, completed, asOf, request, now, completedNow, dbNow).saved;
    SameContent(rm, request, draft, s);
  }

  /** An accepted save stores every line of the plan it drafts, as that plan shows it. */
  lemma SaveStoresLines(rm: Roadmap, saved: Option<Overrides>, completed: set<Id>, asOf: Option<Instant>,
                        request: Request, now: Instant, completedNow: set<Id>, dbNow: Instant, i: nat)
    requires ValidRoadmap(rm) && ValidSaved(saved)
    requires Save(rm, saved, completed, asOf, request, now, completedNow, dbNow).Accepted?
    requires var draft := MakeOverrides(rm, completed, asOf, request, Some(now), saved);
      draft.Draft? && BuildPlan(rm, completed, asOf, Some(draft.plan)).Ready? &&
      i < |BuildPlan(rm, completed, asOf, Some(draft.plan)).plan.steps|
    ensures var draft := MakeOverrides(rm, completed, asOf, request, Some(now), saved);
      var line := BuildPlan(rm, completed, asOf, Some(draft.plan)).plan.steps[i];
      var stored := Save(rm, saved, completed, asOf, request, now, completedNow, dbNow).saved.snapshots;
      line.id in stored && stored[line.id] == line
  {
    hide BuildPlan, MakeOverrides, LinesById, ById, ValidRoadmap;
    var draft := MakeOverrides(rm, completed, asOf, request, Some(now), saved).plan;
    DistinctLines(rm, completed, asOf, Some(draft));
    LinesHave(BuildPlan(rm, completed, asOf, Some(draft)).plan.steps, i);
  }

  /** Only the weekly hours, rest weeks, order and hours matter for what a plan says. */
  lemma SameContent(rm: Roadmap, request: Request, a: Overrides, b: Overrides)
    requires ValidRoadmap(rm) && a.weekly == b.weekly && a.rests == b.rests && a.order == b.order && a.hours == b.hours
    ensures (Differs(rm, a) <==> Differs(rm, b)) && (Keeps(rm, request, a) <==> Keeps(rm, request, b))
  {
    hide ById, ValidRoadmap, OrderUnchanged, Hours;
    assert forall k <- ById(rm) :: HoursFor(Some(a), ById(rm)[k]) == HoursFor(Some(b), ById(rm)[k]);
  }

  /** A save is accepted exactly when it can be drafted and planned, knows all progress and names the version. */
  lemma SaveIff(rm: Roadmap, saved: Option<Overrides>, completed: set<Id>, asOf: Option<Instant>,
                request: Request, now: Instant, completedNow: set<Id>, dbNow: Instant)
    requires ValidRoadmap(rm) && ValidSaved(saved)
    ensures var draft := MakeOverrides(rm, completed, asOf, request, Some(now), saved);
      Save(rm, saved, completed, asOf, request, now, completedNow, dbNow).Accepted? <==>
        && draft.Draft? && BuildPlan(rm, completed, asOf, Some(draft.plan)).Ready?
        && ProgressKnown(rm, completed, completedNow) && request.expectedVersion == CurrentVersion(saved)
  {
    hide BuildPlan, MakeOverrides, LinesById, ById, ValidRoadmap, ProgressKnown;
    var draft := MakeOverrides(rm, completed, asOf, request, Some(now), saved);
    if draft.Draft? && BuildPlan(rm, completed, asOf, Some(draft.plan)).Ready? {
      DraftKeeps(rm, completed, asOf, request, Some(now), saved);
      ProgressSeen(rm, completed, asOf, Some(draft.plan), completedNow);
    }
  }

  /** The reason a draft is refused: the order is checked first, then the hours, then whether plans can be built. */
  lemma DraftRefusal(rm: Roadmap, completed: set<Id>, asOf: Option<Instant>, request: Request,
                     savedAt: Option<Instant>, existing: Option<Overrides>)
    requires ValidRoadmap(rm) && ValidSaved(existing)
    ensures var draft := MakeOverrides(rm, completed, asOf, request, savedAt, existing);
      var recommended, current := BuildPlan(rm, completed, asOf, None), BuildPlan(rm, completed, asOf, existing);
      if !(NoDup(request.order) && Members(request.order) == ById(rm).Keys) then draft == Refused(BadOrder)
      else if !(request.hours.Keys <= ById(rm).Keys) then draft == Refused(UnknownHours)
      else if recommended.Failed? then draft == Refused(CannotPlan(recommended.outcome))
      else if current.Failed? then draft == Refused(CannotPlan(current.outcome))
      else draft.Refused? ==> draft == Refused(CompletedHoursChanged)
  {
    hide BuildPlan, ById, ValidRoadmap, HoursChanged, DraftFrom, CompletedLines;
    DuplicatesShow(request.order);
  }

  /** The reason a save that can be drafted and planned is refused: progress is checked before the version. */
  lemma SaveRefusal(rm: Roadmap, saved: Option<Overrides>, completed: set<Id>, asOf: Option<Instant>,
                    request: Request, now: Instant, completedNow: set<Id>, dbNow: Instant)
    requires ValidRoadmap(rm) && ValidSaved(saved)
    ensures var draft := MakeOverrides(rm, completed, asOf, request, Some(now), saved);
      var written := Save(rm, saved, completed, asOf, request, now, completedNow, dbNow);
      if draft.Refused? then written == Rejected(draft.reason)
      else
        var preview := BuildPlan(rm, completed, asOf, Some(draft.plan));
        if preview.Failed? then written == Rejected(CannotPlan(preview.outcome))
        else if !ProgressKnown(rm, completed, completedNow) then written == Rejected(ProgressConflict)
        else written.Rejected? ==> written == Rejected(VersionConflict)
  {
    hide BuildPlan, MakeOverrides, LinesById, ById, ValidRoadmap, ProgressKnown;
    var draft := MakeOverrides(rm, completed, asOf, request, Some(now), saved);
    if draft.Draft? && BuildPlan(rm, completed, asOf, Some(draft.plan)).Ready? {
      ProgressSeen(rm, completed, asOf, Some(draft.plan), completedNow);
    }
  }

  lemma ProgressSeen(rm: Roadmap, completed: set<Id>, asOf: Option<Instant>, saved: Option<Overrides>, now: set<Id>)
    requires ValidRoadmap(rm) && ValidSaved(saved) && BuildPlan(rm, completed, asOf, saved).Ready?
    ensures var lines := LinesById(BuildPlan(rm, completed, asOf, saved).plan.steps);
      (exists k <- lines :: k in now && !lines[k].completed) <==> !ProgressKnown(rm, completed, now)
  {
    hide BuildPlan, LinesById, ById, ValidRoadmap;
    var steps := BuildPlan(rm, completed, asOf, saved).plan.steps;
    var lines := LinesById(steps);
    forall k | k in lines
      ensures k in ById(rm) && lines[k].completed == (k in completed)
    {
      LinesFrom(steps, k);
      LinesAreSteps(rm, completed, asOf, saved, k);
      LineState(rm, completed, asOf, saved, k);
    }
    if !ProgressKnown(rm, completed, now) {
      var k :| k in ById(rm) && k in now && k !in completed;
      LineState(rm, completed, asOf, saved, k);
      assert k in lines && !lines[k].completed;
    }
  }

  // ---- What a plan shows of a request ----

  /**
    The plan shown after a save: customized exactly when the request differs from the recommendation, and then
    with the requested weekly hours and rest weeks, its unfinished lines with the hours asked for.
   */
  lemma ShownAsRequested(rm: Roadmap, completed: set<Id>, asOf: Option<Instant>, request: Request, s: Overrides)
    requires ValidRoadmap(rm) && NoDup(s.order) && Keeps(rm, request, s) && (s.isCustomized <==> Differs(rm, s))
    requires BuildPlan(rm, completed, asOf, Some(s)).Ready?
    ensures var plan := BuildPlan(rm, completed, asOf, Some(s)).plan;
      && (plan.isCustomized <==> Differs(rm, s)) && plan.version == s.version
      && (plan.isCustomized ==> plan.weekly == request.weekly && plan.rests == request.rests)
  {
    hide BuildPlan, ById, ValidRoadmap, Differs, HoursFor;
    CustomizedIff(rm, completed, asOf, Some(s));
  }

  lemma LineAsRequested(rm: Roadmap, completed: set<Id>, asOf: Option<Instant>, request: Request, s: Overrides, i: nat)
    requires ValidRoadmap(rm) && NoDup(s.order) && Keeps(rm, request, s) && Customized(rm, completed, asOf, Some(s))
    requires i < |Lines(rm, completed, asOf, Some(s))| && !Lines(rm, completed, asOf, Some(s))[i].completed
    ensures var line := Lines(rm, completed, asOf, Some(s))[i];
      line.id in ById(rm) && line.hours == Asked(rm, request, line.id)
  {
    hide Lines, ById, ValidRoadmap, Customized, PlanJob, FixedIn, HoursFor, CustomJob, PackSpec, PlanOrder;
    LineAsks(rm, completed, asOf, Some(s), i);
  }

  /** No hour of a customized plan after a save is in a requested rest week. */
  lemma NoWorkInRestWeek(rm: Roadmap, completed: set<Id>, asOf: Option<Instant>, request: Request, s: Overrides,
                         h: Hour)
    requires ValidRoadmap(rm) && NoDup(s.order) && Keeps(rm, request, s) && Customized(rm, completed, asOf, Some(s))
    requires IsShown(rm, completed, asOf, Some(s), h)
    ensures PlanWeek(rm, h) !in request.rests && Usable(rm, request.rests, h)
  {
    hide ById, ValidRoadmap, Customized, IsShown, HoursFor;
    LineKeepsCalendar(rm, completed, asOf, Some(s), h);
  }

  /**
    A request that is put and accepted: what is stored says what was requested, and the plan shown is customized
    exactly when that differs from the recommendation, with the requested weekly hours and rest weeks.
   */
  lemma PutShowsRequest(rm: Roadmap, saved: Option<Overrides>, e: Event)
    requires ValidRoadmap(rm) && ValidSaved(saved) && e.DoSave? && Result(rm, saved, e).Accepted?
    ensures var s := Next(rm, saved, e);
      && s.Some? && Keeps(rm, e.request, s.value) && NoDup(s.value.order)
      && var shown := BuildPlan(rm, e.completed, e.asOf, s);
         shown.Ready? ==>
           && (shown.plan.isCustomized <==> Differs(rm, s.value))
           && (shown.plan.isCustomized ==> shown.plan.weekly == e.request.weekly && shown.plan.rests == e.request.rests)
    ensures Customized(rm, e.completed, e.asOf, Next(rm, saved, e)) ==>
      forall h :: IsShown(rm, e.completed, e.asOf, Next(rm, saved, e), h) ==> PlanWeek(rm, h) !in e.request.rests
  {
    hide BuildPlan, ById, ValidRoadmap, Differs, Keeps, Save;
    SaveStoresRequest(rm, saved, e.completed, e.asOf, e.request, e.now, e.completedNow, e.dbNow);
    var s := Next(rm, saved, e).value;
    if BuildPlan(rm, e.completed, e.asOf, Some(s)).Ready? {
      ShownAsRequested(rm, e.completed, e.asOf, e.request, s);
    }
    if Customized(rm, e.completed, e.asOf, Next(rm, saved, e)) {
      RestWeeksAreFree(rm, e.completed, e.asOf, e.request, Next(rm, saved, e).value);
    }
  }

  lemma RestWeeksAreFree(rm: Roadmap, completed: set<Id>, asOf: Option<Instant>, request: Request, s: Overrides)
    requires ValidRoadmap(rm) && NoDup(s.order) && Keeps(rm, request, s) && Customized(rm, completed, asOf, Some(s))
    ensures forall h :: IsShown(rm, completed, asOf, Some(s), h) ==> PlanWeek(rm, h) !in request.rests
  {
    hide IsShown, PlanWeek, ValidRoadmap, Keeps, Customized;
    forall h | IsShown(rm, completed, asOf, Some(s), h)
      ensures PlanWeek(rm, h) !in request.rests
    {
      NoWorkInRestWeek(rm, completed, asOf, request, s, h);
    }
  }

  // ---- Resets ----

  /** What a reset stores: nothing of a request, and of the history what is completed. */
  lemma ResetStores(rm: Roadmap, saved: Option<Overrides>, expectedVersion: nat, completedNow: set<Id>, dbNow: Instant)
    requires Reset(rm, saved, expectedVersion, completedNow, dbNow).Accepted?
    ensures var s := Reset(rm, saved, expectedVersion, completedNow, dbNow).saved;
      && s.weekly == rm.weekly && s.rests == {} && s.order == [] && s.hours == map[] && !s.isCustomized
      && s.savedAt == Some(dbNow) && s.version == CurrentVersion(saved) + 1
      && forall k :: k in s.snapshots <==> k in completedNow && saved.Some? && k in saved.value.snapshots
    ensures forall k <- Reset(rm, saved, expectedVersion, completedNow, dbNow).saved.snapshots ::
              Reset(rm, saved, expectedVersion, completedNow, dbNow).saved.snapshots[k] == saved.value.snapshots[k]
  {
  }

  /** After a reset the plan is the recommendation, except for what completed lines keep. */
  lemma ResetShowsRecommendation(rm: Roadmap, saved: Option<Overrides>, expectedVersion: nat, completedNow: set<Id>,
                                 dbNow: Instant, completed: set<Id>, asOf: Option<Instant>)
    requires ValidRoadmap(rm) && ValidSaved(saved)
    requires Reset(rm, saved, expectedVersion, completedNow, dbNow).Accepted?
    ensures var s := Some(Reset(rm, saved, expectedVersion, completedNow, dbNow).saved);
      var reset, recommended := BuildPlan(rm, completed, asOf, s), BuildPlan(rm, completed, asOf, None);
      && (reset.Ready? <==> recommended.Ready?)
      && (reset.Ready? ==> !reset.plan.isCustomized && SameOpenLines(reset.plan.steps, recommended.plan.steps))
  {
    hide BuildPlan, ById, ValidRoadmap;
    var s := Some(Reset(rm, saved, expectedVersion, completedNow, dbNow).saved);
    RecommendationShown(rm, completed, asOf, s);
  }

  /** A step that is completed only after a reset does not get back what was once saved for it. */
  lemma ResetForgets(rm: Roadmap, saved: Option<Overrides>, expectedVersion: nat, completedNow: set<Id>,
                     dbNow: Instant, completed: set<Id>, asOf: Option<Instant>, i: nat)
    requires ValidRoadmap(rm) && ValidSaved(saved)
    requires Reset(rm, saved, expectedVersion, completedNow, dbNow).Accepted?
    requires var s := Some(Reset(rm, saved, expectedVersion, completedNow, dbNow).saved);
      BuildPlan(rm, completed, asOf, s).Ready? && i < |BuildPlan(rm, completed, asOf, s).plan.steps| &&
      BuildPlan(rm, completed, asOf, s).plan.steps[i].id !in completedNow
    ensures var s := Some(Reset(rm, saved, expectedVersion, completedNow, dbNow).saved);
      var recommended := BuildPlan(rm, completed, asOf, None);
      && recommended.Ready? && i < |recommended.plan.steps|
      && BuildPlan(rm, completed, asOf, s).plan.steps[i] == recommended.plan.steps[i]
  {
    hide BuildPlan, ById, ValidRoadmap;
    var s := Some(Reset(rm, saved, expectedVersion, completedNow, dbNow).saved);
    RecommendationShown(rm, completed, asOf, s);
    UnsavedLineShown(rm, completed, asOf, s, i);
  }
}
