/**
  The hourly packer: the calendar scan and the rotation run side by side, one hour at a time.

  `PackSpec` puts the two together after the fact: the hours of the plain scan, worked in the order
  of the rotation. `Pack` is the loop itself, with its jumps over days and weeks that yield nothing.
 */
module Packer {
  import opened WorkCalendar
  import opened SlotScan
  import opened Rotation

  const MAX_PLAN_WEEKS := 520
  const HOURS_PER_WEEK := 168

  datatype Allocation = Allocation(week: int, hours: int)

  datatype Scheduled = Scheduled(startsAt: Instant, endsAt: Instant, allocations: seq<Allocation>)

  /**
    What to pack: the calendar, the work, the instant from which hours may be used, and the schedules
    that are already fixed, in the order `fixedIds`.
   */
  datatype Job = Job(grid: Grid, work: Work, from: Instant, fixedIds: seq<Id>, fixed: map<Id, Scheduled>)

  /** `DoesNotFit` is the planner's scheduling error, `NoFirstHour` the failed lookup of a step that got no hour. */
  datatype Outcome = Packed(schedules: map<Id, Scheduled>) | DoesNotFit | NoFirstHour(step: Id)

  predicate ValidJob(job: Job) {
    && Valid(job.work)
    && NoDup(job.fixedIds) && Members(job.fixedIds) == job.fixed.Keys
    && job.fixed.Keys !! Members(job.work.order)
  }

  // ---- Bookkeeping ----

  /** Adds one hour to the entry of `week`, or a new entry at the end. */
  function Bump(allocations: seq<Allocation>, week: int): seq<Allocation> {
    if allocations == [] then [Allocation(week, 1)]
    else if allocations[0].week == week then
      [Allocation(week, allocations[0].hours + 1)] + allocations[1..]
    else [allocations[0]] + Bump(allocations[1..], week)
  }

  function BookHour(g: Grid, book: map<Id, Scheduled>, h: Hour, key: Id): map<Id, Scheduled> {
    var startsAt := if key in book then book[key].startsAt else InstantOf(h);
    var allocations := if key in book then book[key].allocations else [];
    book[key := Scheduled(startsAt, InstantOf(h + 1), Bump(allocations, WeekOf(g, h)))]
  }

  /** First hour, last hour and hours per week of every step that works some of the hours. */
  function Book(g: Grid, slots: seq<Hour>, keys: seq<Id>): (book: map<Id, Scheduled>)
    requires |slots| == |keys|
    ensures book.Keys == Members(keys)
  {
    if keys == [] then map[]
    else
      var n := |keys| - 1;
      assert keys == keys[..n] + [keys[n]];
      BookHour(g, Book(g, slots[..n], keys[..n]), slots[n], keys[n])
  }

  function AddUse(used: map<int, int>, allocations: seq<Allocation>): map<int, int>
    decreases |allocations|
  {
    if allocations == [] then used
    else
      var n := |allocations| - 1;
      var before := AddUse(used, allocations[..n]);
      before[allocations[n].week := UsedIn(before, allocations[n].week) + allocations[n].hours]
  }

  /** Hours per week that the fixed schedules already take. */
  function FixedUse(ids: seq<Id>, fixed: map<Id, Scheduled>): map<int, int>
    requires Members(ids) <= fixed.Keys
  {
    if ids == [] then map[]
    else
      var n := |ids| - 1;
      var last := ids[n];
      assert last in Members(ids) && Members(ids[..n]) <= Members(ids);
      AddUse(FixedUse(ids[..n], fixed), fixed[last].allocations)
  }

  // ---- Specification ----

  function FirstCursor(job: Job): Hour {
    CeilHour(job.from)
  }

  function CalendarLimit(job: Job): Hour {
    FirstCursor(job) + MAX_PLAN_WEEKS * HOURS_PER_WEEK
  }

  function InitialUse(job: Job): map<int, int>
    requires ValidJob(job)
  {
    FixedUse(job.fixedIds, job.fixed)
  }

  /** The hours worked: they do not depend on the order, the preferences or the prerequisites. */
  function WorkedHours(job: Job): seq<Hour>
    requires ValidJob(job)
  {
    Scan(job.grid, InitialUse(job), FirstCursor(job), CalendarLimit(job), Total(job.work))
  }

  function Collect(job: Job, book: map<Id, Scheduled>): Outcome {
    if exists k <- job.work.order :: k !in book then NoFirstHour(FirstMissing(job.work.order, book.Keys))
    else Packed(job.fixed + book)
  }

  function FirstMissing(order: seq<Id>, have: set<Id>): (k: Id)
    requires exists k <- order :: k !in have
    ensures k in order && k !in have
  {
    if order[0] !in have then order[0] else FirstMissing(order[1..], have)
  }

  function PackSpec(job: Job): Outcome
    requires ValidJob(job)
  {
    var slots := WorkedHours(job);
    if |slots| < Total(job.work) then DoesNotFit
    else Collect(job, Book(job.grid, slots, Grants(job.work, Total(job.work))))
  }

  // ---- The loop ----

  method CountFixedUse(ids: seq<Id>, fixed: map<Id, Scheduled>) returns (used: map<int, int>)
    requires Members(ids) <= fixed.Keys
    ensures used == FixedUse(ids, fixed)
  {
    used := map[];
    for i := 0 to |ids|
      invariant used == FixedUse(ids[..i], fixed)
    {
      var id := ids[i];
      assert id in Members(ids);
      var allocations := fixed[id].allocations;
      ghost var before := used;
      for j := 0 to |allocations|
        invariant used == AddUse(before, allocations[..j])
      {
        var a := allocations[j];
        assert allocations[..j + 1][..j] == allocations[..j];
        used := used[a.week := UsedIn(used, a.week) + a.hours];
      }
      assert allocations[..|allocations|] == allocations;
      assert ids[..i + 1][..i] == ids[..i];
    }
    assert ids[..|ids|] == ids;
  }

  method AdmitReady(w: Work, granted: nat, running: nat, queue: seq<Id>) returns (ready: seq<Id>, admitted: seq<Id>)
    ensures Admission(ready, admitted) == Admit(w, granted, running, Admission(queue, []))
  {
    ready, admitted := queue, [];
    while ready != [] && running + |admitted| < MAX_ACTIVE
      invariant Admit(w, granted, running, Admission(ready, admitted)) ==
        Admit(w, granted, running, Admission(queue, []))
      decreases |ready|
    {
      var next := FirstDue(w, ready, granted);
      if next == |ready| && running + |admitted| > 0 {
        break;
      }
      if next == |ready| {
        next := 0;
      }
      ready, admitted := Without(ready, next), admitted + [ready[next]];
    }
  }

  function Dependents(w: Work, key: Id): set<Id>
    requires Valid(w)
  {
    set k | k in w.order && key in w.waits[k]
  }

  /** `done` of the dependents have dropped `key`; those of them that this sets free are queued. */
  ghost predicate Released(w: Work, remaining: map<Id, int>, waiting: map<Id, set<Id>>, queue: set<Id>, active: set<Id>,
                           key: Id, done: set<Id>, waiting': map<Id, set<Id>>, ready: set<Id>)
    requires Valid(w) && waiting.Keys == remaining.Keys == Members(w.order)
  {
    && waiting'.Keys == waiting.Keys
    && (forall k <- waiting :: waiting'[k] == if k in done then waiting[k] - {key} else waiting[k])
    && ready == queue + done * Freed(w, remaining, Discarded(w, waiting, key), queue + active, key)
  }

  lemma ReleaseOne(w: Work, remaining: map<Id, int>, waiting: map<Id, set<Id>>, queue: set<Id>, active: set<Id>,
                   key: Id, done: set<Id>, waiting': map<Id, set<Id>>, ready: set<Id>, k: Id)
    requires Valid(w) && waiting.Keys == remaining.Keys == Members(w.order) && k in Dependents(w, key)
    requires Released(w, remaining, waiting, queue, active, key, done, waiting', ready)
    ensures k in remaining && k in waiting'
    ensures var dropped := waiting'[k] - {key};
      var add := dropped == {} && remaining[k] != 0 && k !in ready && k !in active;
      Released(w, remaining, waiting, queue, active, key, done + {k}, waiting'[k := dropped],
               if add then ready + {k} else ready)
  {
    hide Freed, Discarded;
    assert k in Members(w.order);
    DropsKey(w, waiting, key, done, waiting', k);
    var freed := Freed(w, remaining, Discarded(w, waiting, key), queue + active, key);
    FreesIf(w, remaining, waiting, queue + active, key, waiting'[k] - {key}, k);
    QueueGrows(queue, active, done, freed, ready, k, waiting'[k] - {key} == {} && remaining[k] != 0);
  }

  lemma QueueGrows(queue: set<Id>, active: set<Id>, done: set<Id>, freed: set<Id>, ready: set<Id>, k: Id, free: bool)
    requires ready == queue + done * freed && (k in freed <==> free && k !in queue + active)
    ensures (if free && k !in ready && k !in active then ready + {k} else ready) == queue + (done + {k}) * freed
  {
  }

  lemma DropsKey(w: Work, waiting: map<Id, set<Id>>, key: Id, done: set<Id>, waiting': map<Id, set<Id>>, k: Id)
    requires waiting'.Keys == waiting.Keys && k in waiting
    requires forall x <- waiting :: waiting'[x] == if x in done then waiting[x] - {key} else waiting[x]
    ensures waiting'[k] - {key} == waiting[k] - {key} && waiting'[k := waiting'[k] - {key}].Keys == waiting.Keys
    ensures forall x <- waiting ::
      waiting'[k := waiting'[k] - {key}][x] == if x in done + {k} then waiting[x] - {key} else waiting[x]
  {
  }

  /** Whether a dependent is freed depends on what it still waits for. */
  lemma FreesIf(w: Work, remaining: map<Id, int>, waiting: map<Id, set<Id>>, busy: set<Id>, key: Id, dropped: set<Id>,
                k: Id)
    requires Valid(w) && waiting.Keys == remaining.Keys == Members(w.order) && k in Dependents(w, key)
    requires k in waiting && dropped == waiting[k] - {key}
    ensures k in Freed(w, remaining, Discarded(w, waiting, key), busy, key) <==>
      dropped == {} && remaining[k] != 0 && k !in busy
  {
  }

  lemma ReleaseNone(w: Work, remaining: map<Id, int>, waiting: map<Id, set<Id>>, queue: set<Id>, active: set<Id>,
                    key: Id)
    requires Valid(w) && waiting.Keys == remaining.Keys == Members(w.order)
    ensures Released(w, remaining, waiting, queue, active, key, Members([]), waiting, queue)
  {
    assert Members([]) == {};
  }

  lemma ReleaseAll(w: Work, remaining: map<Id, int>, waiting: map<Id, set<Id>>, queue: set<Id>, active: set<Id>,
                   key: Id, waiting': map<Id, set<Id>>, ready: set<Id>)
    requires Valid(w) && waiting.Keys == remaining.Keys == Members(w.order)
    requires Released(w, remaining, waiting, queue, active, key, Dependents(w, key), waiting', ready)
    ensures waiting' == Discarded(w, waiting, key)
    ensures ready == queue + Freed(w, remaining, waiting', queue + active, key)
  {
    hide Freed;
    var target := Discarded(w, waiting, key);
    assert forall k <- target :: waiting'[k] == target[k];
    assert forall k <- waiting' :: waiting'[k] == target[k];
    FreedDepend(w, remaining, target, queue + active, key);
  }

  lemma FreedDepend(w: Work, remaining: map<Id, int>, waiting: map<Id, set<Id>>, busy: set<Id>, key: Id)
    requires Valid(w) && waiting.Keys == remaining.Keys == Members(w.order)
    ensures Freed(w, remaining, waiting, busy, key) <= Dependents(w, key)
  {
  }

  /** Releases the dependents of a finished step; the order in which they are enumerated does not matter. */
  method ReleaseDependents(w: Work, remaining: map<Id, int>, waiting: map<Id, set<Id>>, queue: seq<Id>, active: seq<Id>,
                           key: Id, dependents: seq<Id>)
      returns (waiting': map<Id, set<Id>>, ready: seq<Id>)
    requires Valid(w) && waiting.Keys == remaining.Keys == Members(w.order)
    requires Members(dependents) == Dependents(w, key)
    ensures waiting' == Discarded(w, waiting, key)
    ensures ready ==
      ByPosition(w.order, Members(queue) + Freed(w, remaining, waiting', Members(queue) + Members(active), key))
  {
    hide Valid, Discarded, Freed, Dependents, Released, ByPosition, Members;
    waiting', ready := waiting, queue;
    ReleaseNone(w, remaining, waiting, Members(queue), Members(active), key);
    assert dependents[..0] == [];
    for i := 0 to |dependents|
      invariant waiting'.Keys == waiting.Keys
      invariant Released(w, remaining, waiting, Members(queue), Members(active), key,
                         Members(dependents[..i]), waiting', Members(ready))
    {
      var dependent := dependents[i];
      MembersPrefix(dependents, i);
      MembersGrow(ready, dependent);
      MembersGrow(active, dependent);
      ReleaseOne(w, remaining, waiting, Members(queue), Members(active), key,
                 Members(dependents[..i]), waiting', Members(ready), dependent);
      var dropped := waiting'[dependent] - {key};
      waiting' := waiting'[dependent := dropped];
      if dropped == {} && remaining[dependent] != 0 && dependent !in ready && dependent !in active {
        ready := ready + [dependent];
      }
    }
    assert dependents[..|dependents|] == dependents;
    ReleaseAll(w, remaining, waiting, Members(queue), Members(active), key, waiting', Members(ready));
    ready := ByPosition(w.order, Members(ready));
  }

  /** One granted hour: fill the window, force a step if nothing can run, rotate or retire its head. */
  method GiveHour(w: Work, st: State) returns (key: Id, st': State)
    requires Valid(w) && WellFormed(w, st) && st.granted < Total(w)
    ensures key == Key(w, st) && st' == Grant(w, st)
  {
    hide Total, Sum, Discarded, Freed, ByPosition, Admit;
    ghost var window := Window(w, st);
    var ready, admitted := AdmitReady(w, st.granted, |st.active|, st.ready);
    var active := admitted + st.active;
    if active == [] {
      SomeUnfinished(w, st);
      active := [FirstUnfinished(w.order, st.remaining)];
    }
    assert Admission(ready, active) == window;
    hide Window, WellFormed;
    key, active := active[0], active[1..];
    assert key == Head(w, window);
    var remaining := st.remaining[key := st.remaining[key] - 1];
    if remaining[key] != 0 {
      st' := State(remaining, st.waiting, ready, active + [key], st.granted + 1);
    } else {
      var dependents := EnumerateDependents(w, key);
      var waiting, queue := ReleaseDependents(w, remaining, st.waiting, ready, active, key, dependents);
      st' := State(remaining, waiting, queue, active, st.granted + 1);
    }
  }

  method EnumerateDependents(w: Work, key: Id) returns (dependents: seq<Id>)
    requires Valid(w)
    ensures Members(dependents) == Dependents(w, key)
  {
    dependents := ByPosition(w.order, Dependents(w, key));
  }

  /** The dictionaries of first hours, end hours and weekly counts hold what the book holds. */
  ghost predicate Recorded(order: seq<Id>, first: map<Id, Hour>, last: map<Id, Hour>,
                           counts: map<Id, seq<Allocation>>, book: map<Id, Scheduled>) {
    && first.Keys == book.Keys && last.Keys == book.Keys && counts.Keys == Members(order)
    && book.Keys <= counts.Keys
    && (forall k <- book :: book[k] == Scheduled(InstantOf(first[k]), InstantOf(last[k]), counts[k]))
    && (forall k <- counts :: k !in book ==> counts[k] == [])
  }

  lemma RecordHour(g: Grid, order: seq<Id>, first: map<Id, Hour>, last: map<Id, Hour>,
                   counts: map<Id, seq<Allocation>>, book: map<Id, Scheduled>, h: Hour, key: Id)
    requires Recorded(order, first, last, counts, book) && key in order
    ensures key in counts && counts[key := Bump(counts[key], WeekOf(g, h))].Keys == Members(order)
    ensures Recorded(order, if key in first then first else first[key := h], last[key := h + 1],
                     counts[key := Bump(counts[key], WeekOf(g, h))], BookHour(g, book, h, key))
  {
    hide InstantOf, Bump, WeekOf;
  }

  lemma BookStep(g: Grid, w: Work, slots: seq<Hour>, h: Hour)
    requires Valid(w) && |slots| < Total(w)
    ensures Book(g, slots + [h], Grants(w, |slots| + 1))
         == BookHour(g, Book(g, slots, Grants(w, |slots|)), h, KeyAt(w, |slots|))
  {
    hide KeyAt, Total, BookHour;
    var n := |slots|;
    assert Grants(w, n + 1)[..n] == Grants(w, n);
    assert (slots + [h])[..n] == slots;
  }

  method Assemble(job: Job, first: map<Id, Hour>, last: map<Id, Hour>, counts: map<Id, seq<Allocation>>,
                  ghost book: map<Id, Scheduled>) returns (r: Outcome)
    requires Recorded(job.work.order, first, last, counts, book)
    ensures r == Collect(job, book)
  {
    var packed := map[];
    for i := 0 to |job.work.order|
      invariant packed.Keys == Members(job.work.order[..i]) <= book.Keys
      invariant forall k <- packed :: packed[k] == book[k]
    {
      var k := job.work.order[i];
      if k !in first {
        FirstMissingAt(job.work.order, book.Keys, i);
        return NoFirstHour(k);
      }
      assert Members(job.work.order[..i + 1]) == Members(job.work.order[..i]) + {k};
      packed := packed[k := Scheduled(InstantOf(first[k]), InstantOf(last[k]), counts[k])];
    }
    assert job.work.order[..|job.work.order|] == job.work.order;
    assert packed.Keys == Members(job.work.order) == counts.Keys;
    assert packed.Keys == book.Keys && forall k <- book :: packed[k] == book[k];
    assert forall k <- packed :: packed[k] == book[k];
    assert packed == book;
    return Packed(job.fixed + packed);
  }

  lemma {:induction false} FirstMissingAt(order: seq<Id>, have: set<Id>, i: nat)
    requires i < |order| && order[i] !in have && Members(order[..i]) <= have
    ensures exists k <- order :: k !in have
    ensures FirstMissing(order, have) == order[i]
  {
    var k := order[i];
    assert k in order;
    if i > 0 {
      assert order[0] in Members(order[..i]);
      assert Members(order[1..][..i - 1]) <= Members(order[..i]);
      FirstMissingAt(order[1..], have, i - 1);
    }
  }

  /** After `slots`: the rotation has run as many hours, the records agree, and the scan has as many to go. */
  ghost predicate InStep(job: Job, slots: seq<Hour>, cursor: Hour, used: map<int, int>, left: nat, st: State,
                         first: map<Id, Hour>, last: map<Id, Hour>, counts: map<Id, seq<Allocation>>)
    requires ValidJob(job)
  {
    && |slots| + left == Total(job.work)
    && st == Run(job.work, |slots|)
    && slots + Scan(job.grid, used, cursor, CalendarLimit(job), left) == WorkedHours(job)
    && Recorded(job.work.order, first, last, counts, Book(job.grid, slots, Grants(job.work, |slots|)))
  }

  lemma StartsInStep(job: Job, counts: map<Id, seq<Allocation>>)
    requires ValidJob(job)
    requires counts == map k | k in job.work.order :: []
    ensures InStep(job, [], FirstCursor(job), InitialUse(job), Total(job.work), Initial(job.work), map[], map[], counts)
  {
    hide Scan, Initial, FixedUse;
    assert Recorded(job.work.order, map[], map[], counts, map[]);
  }

  lemma JumpInStep(job: Job, slots: seq<Hour>, cursor: Hour, dest: Hour, used: map<int, int>, left: nat, st: State,
                   first: map<Id, Hour>, last: map<Id, Hour>, counts: map<Id, seq<Allocation>>)
    requires ValidJob(job) && InStep(job, slots, cursor, used, left, st, first, last, counts)
    requires Scan(job.grid, used, cursor, CalendarLimit(job), left) ==
      Scan(job.grid, used, dest, CalendarLimit(job), left)
    ensures InStep(job, slots, dest, used, left, st, first, last, counts)
  {
    hide Scan, Run, WorkedHours, Recorded, Book;
  }

  lemma WorkInStep(job: Job, slots: seq<Hour>, c: Hour, used: map<int, int>, left: nat, st: State,
                   first: map<Id, Hour>, last: map<Id, Hour>, counts: map<Id, seq<Allocation>>)
    requires ValidJob(job) && InStep(job, slots, c, used, left, st, first, last, counts)
    requires left > 0 && c < CalendarLimit(job) && Takes(job.grid, used, c)
    ensures WellFormed(job.work, st) && st.granted < Total(job.work)
    ensures var key := Key(job.work, st);
      && key in counts
      && InStep(job, slots + [c], c + 1, Charge(job.grid, used, c), left - 1, Grant(job.work, st),
                if key in first then first else first[key := c], last[key := c + 1],
                counts[key := Bump(counts[key], WeekOf(job.grid, c))])
  {
    hide Takes, WorkedHours, Recorded, Book, Total, WellFormed, Run, Key, Grant, Bump, WeekOf, Scan, Charge, Valid;
    hide Grants;
    var w, n := job.work, |slots|;
    RunNext(w, n);
    var key := KeyAt(w, n);
    assert key == Key(w, st);
    RecordHour(job.grid, w.order, first, last, counts, Book(job.grid, slots, Grants(w, n)), c, key);
    BookStep(job.grid, w, slots, c);
    TakeHour(job.grid, used, c, CalendarLimit(job), left);
    assert slots + Scan(job.grid, used, c, CalendarLimit(job), left) == (slots + [c])
      + Scan(job.grid, Charge(job.grid, used, c), c + 1, CalendarLimit(job), left - 1);
  }

  lemma EndsInStep(job: Job, slots: seq<Hour>, cursor: Hour, used: map<int, int>, left: nat, st: State,
                   first: map<Id, Hour>, last: map<Id, Hour>, counts: map<Id, seq<Allocation>>)
    requires ValidJob(job) && InStep(job, slots, cursor, used, left, st, first, last, counts)
    requires left == 0 || cursor >= CalendarLimit(job)
    ensures |slots| + left == Total(job.work)
    ensures left > 0 ==> PackSpec(job) == DoesNotFit
    ensures left == 0 ==> PackSpec(job) == Collect(job, Book(job.grid, slots, Grants(job.work, |slots|)))
    ensures Recorded(job.work.order, first, last, counts, Book(job.grid, slots, Grants(job.work, |slots|)))
  {
    hide Run, WorkedHours, Recorded, Book, Total, Collect, Grants, Scan, PackSpec, ValidJob;
    ScanStops(job.grid, used, cursor, CalendarLimit(job), left);
    assert slots == WorkedHours(job);
    PackEnds(job, slots);
  }

  lemma PackEnds(job: Job, slots: seq<Hour>)
    requires ValidJob(job) && slots == WorkedHours(job) && |slots| <= Total(job.work)
    ensures PackSpec(job) == if |slots| < Total(job.work) then DoesNotFit
                             else Collect(job, Book(job.grid, slots, Grants(job.work, |slots|)))
  {
    hide WorkedHours, Book, Total, Collect, Grants;
  }

  /**
    Packs the work hour by hour: skips excluded days, rest weeks and full weeks in one jump, gives
    every other available hour to one step, and fails when the calendar limit is reached first.
   */
  method Pack(job: Job) returns (r: Outcome)
    requires ValidJob(job)
    ensures r == PackSpec(job)
  {
    hide Run, Grants, Scan, Book, Total, FixedUse, BookHour, Initial, Grant, Key, PackSpec, Collect, Bump;
    hide WellFormed, Valid, InStep, Recorded, CeilHour, WeekOf, DateOfHour, SlotIsAvailable, UsedIn, NextDay, NextWeek;
    var g, w := job.grid, job.work;
    var used := CountFixedUse(job.fixedIds, job.fixed);
    var cursor := CeilHour(job.from);
    var limit := cursor + MAX_PLAN_WEEKS * HOURS_PER_WEEK;
    var st := Initial(w);
    var first, last: map<Id, Hour> := map[], map[];
    var counts: map<Id, seq<Allocation>> := map k | k in w.order :: [];
    var left: nat := Total(w);
    ghost var slots: seq<Hour> := [];
    StartsInStep(job, counts);
    while left > 0
      invariant InStep(job, slots, cursor, used, left, st, first, last, counts)
      decreases limit - cursor
    {
      if cursor >= limit {
        EndsInStep(job, slots, cursor, used, left, st, first, last, counts);
        return DoesNotFit;
      }
      var week := WeekOf(g, cursor);
      if DateOfHour(g.zone, cursor) in g.excluded {
        SkipDay(g, used, cursor, limit, left);
        JumpInStep(job, slots, cursor, NextDay(g, cursor), used, left, st, first, last, counts);
        cursor := NextDay(g, cursor);
        continue;
      }
      if week in g.rests || UsedIn(used, week) >= g.weekly {
        SkipWeek(g, used, cursor, limit, left);
        JumpInStep(job, slots, cursor, NextWeek(g, cursor), used, left, st, first, last, counts);
        cursor := NextWeek(g, cursor);
        continue;
      }
      if !SlotIsAvailable(g, cursor) {
        SkipHour(g, used, cursor, limit, left);
        JumpInStep(job, slots, cursor, cursor + 1, used, left, st, first, last, counts);
        cursor := cursor + 1;
        continue;
      }
      WorkInStep(job, slots, cursor, used, left, st, first, last, counts);
      var key;
      key, st := GiveHour(w, st);
      first := if key in first then first else first[key := cursor];
      last := last[key := cursor + 1];
      counts := counts[key := Bump(counts[key], week)];
      used := used[week := UsedIn(used, week) + 1];
      slots := slots + [cursor];
      left := left - 1;
      cursor := cursor + 1;
    }
    EndsInStep(job, slots, cursor, used, left, st, first, last, counts);
    r := Assemble(job, first, last, counts, Book(g, slots, Grants(w, |slots|)));
  }

  lemma RunNext(w: Work, n: nat)
    requires Valid(w) && n < Total(w)
    ensures WellFormed(w, Run(w, n)) && Run(w, n).granted == n
    ensures Run(w, n + 1) == Grant(w, Run(w, n)) && KeyAt(w, n) == Key(w, Run(w, n))
  {
  }

  lemma ScanStops(g: Grid, used: map<int, int>, c: Hour, limit: Hour, n: nat)
    requires n == 0 || c >= limit
    ensures Scan(g, used, c, limit, n) == []
  {
  }

  lemma TakeHour(g: Grid, used: map<int, int>, c: Hour, limit: Hour, n: nat)
    requires n > 0 && c < limit && Takes(g, used, c)
    ensures Scan(g, used, c, limit, n) == [c] + Scan(g, Charge(g, used, c), c + 1, limit, n - 1)
  {
  }

  lemma SkipHour(g: Grid, used: map<int, int>, c: Hour, limit: Hour, n: nat)
    requires !SlotIsAvailable(g, c)
    ensures Scan(g, used, c, limit, n) == Scan(g, used, c + 1, limit, n)
  {
    JumpRefinesScan(g, used, c, c + 1, limit, n);
  }

  /** Nothing of an excluded day is usable. */
  lemma SkipDay(g: Grid, used: map<int, int>, c: Hour, limit: Hour, n: nat)
    requires DateOfHour(g.zone, c) in g.excluded
    ensures Scan(g, used, c, limit, n) == Scan(g, used, NextDay(g, c), limit, n)
  {
    JumpRefinesScan(g, used, c, NextDay(g, c), limit, n);
  }

  /** Nothing of a rest week or of a full week is usable. */
  lemma SkipWeek(g: Grid, used: map<int, int>, c: Hour, limit: Hour, n: nat)
    requires WeekOf(g, c) in g.rests || UsedIn(used, WeekOf(g, c)) >= g.weekly
    ensures Scan(g, used, c, limit, n) == Scan(g, used, NextWeek(g, c), limit, n)
  {
    JumpRefinesScan(g, used, c, NextWeek(g, c), limit, n);
  }
}
