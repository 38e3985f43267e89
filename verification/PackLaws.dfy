/**
  What a packed schedule is: which hours every step works, when they start and end, how they spread
  over the weeks, and what no other schedule could do better.
 */
module PackLaws {
  import opened Basics
  import opened WorkCalendar
  import opened SlotScan
  import opened Rotation
  import opened RotationLaws
  import opened Prerequisites
  import opened ZeroHours
  import opened Packer

  // ---- One schedule and the hours it stands for ----

  /** Hours booked in week `w`. */
  function HoursIn(allocations: seq<Allocation>, w: int): int {
    if allocations == [] then 0
    else
      var n := |allocations| - 1;
      HoursIn(allocations[..n], w) + if allocations[n].week == w then allocations[n].hours else 0
  }

  function TotalHours(allocations: seq<Allocation>): int {
    if allocations == [] then 0
    else TotalHours(allocations[..|allocations| - 1]) + allocations[|allocations| - 1].hours
  }

  predicate WeeksIncrease(allocations: seq<Allocation>) {
    forall i, j :: 0 <= i < j < |allocations| ==> allocations[i].week < allocations[j].week
  }

  /** From the first to the end of the last of `hours`, with its weeks in order and every hour counted once. */
  ghost predicate Describes(g: Grid, s: Scheduled, hours: set<Hour>, lo: Hour, hi: Hour) {
    && lo in hours && hi in hours && (forall h <- hours :: lo <= h <= hi)
    && s.startsAt == InstantOf(lo) && s.endsAt == InstantOf(hi + 1)
    && s.allocations != [] && WeeksIncrease(s.allocations)
    && s.allocations[0].week == WeekOf(g, lo) && s.allocations[|s.allocations| - 1].week == WeekOf(g, hi)
    && (forall w: int :: HoursIn(s.allocations, w) == |HoursOfWeek(g, hours, w)|)
    && TotalHours(s.allocations) == |hours|
  }

  lemma {:induction false} BumpLast(a: seq<Allocation>, w: int)
    requires WeeksIncrease(a) && (a != [] ==> a[|a| - 1].week <= w)
    ensures Bump(a, w) == if a != [] && a[|a| - 1].week == w then a[..|a| - 1] + [Allocation(w, a[|a| - 1].hours + 1)]
                          else a + [Allocation(w, 1)]
  {
    if |a| > 1 {
      BumpLast(a[1..], w);
      assert a[0].week < a[|a| - 1].week;
      assert a == [a[0]] + a[1..];
    }
  }

  lemma CountsAppend(a: seq<Allocation>, x: Allocation)
    ensures TotalHours(a + [x]) == TotalHours(a) + x.hours
    ensures forall v: int :: HoursIn(a + [x], v) == HoursIn(a, v) + if x.week == v then x.hours else 0
  {
    assert (a + [x])[..|a|] == a;
  }

  lemma BumpShape(a: seq<Allocation>, w: int)
    requires WeeksIncrease(a) && (a != [] ==> a[|a| - 1].week <= w)
    ensures var b := Bump(a, w);
      b != [] && WeeksIncrease(b) && b[|b| - 1].week == w && (a != [] ==> b[0].week == a[0].week)
  {
    hide Bump;
    BumpLast(a, w);
  }

  lemma BumpCounts(a: seq<Allocation>, w: int)
    requires WeeksIncrease(a) && (a != [] ==> a[|a| - 1].week <= w)
    ensures var b := Bump(a, w);
      && TotalHours(b) == TotalHours(a) + 1
      && forall v: int :: HoursIn(b, v) == HoursIn(a, v) + if v == w then 1 else 0
  {
    hide Bump, TotalHours, HoursIn, WeeksIncrease;
    BumpLast(a, w);
    if a != [] && a[|a| - 1].week == w {
      var front, last := a[..|a| - 1], a[|a| - 1];
      assert a == front + [last];
      CountsAppend(front, last);
      CountsAppend(front, Allocation(w, last.hours + 1));
    } else {
      CountsAppend(a, Allocation(w, 1));
    }
  }

  lemma DescribesNext(g: Grid, s: Scheduled, hours: set<Hour>, lo: Hour, hi: Hour, h: Hour)
    requires Describes(g, s, hours, lo, hi) && hi < h
    ensures Describes(g, Scheduled(s.startsAt, InstantOf(h + 1), Bump(s.allocations, WeekOf(g, h))), hours + {h}, lo, h)
  {
    WeekMonotone(g, hi, h);
    hide Bump, InstantOf, HoursIn, TotalHours, WeekOf, HoursOfWeek;
    BumpShape(s.allocations, WeekOf(g, h));
    BumpCounts(s.allocations, WeekOf(g, h));
    assert h !in hours;
    forall w: int
      ensures |HoursOfWeek(g, hours + {h}, w)| == |HoursOfWeek(g, hours, w)| + if WeekOf(g, h) == w then 1 else 0
    {
      WeekGains(g, hours, h, w);
    }
  }

  lemma WeekGains(g: Grid, hours: set<Hour>, h: Hour, w: int)
    requires h !in hours
    ensures |HoursOfWeek(g, hours + {h}, w)| == |HoursOfWeek(g, hours, w)| + if WeekOf(g, h) == w then 1 else 0
  {
    hide WeekOf;
    assert HoursOfWeek(g, hours + {h}, w) == HoursOfWeek(g, hours, w) + if WeekOf(g, h) == w then {h} else {};
  }

  lemma DescribesFirst(g: Grid, h: Hour)
    ensures Describes(g, Scheduled(InstantOf(h), InstantOf(h + 1), Bump([], WeekOf(g, h))), {h}, h, h)
  {
    hide WeekOf, InstantOf;
    var a := Bump([], WeekOf(g, h));
    assert a == [Allocation(WeekOf(g, h), 1)] && a[..0] == [];
    assert TotalHours(a) == TotalHours(a[..0]) + 1 == |{h}|;
    forall w: int
      ensures HoursIn(a, w) == |HoursOfWeek(g, {h}, w)|
    {
      assert HoursOfWeek(g, {h}, w) == if WeekOf(g, h) == w then {h} else {};
    }
  }

  /** The hours that step `k` works. */
  function StepHours(slots: seq<Hour>, keys: seq<Id>, k: Id): set<Hour>
    requires |slots| == |keys|
  {
    set i | 0 <= i < |keys| && keys[i] == k :: slots[i]
  }

  lemma StepHoursNext(slots: seq<Hour>, keys: seq<Id>, k: Id)
    requires |slots| == |keys| > 0
    ensures var n := |keys| - 1;
      StepHours(slots, keys, k) == StepHours(slots[..n], keys[..n], k) + if keys[n] == k then {slots[n]} else {}
  {
    var n := |keys| - 1;
    forall h | h in StepHours(slots[..n], keys[..n], k)
      ensures h in StepHours(slots, keys, k)
    {
      var i :| 0 <= i < n && keys[..n][i] == k && slots[..n][i] == h;
      assert keys[i] == k && slots[i] == h;
    }
    forall h | h in StepHours(slots, keys, k)
      ensures h in StepHours(slots[..n], keys[..n], k) || (keys[n] == k && h == slots[n])
    {
      var i :| 0 <= i < |keys| && keys[i] == k && slots[i] == h;
      if i < n {
        assert keys[..n][i] == k && slots[..n][i] == h;
      }
    }
    if keys[n] == k {
      assert slots[n] in StepHours(slots, keys, k);
    }
  }

  lemma BookNext(g: Grid, slots: seq<Hour>, keys: seq<Id>, k: Id)
    requires |slots| == |keys| > 0 && k in keys
    ensures var n := |keys| - 1; var before, s := Book(g, slots[..n], keys[..n]), Book(g, slots, keys)[k];
      && (k in before.Keys <==> k in keys[..n])
      && (keys[n] != k ==> k in before && s == before[k])
      && (keys[n] == k && k in before ==>
            s == Scheduled(before[k].startsAt, InstantOf(slots[n] + 1),
              Bump(before[k].allocations, WeekOf(g, slots[n]))))
      && (keys[n] == k && k !in before ==>
            s == Scheduled(InstantOf(slots[n]), InstantOf(slots[n] + 1), Bump([], WeekOf(g, slots[n]))))
  {
    hide Bump, WeekOf, InstantOf;
    var n := |keys| - 1;
    assert keys == keys[..n] + [keys[n]];
  }

  lemma StepHoursBounded(slots: seq<Hour>, keys: seq<Id>, k: Id, h: Hour)
    requires |slots| == |keys| && h in StepHours(slots, keys, k)
    ensures h in slots && k in keys
  {
  }

  lemma NoStepHours(slots: seq<Hour>, keys: seq<Id>, k: Id)
    requires |slots| == |keys| && k !in keys
    ensures StepHours(slots, keys, k) == {}
  {
  }

  /** A step works as many hours as it is granted. */
  lemma {:induction false} StepHoursCount(slots: seq<Hour>, keys: seq<Id>, k: Id)
    requires |slots| == |keys| && Increasing(slots)
    ensures |StepHours(slots, keys, k)| == multiset(keys)[k]
    decreases |keys|
  {
    if keys != [] {
      var n := |keys| - 1;
      StepHoursCount(slots[..n], keys[..n], k);
      StepHoursNext(slots, keys, k);
      assert keys == keys[..n] + [keys[n]];
      if slots[n] in StepHours(slots[..n], keys[..n], k) {
        StepHoursBounded(slots[..n], keys[..n], k, slots[n]);
      }
    }
  }

  /** The book describes, for every step, exactly the hours the step works. */
  lemma {:induction false} BookDescribes(g: Grid, slots: seq<Hour>, keys: seq<Id>, k: Id) returns (lo: Hour, hi: Hour)
    requires |slots| == |keys| && Increasing(slots) && k in keys
    ensures Describes(g, Book(g, slots, keys)[k], StepHours(slots, keys, k), lo, hi)
    decreases |keys|
  {
    hide Describes, Bump, WeekOf, InstantOf, Book, StepHours;
    var n := |keys| - 1;
    StepHoursNext(slots, keys, k);
    BookNext(g, slots, keys, k);
    var before, hours := Book(g, slots[..n], keys[..n]), StepHours(slots[..n], keys[..n], k);
    if k in keys[..n] {
      lo, hi := BookDescribes(g, slots[..n], keys[..n], k);
      if keys[n] == k {
        DescribesBounds(g, before[k], hours, lo, hi);
        StepHoursBounded(slots[..n], keys[..n], k, hi);
        DescribesNext(g, before[k], hours, lo, hi, slots[n]);
        hi := slots[n];
      } else {
        assert StepHours(slots, keys, k) == hours;
      }
    } else {
      NoStepHours(slots[..n], keys[..n], k);
      assert StepHours(slots, keys, k) == {slots[n]};
      lo, hi := slots[n], slots[n];
      DescribesFirst(g, slots[n]);
    }
  }

  lemma DescribesBounds(g: Grid, s: Scheduled, hours: set<Hour>, lo: Hour, hi: Hour)
    requires Describes(g, s, hours, lo, hi)
    ensures lo in hours && hi in hours && forall h <- hours :: lo <= h <= hi
    ensures s.startsAt == InstantOf(lo) && s.endsAt == InstantOf(hi + 1)
  {
  }

  // ---- Whole schedules ----

  ghost function HoursOf(job: Job, k: Id): set<Hour>
    requires ValidJob(job) && |WorkedHours(job)| == Total(job.work)
  {
    StepHours(WorkedHours(job), Grants(job.work, Total(job.work)), k)
  }

  /** Packing succeeds exactly when the capped usable hours before the calendar limit reach the total. */
  lemma FitsIffCapacity(job: Job)
    requires ValidJob(job)
    ensures var first := CeilHour(job.from);
      PackSpec(job).DoesNotFit? <==>
        CapacityBetween(job.grid, InitialUse(job), first, first + 520 * 7 * 24) < Total(job.work)
  {
    hide CapacityBetween, Scan, Grants, Book;
    ScanFeasible(job.grid, InitialUse(job), FirstCursor(job), CalendarLimit(job), Total(job.work));
  }

  lemma WorkedIncreases(job: Job)
    requires ValidJob(job)
    ensures Increasing(WorkedHours(job)) && |WorkedHours(job)| <= Total(job.work)
    ensures forall i :: 0 <= i < |WorkedHours(job)| ==> FirstCursor(job) <= WorkedHours(job)[i]
  {
    ScanIncreases(job.grid, InitialUse(job), FirstCursor(job), CalendarLimit(job), Total(job.work));
  }

  /** A packing that succeeds has given everyone an hour. */
  lemma PackedShape(job: Job)
    requires ValidJob(job) && PackSpec(job).Packed?
    ensures |WorkedHours(job)| == Total(job.work)
    ensures PackSpec(job) == Packed(job.fixed + Book(job.grid, WorkedHours(job), Grants(job.work, Total(job.work))))
    ensures AllWork(job.work) && forall k <- job.work.order :: k in Grants(job.work, Total(job.work))
    ensures job.work.hours.Keys <= PackSpec(job).schedules.Keys
  {
    hide WorkedHours, Grants, Book, Total;
    WorkedIncreases(job);
    assert forall k <- job.work.order :: k in Grants(job.work, Total(job.work));
    assert Members(job.work.order) <= Members(Grants(job.work, Total(job.work)));
  }

  /** Steps that all ask for an hour get one, so nothing but the calendar can stop a packing. */
  lemma PackedWhenPositive(job: Job)
    requires ValidJob(job) && Positive(job.work) && !PackSpec(job).DoesNotFit?
    ensures PackSpec(job).Packed?
  {
    hide WorkedHours, Grants, Book, Total;
    WorkedIncreases(job);
    PositiveAllWork(job.work);
    assert forall k <- job.work.order :: k in Members(job.work.order);
  }

  /**
    Broken dependencies or not, every step of a packing is scheduled from its first hour to the end of its
    last, in open hours none of which starts before the job's start.
   */
  lemma PackedDescribes(job: Job, k: Id) returns (lo: Hour, hi: Hour)
    requires ValidJob(job) && PackSpec(job).Packed? && k in job.work.order
    ensures |WorkedHours(job)| == Total(job.work) && k in PackSpec(job).schedules
    ensures Describes(job.grid, PackSpec(job).schedules[k], HoursOf(job, k), lo, hi)
    ensures forall h <- HoursOf(job, k) :: Open(job.grid, h) && job.from <= InstantOf(h)
  {
    hide PackSpec, Grants, Total, Describes, Open, WorkedHours, AllWork;
    var keys := Grants(job.work, Total(job.work));
    PackedShape(job);
    WorkedIncreases(job);
    lo, hi := BookDescribes(job.grid, WorkedHours(job), keys, k);
    forall h | h in HoursOf(job, k)
      ensures Open(job.grid, h) && job.from <= InstantOf(h)
    {
      StepHoursBounded(WorkedHours(job), keys, k, h);
      WorkedHourOpen(job, h);
    }
  }

  /** Unless a step asks for none, every step gets exactly the hours it asks for. */
  lemma PackedExactly(job: Job, k: Id) returns (lo: Hour, hi: Hour)
    requires ValidJob(job) && Positive(job.work) && !PackSpec(job).DoesNotFit? && k in job.work.order
    ensures |WorkedHours(job)| == Total(job.work)
    ensures PackSpec(job).Packed? && k in PackSpec(job).schedules
    ensures Describes(job.grid, PackSpec(job).schedules[k], HoursOf(job, k), lo, hi)
    ensures |HoursOf(job, k)| == job.work.hours[k]
    ensures forall h <- HoursOf(job, k) :: Open(job.grid, h) && job.from <= InstantOf(h)
  {
    hide PackSpec, Grants, Total, Describes, Open, WorkedHours;
    PackedWhenPositive(job);
    lo, hi := PackedDescribes(job, k);
    WorkedIncreases(job);
    StepHoursCount(WorkedHours(job), Grants(job.work, Total(job.work)), k);
    ExactHours(job.work, k);
  }

  lemma WorkedHourOpen(job: Job, h: Hour)
    requires ValidJob(job) && h in WorkedHours(job)
    ensures Open(job.grid, h) && job.from <= InstantOf(h)
  {
    hide Open, Scan;
    WorkedIncreases(job);
    ScanIsLegal(job.grid, InitialUse(job), FirstCursor(job), CalendarLimit(job), Total(job.work));
    assert h in Elements(WorkedHours(job));
  }

  /** No hour is worked twice. */
  lemma HoursDisjoint(job: Job, k: Id, k': Id)
    requires ValidJob(job) && |WorkedHours(job)| == Total(job.work) && k != k'
    ensures HoursOf(job, k) !! HoursOf(job, k')
  {
    hide WorkedHours, Grants;
    WorkedIncreases(job);
  }

  /** A week holds no more than its cap, or than what was fixed there already. */
  lemma WeeklyCap(job: Job, w: int)
    requires ValidJob(job)
    ensures UsedIn(InitialUse(job), w) + |HoursOfWeek(job.grid, Elements(WorkedHours(job)), w)|
         <= Max(job.grid.weekly, UsedIn(InitialUse(job), w))
  {
    hide Scan;
    ScanIsLegal(job.grid, InitialUse(job), FirstCursor(job), CalendarLimit(job), Total(job.work));
  }

  // ---- Weeks ----

  /** The plan weeks derived from the local dates are the weeks of the first and the last allocation. */
  lemma WeeksFromDates(g: Grid, s: Scheduled, hours: set<Hour>, lo: Hour, hi: Hour)
    requires Describes(g, s, hours, lo, hi)
    ensures s.allocations != []
    ensures WeekOfDate(g.start, LocalDate(g.zone, s.startsAt)) == s.allocations[0].week
    ensures WeekOfDate(g.start, LastOccupiedDate(g.zone, s.startsAt, s.endsAt)) ==
      s.allocations[|s.allocations| - 1].week
  {
    hide WeekOfDate, DateOfHour, LocalDate, LastOccupiedDate, InstantOf;
    WholeHourDates(g.zone, lo, hi);
  }

  // ---- Prerequisites ----

  lemma EndsIffPrecedes(g: Grid, slots: seq<Hour>, keys: seq<Id>, p: Id, k: Id)
    requires |slots| == |keys| && Increasing(slots) && p in keys && k in keys
    ensures Book(g, slots, keys)[p].endsAt <= Book(g, slots, keys)[k].startsAt <==> Precedes(keys, p, k)
  {
    hide Describes, Book;
    var pLo, pHi := BookDescribes(g, slots, keys, p);
    DescribesBounds(g, Book(g, slots, keys)[p], StepHours(slots, keys, p), pLo, pHi);
    var kLo, kHi := BookDescribes(g, slots, keys, k);
    DescribesBounds(g, Book(g, slots, keys)[k], StepHours(slots, keys, k), kLo, kHi);
    if Precedes(keys, p, k) {
      var i :| 0 <= i < |keys| && keys[i] == p && slots[i] == pHi;
      var j :| 0 <= j < |keys| && keys[j] == k && slots[j] == kLo;
      assert i < j;
    }
    if pHi < kLo {
      forall i, j | 0 <= i < |keys| && 0 <= j < |keys| && keys[i] == p && keys[j] == k
        ensures i < j
      {
        assert slots[i] in StepHours(slots, keys, p) && slots[j] in StepHours(slots, keys, k);
      }
    }
  }

  /** A prerequisite is met when it is scheduled and ends no later than the step starts. */
  predicate Met(schedules: map<Id, Scheduled>, p: Id, k: Id)
    requires k in schedules
  {
    p in schedules && schedules[p].endsAt <= schedules[k].startsAt
  }

  ghost predicate AllMet(w: Work, schedules: map<Id, Scheduled>)
    requires Valid(w) && w.hours.Keys <= schedules.Keys
  {
    forall k, p :: k in w.order && p in w.waits[k] ==> Met(schedules, p, k)
  }

  lemma MetIffPrecedes(job: Job, k: Id, p: Id)
    requires ValidJob(job) && PackSpec(job).Packed?
    requires k in job.work.order && p in job.work.waits[k] && p !in job.fixed
    ensures k in PackSpec(job).schedules
    ensures Met(PackSpec(job).schedules, p, k)
       <==> p in job.work.order && Precedes(Grants(job.work, Total(job.work)), p, k)
  {
    hide PackSpec, Grants, Total, WorkedHours, Book, AllWork, Precedes;
    PackedShape(job);
    WorkedIncreases(job);
    if p in job.work.order {
      EndsIffPrecedes(job.grid, WorkedHours(job), Grants(job.work, Total(job.work)), p, k);
    }
  }

  lemma AllMetIffRespected(w: Work, schedules: map<Id, Scheduled>, keys: seq<Id>)
    requires Valid(w) && w.hours.Keys <= schedules.Keys
    requires forall k, p :: k in w.order && p in w.waits[k] ==>
      (k in schedules && Met(schedules, p, k) <==> p in w.order && Precedes(keys, p, k))
    ensures AllMet(w, schedules) <==> Respected(w, keys)
  {
    hide Met, Precedes;
  }

  /** All prerequisites of all packed steps are met if and only if none is unknown and none form a ring. */
  lemma MetIffSound(job: Job)
    requires ValidJob(job) && PackSpec(job).Packed?
    requires forall k, p :: k in job.work.order && p in job.work.waits[k] ==> p !in job.fixed
    ensures job.work.hours.Keys <= PackSpec(job).schedules.Keys
    ensures AllMet(job.work, PackSpec(job).schedules) <==> !Broken(job.work)
  {
    hide PackSpec, Grants, Total, WorkedHours, Book, Broken, AllWork, Precedes, Met, AllMet, Respected;
    PackedShape(job);
    RespectedIffSound(job.work);
    var schedules, keys := PackSpec(job).schedules, Grants(job.work, Total(job.work));
    forall k, p | k in job.work.order && p in job.work.waits[k]
      ensures k in schedules && Met(schedules, p, k) <==> p in job.work.order && Precedes(keys, p, k)
    {
      MetIffPrecedes(job, k, p);
    }
    AllMetIffRespected(job.work, schedules, keys);
  }

  // ---- Optimality ----

  /** However as many legal hours are chosen from the same start, one of them ends no earlier than every step. */
  lemma FinishesFirst(job: Job, other: set<Hour>) returns (latest: Hour)
    requires ValidJob(job) && PackSpec(job).Packed? && job.work.order != []
    requires Legal(job.grid, InitialUse(job), other) && |other| == Total(job.work)
    requires forall h <- other :: FirstCursor(job) <= h
    ensures latest in other
    ensures forall k <- job.work.order :: k in PackSpec(job).schedules &&
              PackSpec(job).schedules[k].endsAt <= InstantOf(latest + 1)
  {
    hide PackSpec, Legal, WorkedHours, Total, InitialUse, ValidJob;
    var last := LastHour(job);
    latest := LastWorked(job, other, last);
    forall k | k in job.work.order
      ensures k in PackSpec(job).schedules && PackSpec(job).schedules[k].endsAt <= InstantOf(latest + 1)
    {
      EndsByLast(job, k, last);
    }
  }

  /** The last hour worked. */
  lemma LastHour(job: Job) returns (last: Hour)
    requires ValidJob(job) && PackSpec(job).Packed? && job.work.order != []
    ensures |WorkedHours(job)| == Total(job.work) > 0 && last == WorkedHours(job)[Total(job.work) - 1]
    ensures forall h <- WorkedHours(job) :: h <= last
  {
    hide PackSpec, Grants, WorkedHours, AllWork, Valid, Total, Book;
    PackedShape(job);
    SomeKey(job.work.order, Grants(job.work, Total(job.work)));
    WorkedIncreases(job);
    LastIsLatest(WorkedHours(job));
    last := WorkedHours(job)[Total(job.work) - 1];
  }

  lemma SomeKey(order: seq<Id>, keys: seq<Id>)
    requires order != [] && forall k <- order :: k in keys
    ensures keys != []
  {
    var first := order[0];
    assert first in order && first in keys;
  }

  lemma LastIsLatest(slots: seq<Hour>)
    requires Increasing(slots) && slots != []
    ensures forall h <- slots :: h <= slots[|slots| - 1]
  {
  }

  lemma EndsByLast(job: Job, k: Id, last: Hour)
    requires ValidJob(job) && PackSpec(job).Packed? && k in job.work.order
    requires forall h <- WorkedHours(job) :: h <= last
    ensures k in PackSpec(job).schedules
    ensures PackSpec(job).schedules[k].endsAt <= InstantOf(last + 1)
  {
    hide PackSpec, Grants, WorkedHours, Describes, Total, Open, Valid;
    var lo, hi := PackedDescribes(job, k);
    DescribesBounds(job.grid, PackSpec(job).schedules[k], HoursOf(job, k), lo, hi);
    StepHoursBounded(WorkedHours(job), Grants(job.work, Total(job.work)), k, hi);
  }

  lemma LastWorked(job: Job, other: set<Hour>, last: Hour) returns (latest: Hour)
    requires ValidJob(job) && |WorkedHours(job)| == Total(job.work) == |other| > 0
    requires last == WorkedHours(job)[Total(job.work) - 1]
    requires Legal(job.grid, InitialUse(job), other) && forall h <- other :: FirstCursor(job) <= h
    ensures latest in other && last <= latest
  {
    hide Legal, Chosen, Total;
    WorkedIncreases(job);
    if h :| h in other && last <= h {
      latest := h;
    } else {
      ChosenDominates(job.grid, InitialUse(job), other, FirstCursor(job), last);
      ChosenBelow(job.grid, InitialUse(job), FirstCursor(job), CalendarLimit(job), Total(job.work),
        Total(job.work) - 1);
      assert false;
    }
  }

  ghost predicate SomeoneWorks(job: Job, h: Hour)
    requires ValidJob(job) && |WorkedHours(job)| == Total(job.work)
  {
    exists k <- job.work.order :: h in HoursOf(job, k)
  }

  lemma WorkedBySomeone(job: Job, h: Hour)
    requires ValidJob(job) && |WorkedHours(job)| == Total(job.work)
    ensures SomeoneWorks(job, h) <==> h in WorkedHours(job)
  {
    hide WorkedHours, Grants, Total;
    var slots, keys := WorkedHours(job), Grants(job.work, Total(job.work));
    if h in slots {
      var i :| 0 <= i < |slots| && slots[i] == h;
      var k := keys[i];
      assert k in Members(keys) && h in HoursOf(job, k);
    }
  }

  /** Neither the success of a packing nor the hours worked depend on the order, preferences or prerequisites. */
  lemma HoursIndependent(job: Job, work': Work, h: Hour)
    requires ValidJob(job) && ValidJob(job.(work := work')) && Total(work') == Total(job.work)
    ensures PackSpec(job).DoesNotFit? <==> PackSpec(job.(work := work')).DoesNotFit?
    ensures |WorkedHours(job)| == |WorkedHours(job.(work := work'))|
    ensures |WorkedHours(job)| == Total(job.work) ==>
      (SomeoneWorks(job, h) <==> SomeoneWorks(job.(work := work'), h))
  {
    hide Scan, Grants, Book, SomeoneWorks, Total;
    if |WorkedHours(job)| == Total(job.work) {
      WorkedBySomeone(job, h);
      WorkedBySomeone(job.(work := work'), h);
    }
  }

  // ---- Steps that ask for no hour ----

  predicate AllExact(w: Work, schedules: map<Id, Scheduled>)
    requires Valid(w)
  {
    forall k <- w.order :: k in schedules && TotalHours(schedules[k].allocations) == w.hours[k]
  }

  /** Everyone gets exactly what they ask for if and only if nobody asks for nothing. */
  lemma ExactIffPositive(job: Job)
    requires ValidJob(job) && !PackSpec(job).DoesNotFit?
    ensures PackSpec(job).Packed? && AllExact(job.work, PackSpec(job).schedules) <==> Positive(job.work)
  {
    hide PackSpec, Grants, Total, WorkedHours, Open, Describes;
    if Positive(job.work) {
      PackedWhenPositive(job);
      forall k | k in job.work.order
        ensures k in PackSpec(job).schedules && TotalHours(PackSpec(job).schedules[k].allocations) == job.work.hours[k]
      {
        var lo, hi := PackedExactly(job, k);
        DescribesTotal(job.grid, PackSpec(job).schedules[k], HoursOf(job, k), lo, hi);
      }
    } else if PackSpec(job).Packed? {
      var k :| k in job.work.order && job.work.hours[k] < 1;
      PackedSomeHour(job, k);
    }
  }

  lemma DescribesTotal(g: Grid, s: Scheduled, hours: set<Hour>, lo: Hour, hi: Hour)
    requires Describes(g, s, hours, lo, hi)
    ensures TotalHours(s.allocations) == |hours| > 0
  {
  }

  lemma PackedSomeHour(job: Job, k: Id)
    requires ValidJob(job) && PackSpec(job).Packed? && k in job.work.order
    ensures k in PackSpec(job).schedules && TotalHours(PackSpec(job).schedules[k].allocations) > 0
  {
    hide PackSpec, Grants, Total, WorkedHours, Describes, Open;
    var lo, hi := PackedDescribes(job, k);
    DescribesTotal(job.grid, PackSpec(job).schedules[k], HoursOf(job, k), lo, hi);
  }

  /** Two steps, of which the first asks for no hour. */
  const ZeroThenOne: Work := Work([0, 1], map[0 := 0, 1 := 1], map[0 := {}, 1 := {}], map[])

  lemma ZeroThenOneTotal()
    ensures Valid(ZeroThenOne) && Total(ZeroThenOne) == 1 && !Positive(ZeroThenOne)
  {
    var w := ZeroThenOne;
    assert w.order[0] == 0 && w.order[1..] == [1] && [1][1..] == [];
    assert Sum([], w.hours) == 0;
    assert Sum([1], w.hours) == 1;
    assert 0 in w.order && w.hours[0] == 0;
  }

  lemma AdmitsDueHead(w: Work, granted: nat, ready: seq<Id>)
    requires ready != [] && NoDup(ready) && Due(w, ready[0], granted)
    ensures var b := Admit(w, granted, 0, Admission(ready, [])); b.admitted != [] && b.admitted[0] == ready[0]
  {
    var next := Admission(Without(ready, 0), [ready[0]]);
    WithoutMembers(ready, 0);
    AdmitMoves(w, granted, 0, next);
    assert FirstDue(w, ready, granted) == 0;
    assert [] + [ready[0]] == [ready[0]];
  }

  lemma ZeroComesFirst()
    ensures Valid(ZeroThenOne) && Total(ZeroThenOne) == 1 && KeyAt(ZeroThenOne, 0) == 0
  {
    hide Total, Sum, Admit, Initial;
    ZeroThenOneTotal();
    ZeroInitially();
    AdmitsDueHead(ZeroThenOne, 0, [0, 1]);
  }

  lemma ZeroInitially()
    ensures Valid(ZeroThenOne) && Initial(ZeroThenOne).ready == [0, 1] && Initial(ZeroThenOne).active == []
    ensures Initial(ZeroThenOne).granted == 0
  {
    hide Sum;
    var w := ZeroThenOne;
    ZeroThenOneTotal();
    var keep := set k | k in w.order && w.waits[k] == {};
    assert w.order == [0, 1] && w.order[1..] == [1] && [1][1..] == [];
    assert ByPosition([1], keep) == [1];
  }

  /** The step that asks for no hour takes the only hour of the other, which then has no first hour. */
  lemma ZeroHourStepTakesAnHour(g: Grid, from: Instant)
    ensures ValidJob(Job(g, ZeroThenOne, from, [], map[])) && !Positive(ZeroThenOne)
    ensures var job := Job(g, ZeroThenOne, from, [], map[]);
      PackSpec(job) == if WorkedHours(job) == [] then DoesNotFit else NoFirstHour(1)
  {
    hide Scan, Total, KeyAt;
    ZeroThenOneTotal();
    ZeroComesFirst();
    var job := Job(g, ZeroThenOne, from, [], map[]);
    WorkedIncreases(job);
    assert Grants(ZeroThenOne, 1) == [0];
    if !PackSpec(job).DoesNotFit? {
      var book := Book(g, WorkedHours(job), [0]);
      assert book.Keys == {0};
      hide Book;
      assert 1 in job.work.order && 1 !in book;
      var missing := FirstMissing(job.work.order, book.Keys);
      assert missing in job.work.order && missing !in book.Keys;
    }
  }

  /** Ten hours a week from the first instant on, without any other restriction. */
  const PlainGrid: Grid := Grid(9, 0, 10, {}, {}, [])

  /** So a packing with all the room it needs fails. */
  lemma ZeroHourStepFails()
    ensures ValidJob(Job(PlainGrid, ZeroThenOne, 0, [], map[]))
    ensures PackSpec(Job(PlainGrid, ZeroThenOne, 0, [], map[])) == NoFirstHour(1)
  {
    hide PackSpec, Total, KeyAt;
    ZeroHourStepTakesAnHour(PlainGrid, 0);
    ZeroThenOneTotal();
    var job := Job(PlainGrid, ZeroThenOne, 0, [], map[]);
    assert Takes(PlainGrid, InitialUse(job), FirstCursor(job));
    TakeHour(PlainGrid, InitialUse(job), FirstCursor(job), CalendarLimit(job), 1);
  }
}
