/**
  What every run of the rotation keeps, provided every step asks for at least one hour.

  The invariant speaks of the queue and the window as sets `ready` and `active`; only their order
  and their lengths are properties of sequences.
 */
module RotationLaws {
  import opened Rotation

  predicate Done(remaining: map<Id, int>, k: Id) {
    k in remaining && remaining[k] == 0
  }

  predicate Started(w: Work, remaining: map<Id, int>, k: Id)
    requires k in w.hours && k in remaining
  {
    remaining[k] < w.hours[k]
  }

  predicate Known(w: Work, remaining: map<Id, int>, ready: set<Id>, active: set<Id>) {
    w.hours.Keys == w.waits.Keys == remaining.Keys && ready <= remaining.Keys && active <= remaining.Keys
  }

  /** Disjoint, only unfinished steps; queued steps are unstarted, started ones are in the window. */
  predicate Split(w: Work, remaining: map<Id, int>, ready: set<Id>, active: set<Id>)
    requires Known(w, remaining, ready, active)
  {
    && ready !! active
    && (forall k <- remaining :: 0 <= remaining[k] <= w.hours[k])
    && (forall k <- active :: remaining[k] > 0)
    && (forall k <- ready :: remaining[k] > 0 && !Started(w, remaining, k))
    && (forall k <- remaining :: Started(w, remaining, k) && !Done(remaining, k) ==> k in active)
  }

  function Missing(w: Work, remaining: map<Id, int>, k: Id): set<Id>
    requires k in w.waits
  {
    set p | p in w.waits[k] && !Done(remaining, p)
  }

  /** A step waits for its unfinished prerequisites, and is queued or active once there are none. */
  predicate Waits(w: Work, remaining: map<Id, int>, waiting: map<Id, set<Id>>, ready: set<Id>, active: set<Id>)
    requires Known(w, remaining, ready, active) && waiting.Keys == remaining.Keys
  {
    && (forall k <- remaining :: waiting[k] == Missing(w, remaining, k))
    && (forall k <- ready :: waiting[k] == {})
    && (forall k <- active :: !Started(w, remaining, k) ==> waiting[k] == {})
    && (forall k <- remaining :: waiting[k] == {} && !Done(remaining, k) ==> k in ready || k in active)
  }

  predicate Inv(w: Work, st: State)
    requires Valid(w)
  {
    && Shape(w, st)
    && NoDup(st.active) && |st.active| <= MAX_ACTIVE
    && Split(w, st.remaining, Members(st.ready), Members(st.active))
    && Waits(w, st.remaining, st.waiting, Members(st.ready), Members(st.active))
  }

  lemma InitialInv(w: Work)
    requires Valid(w) && Positive(w)
    ensures Inv(w, Initial(w))
  {
  }

  // ---- One step, on sets ----

  /** What opening the window does: `ready1` stay queued, `window` are in it. */
  predicate Opened(w: Work, remaining: map<Id, int>, ready: set<Id>, active: set<Id>, ready1: set<Id>, window: set<Id>)
    requires Known(w, remaining, ready, active)
  {
    && ready1 !! window && ready1 <= ready && window <= remaining.Keys
    && ready + active <= ready1 + window
    && (forall k <- window :: remaining[k] > 0)
    && (forall k <- window :: k in ready || k in active || (ready == {} && active == {} && window == {k}))
  }

  lemma RotateSets(w: Work, remaining: map<Id, int>, waiting: map<Id, set<Id>>, ready: set<Id>, active: set<Id>,
                   ready1: set<Id>, window: set<Id>, key: Id)
    requires Known(w, remaining, ready, active) && waiting.Keys == remaining.Keys
    requires Split(w, remaining, ready, active) && Waits(w, remaining, waiting, ready, active)
    requires Opened(w, remaining, ready, active, ready1, window) && key in window && remaining[key] > 1
    ensures var remaining' := remaining[key := remaining[key] - 1];
      && Known(w, remaining', ready1, window) && Split(w, remaining', ready1, window)
      && Waits(w, remaining', waiting, ready1, window)
  {
    var remaining' := remaining[key := remaining[key] - 1];
    forall k | k in remaining
      ensures Missing(w, remaining', k) == Missing(w, remaining, k)
    {
      assert forall p :: Done(remaining', p) <==> Done(remaining, p);
    }
  }

  lemma RetireSplit(w: Work, remaining: map<Id, int>, waiting: map<Id, set<Id>>, ready: set<Id>, active: set<Id>,
                   ready1: set<Id>, window: set<Id>, key: Id)
    requires Known(w, remaining, ready, active) && waiting.Keys == remaining.Keys
    requires Split(w, remaining, ready, active) && Waits(w, remaining, waiting, ready, active)
    requires Opened(w, remaining, ready, active, ready1, window) && key in window && remaining[key] == 1
    ensures var remaining' := remaining[key := 0];
      var waiting', rest := Discarded(w, waiting, key), window - {key};
      var ready' := ready1 + Freed(w, remaining', waiting', ready1 + rest, key);
      Known(w, remaining', ready', rest) && Split(w, remaining', ready', rest)
  {
    var remaining' := remaining[key := 0];
    var waiting', rest := Discarded(w, waiting, key), window - {key};
    var freed := Freed(w, remaining', waiting', ready1 + rest, key);
    forall k | k in freed
      ensures !Started(w, remaining', k)
    {
      assert k != key && k !in active;
    }
  }

  /** Finishing `key` takes it out of what every step waits for. */
  lemma RetireMissing(w: Work, remaining: map<Id, int>, waiting: map<Id, set<Id>>, key: Id)
    requires w.waits.Keys == remaining.Keys == waiting.Keys && key in remaining && remaining[key] == 1
    requires forall k <- remaining :: waiting[k] == Missing(w, remaining, k)
    ensures var remaining', waiting' := remaining[key := 0], Discarded(w, waiting, key);
      && waiting'.Keys == waiting.Keys
      && (forall p :: Done(remaining', p) <==> Done(remaining, p) || p == key)
      && forall k <- remaining ::
           && waiting'[k] == Missing(w, remaining', k) && waiting'[k] <= waiting[k]
           && (waiting'[k] != waiting[k] ==> key in w.waits[k])
  {
    var remaining', waiting' := remaining[key := 0], Discarded(w, waiting, key);
    assert forall p :: Done(remaining', p) <==> Done(remaining, p) || p == key;
    forall k | k in remaining
      ensures waiting'[k] == Missing(w, remaining', k) && waiting'[k] <= waiting[k]
      ensures waiting'[k] != waiting[k] ==> key in w.waits[k]
    {
    }
  }

  lemma RetireWaits(w: Work, remaining: map<Id, int>, waiting: map<Id, set<Id>>, ready: set<Id>, active: set<Id>,
                   ready1: set<Id>, window: set<Id>, key: Id)
    requires Known(w, remaining, ready, active) && waiting.Keys == remaining.Keys
    requires Split(w, remaining, ready, active) && Waits(w, remaining, waiting, ready, active)
    requires Opened(w, remaining, ready, active, ready1, window) && key in window && remaining[key] == 1
    ensures var remaining' := remaining[key := 0];
      var waiting', rest := Discarded(w, waiting, key), window - {key};
      var ready' := ready1 + Freed(w, remaining', waiting', ready1 + rest, key);
      Known(w, remaining', ready', rest) ==> Waits(w, remaining', waiting', ready', rest)
  {
    hide Discarded, Missing;
    var remaining' := remaining[key := 0];
    var waiting', rest := Discarded(w, waiting, key), window - {key};
    RetireMissing(w, remaining, waiting, key);
    forall k | k in remaining && waiting'[k] == {} && !Done(remaining', k)
      ensures k in ready1 + Freed(w, remaining', waiting', ready1 + rest, key) || k in rest
    {
      RetireFrees(w, remaining, waiting, ready, active, ready1, window, key, k);
    }
  }

  /** Once nothing is missing, an unfinished step is queued, active or freed now. */
  lemma RetireFrees(w: Work, remaining: map<Id, int>, waiting: map<Id, set<Id>>, ready: set<Id>, active: set<Id>,
                    ready1: set<Id>, window: set<Id>, key: Id, k: Id)
    requires Known(w, remaining, ready, active) && waiting.Keys == remaining.Keys
    requires Waits(w, remaining, waiting, ready, active)
    requires Opened(w, remaining, ready, active, ready1, window) && key in window && remaining[key] == 1
    requires k in remaining && k != key && remaining[k] != 0
    ensures var remaining' := remaining[key := 0];
      var waiting', rest := Discarded(w, waiting, key), window - {key};
      waiting'[k] == {} ==> k in ready1 + Freed(w, remaining', waiting', ready1 + rest, key) || k in rest
  {
    hide Missing;
    if waiting[k] == {} {
      assert k in ready + active;
    }
  }

  // ---- One step, on sequences ----

  predicate OpenedWindow(w: Work, st: State, a: Admission)
    requires Valid(w) && Inv(w, st)
  {
    && Members(a.ready) <= Members(w.order) && Members(a.admitted) <= Members(w.order)
    && a.admitted != [] && NoDup(a.ready) && NoDup(a.admitted) && |a.admitted| <= MAX_ACTIVE
    && Opened(w, st.remaining, Members(st.ready), Members(st.active), Members(a.ready), Members(a.admitted))
  }

  lemma AdvanceInv(w: Work, st: State, a: Admission)
    requires Valid(w) && Inv(w, st) && OpenedWindow(w, st, a)
    ensures Inv(w, Advance(w, st, a))
  {
    hide Split, Waits, Opened, Advance;
    var key, rest := Head(w, a), a.admitted[1..];
    assert a.admitted == [key] + rest;
    assert Members(rest) == Members(a.admitted) - {key};
    WindowUnfinished(w, st, a, key);
    if st.remaining[key] != 1 {
      RotateInv(w, st, a, key, rest);
    } else {
      RetireInv(w, st, a, key, rest);
    }
  }

  lemma RotateInv(w: Work, st: State, a: Admission, key: Id, rest: seq<Id>)
    requires Valid(w) && Inv(w, st) && OpenedWindow(w, st, a) && key == Head(w, a)
    requires a.admitted == [key] + rest && st.remaining[key] > 1
    ensures Inv(w, Advance(w, st, a))
  {
    hide Split, Waits, Opened, Discarded, Freed, ByPosition;
    AdvanceShape(w, st, a);
    assert Members(Advance(w, st, a).active) == Members(a.admitted);
    RotateSets(w, st.remaining, st.waiting, Members(st.ready), Members(st.active),
               Members(a.ready), Members(a.admitted), key);
  }

  lemma RetireInv(w: Work, st: State, a: Admission, key: Id, rest: seq<Id>)
    requires Valid(w) && Inv(w, st) && OpenedWindow(w, st, a) && key == Head(w, a)
    requires a.admitted == [key] + rest && Members(rest) == Members(a.admitted) - {key} && st.remaining[key] == 1
    ensures Inv(w, Advance(w, st, a))
  {
    hide Split, Waits, Opened, Discarded, Freed, ByPosition;
    AdvanceShape(w, st, a);
    var remaining', waiting' := st.remaining[key := 0], Discarded(w, st.waiting, key);
    RetireSplit(w, st.remaining, st.waiting, Members(st.ready), Members(st.active),
                Members(a.ready), Members(a.admitted), key);
    RetireWaits(w, st.remaining, st.waiting, Members(st.ready), Members(st.active),
                Members(a.ready), Members(a.admitted), key);
    QueueMembers(w, Members(a.ready), remaining', waiting', Members(a.ready) + Members(rest), key);
  }

  lemma WindowUnfinished(w: Work, st: State, a: Admission, k: Id)
    requires Valid(w) && Inv(w, st) && OpenedWindow(w, st, a) && k in a.admitted
    ensures st.remaining[k] > 0
  {
  }

  lemma QueueMembers(w: Work, kept: set<Id>, remaining: map<Id, int>, waiting: map<Id, set<Id>>, busy: set<Id>, key: Id)
    requires waiting.Keys <= w.waits.Keys && waiting.Keys <= remaining.Keys
    requires Members(w.order) == w.waits.Keys && kept <= Members(w.order)
    ensures var now := kept + Freed(w, remaining, waiting, busy, key); Members(ByPosition(w.order, now)) == now
  {
  }

  lemma OpensOpened(w: Work, st: State, a: Admission, admitted: seq<Id>)
    requires Valid(w) && Inv(w, st) && Opens(st, a, admitted)
    requires a.admitted != [] && Members(a.admitted) <= Members(w.order)
    requires st.ready == [] && st.active == [] ==> st.remaining[Head(w, a)] != 0
    ensures OpenedWindow(w, st, a)
  {
    if st.ready == [] && st.active == [] {
      assert a.admitted == [Head(w, a)];
      assert Members(a.admitted) == {Head(w, a)};
    } else {
      assert Members(a.admitted) == Members(admitted) + Members(st.active);
      forall i, j | 0 <= i < j < |a.admitted|
        ensures a.admitted[i] != a.admitted[j]
      {
        if i < |admitted| && j >= |admitted| {
          assert admitted[i] in Members(admitted) && st.active[j - |admitted|] in Members(st.active);
        }
      }
    }
  }

  lemma WindowOpened(w: Work, st: State)
    requires Valid(w) && WellFormed(w, st) && Inv(w, st) && st.granted < Total(w)
    ensures OpenedWindow(w, st, Window(w, st))
  {
    var admitted := WindowOpens(w, st);
    OpensOpened(w, st, Window(w, st), admitted);
  }

  lemma GrantInv(w: Work, st: State)
    requires Valid(w) && WellFormed(w, st) && Inv(w, st) && st.granted < Total(w)
    ensures WellFormed(w, Grant(w, st)) && Inv(w, Grant(w, st))
  {
    hide Inv, Advance, WellFormed, OpenedWindow, Window;
    GrantWellFormed(w, st);
    WindowOpened(w, st);
    AdvanceInv(w, st, Window(w, st));
  }

  /** Every state of every run satisfies the invariant. */
  lemma RunBegins(w: Work)
    requires Valid(w)
    ensures Run(w, 0) == Initial(w)
  {
  }

  lemma RunContinues(w: Work, n: nat)
    requires Valid(w) && n < Total(w)
    ensures Run(w, n + 1) == Grant(w, Run(w, n))
  {
  }

  lemma {:induction false} RunInv(w: Work, n: nat)
    requires Valid(w) && Positive(w) && n <= Total(w)
    ensures Inv(w, Run(w, n))
  {
    hide Grant, Inv, Initial, Run, WellFormed, Positive, Valid, Total;
    if n == 0 {
      InitialInv(w);
      RunBegins(w);
    } else {
      RunInv(w, n - 1);
      GrantInv(w, Run(w, n - 1));
      RunContinues(w, n - 1);
    }
  }

  // ---- Hours ----

  lemma RunStep(w: Work, n: nat)
    requires Valid(w) && n < Total(w)
    ensures var left, key := Run(w, n).remaining, KeyAt(w, n);
      Run(w, n + 1).remaining == left[key := left[key] - 1]
  {
    hide Grant, Key, Initial, WellFormed;
    GrantWellFormed(w, Run(w, n));
  }

  lemma GrantsStep(w: Work, n: nat)
    requires Valid(w) && n < Total(w)
    ensures Grants(w, n + 1) == Grants(w, n) + [KeyAt(w, n)]
  {
    hide Run, KeyAt;
  }

  lemma RunStart(w: Work)
    requires Valid(w)
    ensures Run(w, 0) == Initial(w) && Run(w, 0).remaining == w.hours && Grants(w, 0) == []
  {
  }

  /** Hours are conserved: what a step has been granted and what it still asks for add up. */
  lemma {:induction false} HoursConserved(w: Work, n: nat, k: Id)
    requires Valid(w) && n <= Total(w) && k in w.order
    ensures multiset(Grants(w, n))[k] == w.hours[k] - Run(w, n).remaining[k]
  {
    hide Run, KeyAt, Grants, Initial, Total, WellFormed, Shape;
    if n == 0 {
      RunStart(w);
    } else {
      HoursConserved(w, n - 1, k);
      RunStep(w, n - 1);
      GrantsStep(w, n - 1);
      var s, key := Grants(w, n - 1), KeyAt(w, n - 1);
      assert multiset(s + [key]) == multiset(s) + multiset{key};
    }
  }

  /** A complete run gives every step exactly the hours it asks for, broken dependencies or not. */
  lemma ExactHours(w: Work, k: Id)
    requires Valid(w) && Positive(w) && k in w.order
    ensures multiset(Grants(w, Total(w)))[k] == w.hours[k]
  {
    HoursConserved(w, Total(w), k);
    RunInv(w, Total(w));
    SumNonNegative(w.order, Run(w, Total(w)).remaining);
  }

  lemma ProgressIsActive(w: Work, n: nat, k: Id)
    requires Valid(w) && Positive(w) && n <= Total(w) && k in w.order
    requires 0 < multiset(Grants(w, n))[k] < w.hours[k]
    ensures k in Members(Run(w, n).active)
  {
    hide Run, Grants, Inv, WellFormed, Sum;
    RunInv(w, n);
    HoursConserved(w, n, k);
    InProgress(w, Run(w, n), k);
  }

  lemma InProgress(w: Work, st: State, k: Id)
    requires Valid(w) && Inv(w, st) && k in w.order
    ensures k in st.remaining && (0 < st.remaining[k] < w.hours[k] ==> k in Members(st.active))
  {
  }

  lemma WindowSize(w: Work, n: nat)
    requires Valid(w) && Positive(w) && n <= Total(w)
    ensures |Members(Run(w, n).active)| <= 2
  {
    hide Run, WellFormed, Split, Waits, Members;
    RunInv(w, n);
    MembersSize(Run(w, n).active);
  }

  /** At any moment at most two steps are started and unfinished. */
  lemma AtMostTwoInProgress(w: Work, n: nat)
    requires Valid(w) && Positive(w) && n <= Total(w)
    ensures |set k | k in w.order && 0 < multiset(Grants(w, n))[k] < w.hours[k]| <= 2
  {
    hide Run, Grants, Total, WellFormed;
    var progress := set k | k in w.order && 0 < multiset(Grants(w, n))[k] < w.hours[k];
    var active := Members(Run(w, n).active);
    forall k | k in progress
      ensures k in active
    {
      ProgressIsActive(w, n, k);
    }
    WindowSize(w, n);
    assert active == progress + (active - progress);
  }

  lemma {:induction false} MembersSize(s: seq<Id>)
    ensures |Members(s)| <= |s|
  {
    if s != [] {
      MembersSize(s[..|s| - 1]);
      assert s == s[..|s| - 1] + [s[|s| - 1]];
      assert Members(s) == Members(s[..|s| - 1]) + {s[|s| - 1]};
    }
  }
}
