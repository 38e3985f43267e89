/**
  Runs with a step that asks for no hour. Such a step, once it may start, never leaves the window, so
  nothing is ever forced; and if its prerequisites do not let it start, it never works. So whenever
  everyone works, the prerequisites are respected if and only if the graph is sound, as in other runs.
 */
module ZeroHours {
  import opened Rotation
  import opened RotationLaws
  import opened Prerequisites

  /** Everyone works at least one hour. */
  ghost predicate AllWork(w: Work)
    requires Valid(w)
  {
    Members(w.order) <= Members(Grants(w, Total(w)))
  }

  /** The step has worked the hours it asked for, and it did ask for some. */
  predicate Finished(w: Work, remaining: map<Id, int>, k: Id) {
    k in remaining && k in w.hours && remaining[k] == 0 && w.hours[k] > 0
  }

  /** Queued and active steps are apart, free and unfinished, and only finished steps are no longer waited for. */
  predicate Flowing(w: Work, remaining: map<Id, int>, waiting: map<Id, set<Id>>, ready: set<Id>, active: set<Id>) {
    && w.waits.Keys == w.hours.Keys == remaining.Keys == waiting.Keys
    && ready !! active
    && (forall k <- remaining :: remaining[k] <= w.hours[k] && (w.hours[k] > 0 ==> remaining[k] >= 0))
    && (forall k <- ready + active :: k in waiting && waiting[k] == {} && !Finished(w, remaining, k))
    && (forall k, p :: k in waiting && p in w.waits[k] && p !in waiting[k] ==> Finished(w, remaining, p))
  }

  predicate ZeroInv(w: Work, z: Id, st: State) {
    && Shape(w, st) && NoDup(st.active) && z in Members(st.ready) + Members(st.active)
    && Flowing(w, st.remaining, st.waiting, Members(st.ready), Members(st.active))
  }

  lemma ZeroInitial(w: Work, z: Id)
    requires Valid(w) && z in w.order && w.waits[z] == {} && w.hours[z] == 0
    ensures ZeroInv(w, z, Initial(w))
  {
    var st := Initial(w);
    var free := set k | k in w.order && w.waits[k] == {};
    assert z in free;
    ByPositionMembers(w.order, free);
    assert z in Members(w.order) * free;
  }

  /** Rotating the head of the window keeps the flow. */
  lemma FlowRotates(w: Work, remaining: map<Id, int>, waiting: map<Id, set<Id>>, ready: set<Id>, active: set<Id>,
                    key: Id)
    requires Flowing(w, remaining, waiting, ready, active) && key in active && remaining[key] != 1
    ensures Flowing(w, remaining[key := remaining[key] - 1], waiting, ready, active)
  {
    var remaining' := remaining[key := remaining[key] - 1];
    assert !Finished(w, remaining, key);
    assert forall k :: Finished(w, remaining', k) <==> Finished(w, remaining, k);
  }

  /** So does retiring it. */
  lemma FlowRetires(w: Work, remaining: map<Id, int>, waiting: map<Id, set<Id>>, ready: set<Id>, active: set<Id>,
                    key: Id)
    requires Flowing(w, remaining, waiting, ready, active) && key in active && remaining[key] == 1
    ensures var remaining', waiting', rest := remaining[key := 0], Discarded(w, waiting, key), active - {key};
      Flowing(w, remaining', waiting', ready + Freed(w, remaining', waiting', ready + rest, key), rest)
  {
    var remaining', waiting', rest := remaining[key := 0], Discarded(w, waiting, key), active - {key};
    assert forall k :: Finished(w, remaining', k) <==> Finished(w, remaining, k) || k == key;
  }

  /** Opening the window moves steps from the queue to the window. */
  lemma ZeroOpens(w: Work, z: Id, st: State, a: Admission, admitted: seq<Id>)
    requires Valid(w) && ZeroInv(w, z, st) && Opens(st, a, admitted)
    ensures NoDup(a.admitted) && Members(a.ready) + Members(a.admitted) == Members(st.ready) + Members(st.active)
    ensures Flowing(w, st.remaining, st.waiting, Members(a.ready), Members(a.admitted))
  {
    Busy(st, z);
    NoDupConcat(admitted, st.active);
  }

  lemma Busy(st: State, z: Id)
    requires z in Members(st.ready) + Members(st.active)
    ensures st.ready != [] || st.active != []
  {
    assert Members([]) == {};
  }

  lemma ZeroAdvances(w: Work, z: Id, st: State, a: Admission, admitted: seq<Id>)
    requires Valid(w) && ZeroInv(w, z, st) && Opens(st, a, admitted) && w.hours[z] == 0
    requires a.admitted != [] && Members(a.admitted) <= Members(w.order)
    ensures ZeroInv(w, z, Advance(w, st, a))
    ensures var key := Head(w, a); st.waiting[key] == {} && !Finished(w, st.remaining, key)
  {
    hide Flowing, Discarded, Freed, ByPosition, Opens;
    var key, rest := Head(w, a), a.admitted[1..];
    var st' := Advance(w, st, a);
    ZeroOpens(w, z, st, a, admitted);
    AdvanceShape(w, st, a) by { ReadyKept(st, a, admitted, w); }
    assert a.admitted == [key] + rest;
    HeadApart(key, rest);
    KeyFlows(w, st.remaining, st.waiting, Members(a.ready), Members(a.admitted), key);
    if st.remaining[key] != 1 {
      FlowRotates(w, st.remaining, st.waiting, Members(a.ready), Members(a.admitted), key);
      assert Members([key]) == {key};
      NoDupConcat(rest, [key]);
      assert Members(st'.active) == Members(a.admitted);
    } else {
      FlowRetires(w, st.remaining, st.waiting, Members(a.ready), Members(a.admitted), key);
      var remaining', waiting' := st.remaining[key := 0], Discarded(w, st.waiting, key);
      QueueMembers(w, Members(a.ready), remaining', waiting', Members(a.ready) + Members(rest), key);
    }
  }

  lemma ReadyKept(st: State, a: Admission, admitted: seq<Id>, w: Work)
    requires Shape(w, st) && Opens(st, a, admitted)
    ensures NoDup(a.ready) && Members(a.ready) <= Members(w.order)
  {
  }

  lemma HeadApart(key: Id, rest: seq<Id>)
    requires NoDup([key] + rest)
    ensures NoDup(rest) && key !in Members(rest) && Members([key] + rest) == {key} + Members(rest)
  {
    var all := [key] + rest;
    assert forall i :: 0 <= i < |rest| ==> rest[i] == all[i + 1] && all[0] == key;
  }

  /** A step in the window is free and unfinished; its last hour is one it asked for. */
  lemma KeyFlows(w: Work, remaining: map<Id, int>, waiting: map<Id, set<Id>>, ready: set<Id>, active: set<Id>, key: Id)
    requires Flowing(w, remaining, waiting, ready, active) && key in active
    ensures key in remaining && key in waiting && waiting[key] == {} && !Finished(w, remaining, key)
    ensures remaining[key] == 1 ==> w.hours[key] > 0
  {
    assert key in ready + active;
  }

  // ---- Over the run ----

  lemma {:induction false} ZeroRun(w: Work, z: Id, n: nat)
    requires Valid(w) && z in w.order && w.waits[z] == {} && w.hours[z] == 0 && n <= Total(w)
    ensures ZeroInv(w, z, Run(w, n))
  {
    hide ZeroInv, Grant, Total, Run, WellFormed, Initial;
    if n == 0 {
      ZeroInitial(w, z);
      RunBegins(w);
    } else {
      ZeroRun(w, z, n - 1);
      ZeroGrants(w, z, Run(w, n - 1));
      RunContinues(w, n - 1);
    }
  }

  lemma ZeroGrants(w: Work, z: Id, st: State)
    requires Valid(w) && WellFormed(w, st) && st.granted < Total(w) && z in w.order && w.hours[z] == 0
    requires ZeroInv(w, z, st)
    ensures ZeroInv(w, z, Grant(w, st))
    ensures Key(w, st) in st.waiting && st.waiting[Key(w, st)] == {} && !Finished(w, st.remaining, Key(w, st))
  {
    hide ZeroInv, Window, Advance, Opens, WellFormed, Finished, Total;
    var admitted := WindowOpens(w, st);
    ZeroAdvances(w, z, st, Window(w, st), admitted);
    KeyWaits(w, z, st);
  }

  lemma KeyWaits(w: Work, z: Id, st: State)
    requires Valid(w) && ZeroInv(w, z, st)
    ensures st.waiting.Keys == Members(w.order)
  {
  }

  lemma {:induction false} FinishedStays(w: Work, z: Id, m: nat, n: nat, p: Id)
    requires Valid(w) && z in w.order && w.waits[z] == {} && w.hours[z] == 0
    requires m <= n <= Total(w) && Finished(w, Run(w, m).remaining, p)
    ensures Finished(w, Run(w, n).remaining, p)
    decreases n
  {
    hide Run, Key, ZeroInv, WellFormed, Total;
    if m < n {
      FinishedStays(w, z, m, n - 1, p);
      ZeroRun(w, z, n - 1);
      ZeroGrants(w, z, Run(w, n - 1));
      RunStep(w, n - 1);
    }
  }

  /** What is no longer waited for is finished. */
  lemma DropsOnlyFinished(w: Work, z: Id, st: State, k: Id, p: Id)
    requires Valid(w) && ZeroInv(w, z, st) && k in w.order && p in w.waits[k] && st.waiting[k] == {}
    ensures Finished(w, st.remaining, p)
  {
  }

  /** Beside a free step that asks for nothing, prerequisites finish before their dependents start. */
  lemma FreeZeroRespects(w: Work, z: Id, k: Id, p: Id, j: nat)
    requires Valid(w) && z in w.order && w.waits[z] == {} && w.hours[z] == 0
    requires k in w.order && p in w.waits[k] && j < Total(w) && KeyAt(w, j) == k
    ensures p in w.order && forall i :: j <= i < Total(w) ==> KeyAt(w, i) != p
  {
    hide Run, Key, ZeroInv, WellFormed, Total, Finished;
    ZeroRun(w, z, j);
    ZeroGrants(w, z, Run(w, j));
    DropsOnlyFinished(w, z, Run(w, j), k, p);
    FinishedIsKnown(w, Run(w, j).remaining, p);
    forall i | j <= i < Total(w)
      ensures KeyAt(w, i) != p
    {
      FinishedStays(w, z, j, i, p);
      ZeroRun(w, z, i);
      ZeroGrants(w, z, Run(w, i));
    }
  }

  lemma FinishedIsKnown(w: Work, remaining: map<Id, int>, p: Id)
    requires Valid(w) && Finished(w, remaining, p)
    ensures p in w.order
  {
  }

  /** A step that asks for nothing and has to wait never works. */
  lemma {:induction false} BlockedZeroRests(w: Work, z: Id, n: nat)
    requires Valid(w) && z in w.order && w.waits[z] != {} && w.hours[z] == 0 && n <= Total(w)
    ensures var st := Run(w, n);
      z in st.remaining && st.remaining[z] == 0 && z !in Members(st.ready) + Members(st.active)
    ensures n < Total(w) ==> KeyAt(w, n) != z
  {
    hide Run, Key, Total, WellFormed, Grant;
    if n == 0 {
      RunStart(w);
      BlockedInitially(w, z);
    } else {
      BlockedZeroRests(w, z, n - 1);
      RestsOn(w, z, Run(w, n - 1));
      RunContinues(w, n - 1);
    }
    if n < Total(w) {
      RestsOn(w, z, Run(w, n));
    }
  }

  lemma BlockedInitially(w: Work, z: Id)
    requires Valid(w) && z in w.order && w.waits[z] != {}
    ensures z !in Members(Initial(w).ready) + Members(Initial(w).active)
  {
    assert Members([]) == {};
  }

  lemma RestsOn(w: Work, z: Id, st: State)
    requires Valid(w) && WellFormed(w, st) && st.granted < Total(w)
    requires z in st.remaining && st.remaining[z] == 0 && z !in Members(st.ready) + Members(st.active)
    ensures Key(w, st) != z
    ensures var st' := Grant(w, st);
      z in st'.remaining && st'.remaining[z] == 0 && z !in Members(st'.ready) + Members(st'.active)
  {
    hide Sum, Window, Total, Advance;
    var admitted := WindowOpens(w, st);
    var a := Window(w, st);
    NotAdmitted(w, st, a, admitted, z);
    StaysAway(w, st, a, z);
  }

  lemma StaysAway(w: Work, st: State, a: Admission, z: Id)
    requires Valid(w) && Shape(w, st) && a.admitted != [] && Members(a.admitted) <= Members(w.order)
    requires z in st.remaining && st.remaining[z] == 0 && z !in Members(a.admitted) && z !in Members(a.ready)
    ensures var st' := Advance(w, st, a);
      z in st'.remaining && st'.remaining[z] == 0 && z !in Members(st'.ready) + Members(st'.active)
  {
    hide Discarded;
    var key, rest := Head(w, a), a.admitted[1..];
    assert key in Members(a.admitted) && forall k :: k in rest ==> k in Members(a.admitted);
  }

  lemma NotAdmitted(w: Work, st: State, a: Admission, admitted: seq<Id>, z: Id)
    requires Opens(st, a, admitted) && a.admitted != [] && Members(a.admitted) <= Members(w.order)
    requires z !in Members(st.ready) + Members(st.active) && z in st.remaining && st.remaining[z] == 0
    requires st.ready == [] && st.active == [] ==>
      var key := Head(w, a); key in st.remaining && st.remaining[key] != 0
    ensures z !in Members(a.admitted) && z !in Members(a.ready) && Head(w, a) != z
  {
    if st.ready != [] || st.active != [] {
      assert forall k :: k in a.admitted ==> k in Members(admitted) || k in Members(st.active);
    } else {
      assert a.admitted == [Head(w, a)];
    }
    assert Head(w, a) in Members(a.admitted);
  }

  /** When everyone works, even with a step that asks for nothing, all prerequisites are respected. */
  lemma ZeroRespects(w: Work, z: Id)
    requires Valid(w) && AllWork(w) && z in w.order && w.hours[z] == 0
    ensures Respected(w, Grants(w, Total(w)))
  {
    hide KeyAt, Total, Grants;
    var s := Grants(w, Total(w));
    assert w.waits[z] == {} by {
      if w.waits[z] != {} {
        assert z in Members(w.order) && z in Members(s);
        var i :| 0 <= i < |s| && s[i] == z;
        BlockedZeroRests(w, z, i);
      }
    }
    forall k, p | k in w.order && p in w.waits[k]
      ensures p in w.order && Precedes(s, p, k)
    {
      assert k in Members(w.order) && k in Members(s);
      var j :| 0 <= j < |s| && s[j] == k;
      FreeZeroRespects(w, z, k, p, j);
      forall i, j | 0 <= i < |s| && 0 <= j < |s| && s[i] == p && s[j] == k
        ensures i < j
      {
        FreeZeroRespects(w, z, k, p, j);
      }
    }
  }

  /** Whenever everyone works, the hours handed out respect every prerequisite if and only if the graph is sound. */
  lemma RespectedIffSound(w: Work)
    requires Valid(w) && AllWork(w)
    ensures Respected(w, Grants(w, Total(w))) <==> !Broken(w)
  {
    hide Grants, Total, Respected, Broken;
    if Positive(w) {
      PositiveRespectsIffSound(w);
    } else {
      var z :| z in w.order && w.hours[z] < 1;
      ZeroRespects(w, z);
      if Broken(w) {
        BrokenIsSeen(w, Grants(w, Total(w)));
      }
    }
  }

  /** Steps that all ask for an hour all work. */
  lemma PositiveAllWork(w: Work)
    requires Valid(w) && Positive(w)
    ensures AllWork(w)
  {
    hide Grants, Total;
    var s := Grants(w, Total(w));
    forall k | k in Members(w.order)
      ensures k in Members(s)
    {
      ExactHours(w, k);
      assert multiset(s)[k] > 0;
    }
  }
}
