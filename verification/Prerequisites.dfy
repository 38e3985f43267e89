/**
  When the rotation keeps every step behind its prerequisites: exactly when the prerequisite graph
  of the steps to schedule is sound.
 */
module Prerequisites {
  import opened Rotation
  import opened RotationLaws

  // ---- Sound and broken graphs ----

  ghost predicate HasUnknown(w: Work)
    requires Valid(w)
  {
    exists k <- w.order, p <- w.waits[k] :: p !in w.order
  }

  ghost predicate IsCycle(w: Work, c: seq<Id>)
    requires Valid(w)
  {
    && c != [] && Members(c) <= Members(w.order)
    && IsChain(w, c)
    && WaitsFor(w, c[|c| - 1], c[0])
  }

  /** Each step waits for the next. */
  ghost predicate IsChain(w: Work, c: seq<Id>) {
    forall i, j :: 0 <= i < |c| && 0 <= j < |c| && j == i + 1 ==> WaitsFor(w, c[i], c[j])
  }

  predicate WaitsFor(w: Work, k: Id, p: Id) {
    k in w.waits && p in w.waits[k]
  }

  ghost predicate Broken(w: Work)
    requires Valid(w)
  {
    HasUnknown(w) || exists c :: IsCycle(w, c)
  }

  /** If every step `next` leads from waits for the step it leads to, some wait for each other in a ring. */
  lemma {:induction false} FindCycle(w: Work, next: map<Id, Id>, path: seq<Id>)
    requires Valid(w) && next.Keys <= Members(w.order)
    requires forall k {:trigger next[k]} :: k in next ==> next[k] in next && WaitsFor(w, k, next[k])
    requires path != [] && Members(path) <= next.Keys && IsChain(w, path)
    ensures exists c :: IsCycle(w, c)
    decreases next.Keys - Members(path)
  {
    hide Valid, IsCycle;
    var last := path[|path| - 1];
    assert last in Members(path);
    var target := next[last];
    if i :| 0 <= i < |path| && path[i] == target {
      CloseCycle(w, path, i);
    } else {
      var longer := path + [target];
      assert Members(longer) == Members(path) + {target};
      FindCycle(w, next, longer);
    }
  }

  lemma CloseCycle(w: Work, path: seq<Id>, i: nat)
    requires Valid(w) && i < |path| && Members(path) <= Members(w.order) && IsChain(w, path)
    requires WaitsFor(w, path[|path| - 1], path[i])
    ensures IsCycle(w, path[i..])
  {
    assert forall k :: k in path[i..] ==> k in Members(path);
  }

  // ---- Sound graphs are respected ----

  /** With nothing queued and nothing active, the unfinished steps wait for each other or for the unknown. */
  lemma StuckIsBroken(w: Work, st: State)
    requires Valid(w) && Inv(w, st) && st.ready == [] && st.active == []
    requires exists k <- w.order :: st.remaining[k] != 0
    ensures Broken(w)
  {
    if !HasUnknown(w) {
      var next := map k | k in w.order && !Done(st.remaining, k) :: Obstacle(w, st, k);
      var k :| k in w.order && st.remaining[k] != 0;
      FindCycle(w, next, [k]);
    }
  }

  ghost function Obstacle(w: Work, st: State, k: Id): (p: Id)
    requires Valid(w) && Inv(w, st) && st.ready == [] && st.active == []
    requires k in w.order && !Done(st.remaining, k)
    ensures WaitsFor(w, k, p) && !Done(st.remaining, p)
  {
    assert st.waiting[k] == Missing(w, st.remaining, k) != {};
    var p :| p in Missing(w, st.remaining, k);
    p
  }

  /** The step granted the next hour is unfinished; its first hour finds its prerequisites done, or it is forced. */
  lemma HeadIsFree(w: Work, st: State)
    requires Valid(w) && WellFormed(w, st) && Inv(w, st) && st.granted < Total(w)
    ensures st.remaining[Key(w, st)] > 0
    ensures !Started(w, st.remaining, Key(w, st)) && (st.ready != [] || st.active != []) ==>
              Missing(w, st.remaining, Key(w, st)) == {}
  {
    hide Window, WellFormed, Missing;
    WindowOpened(w, st);
    var key := Key(w, st);
    assert key in Members(Window(w, st).admitted);
    if st.ready != [] || st.active != [] {
      if st.ready != [] {
        var r := st.ready[0];
        assert r in Members(st.ready);
      } else {
        var r := st.active[0];
        assert r in Members(st.active);
      }
      assert key in Members(st.ready) || key in Members(st.active);
    }
  }

  /** A blocked step is forced only when nothing is ready or active. */
  lemma ForcedOnlyWhenIdle(w: Work, i: nat)
    requires Valid(w) && Positive(w) && i < Total(w)
    requires multiset(Grants(w, i))[KeyAt(w, i)] == 0
    requires exists p <- w.waits[KeyAt(w, i)] :: !Done(Run(w, i).remaining, p)
    ensures Run(w, i).ready == [] && Run(w, i).active == []
  {
    hide Run, Key, Grants, Inv, WellFormed, Sum;
    RunInv(w, i);
    HeadIsFree(w, Run(w, i));
    HoursConserved(w, i, KeyAt(w, i));
    var p :| p in w.waits[KeyAt(w, i)] && !Done(Run(w, i).remaining, p);
    assert p in Missing(w, Run(w, i).remaining, KeyAt(w, i));
  }

  lemma NeverIdle(w: Work, i: nat)
    requires Valid(w) && Positive(w) && i < Total(w) && !Broken(w)
    ensures Run(w, i).ready != [] || Run(w, i).active != []
  {
    hide Run, Broken;
    RunInv(w, i);
    if Run(w, i).ready == [] && Run(w, i).active == [] {
      SomeUnfinished(w, Run(w, i));
      StuckIsBroken(w, Run(w, i));
    }
  }

  lemma {:induction false} DoneStays(w: Work, m: nat, n: nat, p: Id)
    requires Valid(w) && Positive(w) && m <= n <= Total(w) && Done(Run(w, m).remaining, p)
    ensures Done(Run(w, n).remaining, p)
    decreases n
  {
    hide Run, Key, Inv, WellFormed;
    if m < n {
      DoneStays(w, m, n - 1, p);
      RunInv(w, n - 1);
      HeadIsFree(w, Run(w, n - 1));
      RunStep(w, n - 1);
    }
  }

  ghost predicate Precedes(s: seq<Id>, p: Id, k: Id) {
    forall i, j :: 0 <= i < |s| && 0 <= j < |s| && s[i] == p && s[j] == k ==> i < j
  }

  /** Every prerequisite is known and has worked its last hour before the step works its first. */
  ghost predicate Respected(w: Work, s: seq<Id>)
    requires Valid(w)
  {
    forall k, p :: k in w.order && p in w.waits[k] ==> p in w.order && Precedes(s, p, k)
  }

  lemma SoundIsRespected(w: Work, k: Id, p: Id, i: nat, j: nat)
    requires Valid(w) && Positive(w) && !Broken(w) && k in w.order && p in w.waits[k]
    requires i < Total(w) && j < Total(w) && KeyAt(w, i) == p && KeyAt(w, j) == k
    ensures i < j
  {
    hide Run, Key, Broken;
    var f := FirstGrant(w, k, j);
    HoursConserved(w, f, k);
    RunInv(w, f);
    HeadIsFree(w, Run(w, f));
    NeverIdle(w, f);
    assert p !in Missing(w, Run(w, f).remaining, k);
    if f <= i {
      DoneStays(w, f, i, p);
      RunInv(w, i);
      HeadIsFree(w, Run(w, i));
    }
  }

  lemma {:induction false} FirstGrant(w: Work, k: Id, j: nat) returns (f: nat)
    requires Valid(w) && j < Total(w) && KeyAt(w, j) == k
    ensures f <= j && KeyAt(w, f) == k && k !in Grants(w, f)
    ensures multiset(Grants(w, f))[k] == 0
    decreases j
  {
    hide KeyAt;
    var s := Grants(w, j);
    if i :| 0 <= i < j && s[i] == k {
      f := FirstGrant(w, k, i);
    } else {
      f := j;
    }
    assert k !in multiset(Grants(w, f));
  }

  // ---- Broken graphs are reported ----

  ghost function Turn(s: seq<Id>, k: Id): (i: nat)
    requires k in s
    ensures i < |s| && s[i] == k
  {
    var i :| 0 <= i < |s| && s[i] == k;
    i
  }

  lemma {:induction false} RingDescends(w: Work, s: seq<Id>, c: seq<Id>, i: nat)
    requires Valid(w) && IsCycle(w, c) && Respected(w, s) && i < |c|
    requires Members(c) <= Members(s)
    ensures c[0] in Members(s) && c[i] in Members(s)
    ensures Turn(s, c[i]) <= Turn(s, c[0])
  {
    assert c[0] in Members(c) && c[i] in Members(c);
    if i > 0 {
      assert c[i - 1] in Members(c);
      RingDescends(w, s, c, i - 1);
      assert WaitsFor(w, c[i - 1], c[i]);
      assert Precedes(s, c[i], c[i - 1]);
    }
  }

  lemma BrokenIsSeen(w: Work, s: seq<Id>)
    requires Valid(w) && Broken(w) && Members(w.order) <= Members(s)
    ensures !Respected(w, s)
  {
    if Respected(w, s) {
      assert !HasUnknown(w);
      var c :| IsCycle(w, c);
      var last := c[|c| - 1];
      assert last in Members(c) && c[0] in Members(c) && WaitsFor(w, last, c[0]);
      RingDescends(w, s, c, |c| - 1);
      assert false;
    }
  }

  /** The hours handed out respect every prerequisite if and only if the graph is sound. */
  lemma PositiveRespectsIffSound(w: Work)
    requires Valid(w) && Positive(w)
    ensures Respected(w, Grants(w, Total(w))) <==> !Broken(w)
  {
    hide Run, KeyAt;
    var s := Grants(w, Total(w));
    forall k | k in w.order
      ensures k in Members(s)
    {
      ExactHours(w, k);
      assert multiset(s)[k] > 0;
    }
    if Broken(w) {
      BrokenIsSeen(w, s);
    } else {
      forall k, p | k in w.order && p in w.waits[k]
        ensures p in w.order && Precedes(s, p, k)
      {
        forall i, j | 0 <= i < |s| && 0 <= j < |s| && s[i] == p && s[j] == k
          ensures i < j
        {
          SoundIsRespected(w, k, p, i, j);
        }
      }
    }
  }
}
