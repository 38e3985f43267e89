/**
  Who works the next hour. The queue is always in priority order; the window is filled with the first steps
  of the queue whose preferred start has come; and the hour goes to the step admitted first, else to the one
  whose turn it is.
 */
module Priority {
  import opened Rotation

  /** The step would rather start later. */
  predicate NotYet(w: Work, k: Id, granted: nat) {
    k in w.preferred && w.preferred[k] > granted
  }

  ghost predicate Ahead(queue: seq<Id>, x: Id, y: Id) {
    Position(queue, x) < Position(queue, y)
  }

  /** `a` divides the queue; what is left ahead of an admitted step is not due yet. */
  ghost predicate Fair(w: Work, granted: nat, running: nat, queue: seq<Id>, a: Admission) {
    && Members(a.ready) + Members(a.admitted) == Members(queue) && Members(a.ready) !! Members(a.admitted)
    && SortedByPosition(queue, a.ready) && SortedByPosition(queue, a.admitted)
    && (forall x, y :: x in a.ready && y in a.admitted && Ahead(queue, x, y) ==> NotYet(w, x, granted))
    && (forall y :: y in a.admitted && NotYet(w, y, granted) ==>
          running == 0 && a.admitted == [y] && queue != [] && y == queue[0] &&
          forall x :: x in queue ==> NotYet(w, x, granted))
  }

  /** Admission stopped because the window is full, the queue is empty, or nothing left is due while something runs. */
  ghost predicate Stopped(w: Work, granted: nat, running: nat, a: Admission) {
    running + |a.admitted| < 2 && a.ready != [] ==>
      running + |a.admitted| > 0 && forall x :: x in a.ready ==> NotYet(w, x, granted)
  }

  lemma SameStep(queue: seq<Id>, x: Id, y: Id)
    requires x in queue && y in queue && Position(queue, x) == Position(queue, y)
    ensures x == y
  {
  }

  /** The first step of a sorted rest that is the whole queue is the head of the queue. */
  lemma HeadOfQueue(queue: seq<Id>, ready: seq<Id>)
    requires ready != [] && SortedByPosition(queue, ready) && Members(ready) == Members(queue)
    ensures queue != [] && ready[0] == queue[0]
  {
    assert ready[0] in Members(queue);
    assert queue[0] in Members(queue) && queue[0] in Members(ready);
    var j :| 0 <= j < |ready| && ready[j] == queue[0];
    assert Position(queue, queue[0]) == 0;
  }

  lemma WithoutSorted(queue: seq<Id>, s: seq<Id>, i: nat)
    requires SortedByPosition(queue, s) && i < |s|
    ensures SortedByPosition(queue, Without(s, i))
  {
    var t := Without(s, i);
    assert forall j :: 0 <= j < |t| ==> t[j] == if j < i then s[j] else s[j + 1];
  }

  lemma SortedNoDup(queue: seq<Id>, s: seq<Id>)
    requires SortedByPosition(queue, s)
    ensures NoDup(s)
  {
    hide Position;
  }

  // ---- One admission ----

  /** Admitting the first due step. */
  lemma AdmitDue(w: Work, granted: nat, running: nat, queue: seq<Id>, a: Admission, i: nat)
    requires Fair(w, granted, running, queue, a) && i < |a.ready| && !NotYet(w, a.ready[i], granted)
    requires forall j :: 0 <= j < i ==> NotYet(w, a.ready[j], granted)
    ensures Fair(w, granted, running, queue, Admission(Without(a.ready, i), a.admitted + [a.ready[i]]))
  {
    var y := a.ready[i];
    var ready, admitted := Without(a.ready, i), a.admitted + [y];
    SortedNoDup(queue, a.ready);
    WithoutMembers(a.ready, i);
    WithoutSorted(queue, a.ready, i);
    MembersGrow(a.admitted, y);
    assert y in Members(a.ready) && y in Members(queue) && y in queue;
    forall z | z in a.admitted
      ensures Ahead(queue, z, y) && !NotYet(w, z, granted)
    {
      AdmittedBefore(w, granted, running, queue, a, z, y);
    }
    forall x | x in ready
      ensures x in a.ready && (Ahead(queue, x, y) ==> NotYet(w, x, granted))
    {
      assert x in Members(ready) && x in Members(a.ready);
      if Ahead(queue, x, y) {
        LeftAhead(w, granted, queue, a.ready, i, x);
      }
    }
    hide NotYet, Position, Without, Members;
    assert forall i, j :: 0 <= i < j < |admitted| ==> Ahead(queue, admitted[i], admitted[j]);
  }

  lemma AdmittedBefore(w: Work, granted: nat, running: nat, queue: seq<Id>, a: Admission, z: Id, y: Id)
    requires Fair(w, granted, running, queue, a) && z in a.admitted && y in a.ready && !NotYet(w, y, granted)
    ensures Ahead(queue, z, y) && !NotYet(w, z, granted)
  {
    hide NotYet, Position;
    assert z in Members(a.admitted) && z in Members(queue) && y in Members(a.ready) && y in Members(queue);
    if Position(queue, z) == Position(queue, y) {
      SameStep(queue, z, y);
    }
  }

  lemma LeftAhead(w: Work, granted: nat, queue: seq<Id>, ready: seq<Id>, i: nat, x: Id)
    requires SortedByPosition(queue, ready) && i < |ready| && x in ready && Ahead(queue, x, ready[i])
    requires forall j :: 0 <= j < i ==> NotYet(w, ready[j], granted)
    ensures NotYet(w, x, granted)
  {
    hide NotYet, Position;
    var j :| 0 <= j < |ready| && ready[j] == x;
  }

  /** Admitting the head of the queue, because nothing runs and nothing is due. */
  lemma AdmitEarly(w: Work, granted: nat, queue: seq<Id>, a: Admission)
    requires Fair(w, granted, 0, queue, a) && a.admitted == [] && a.ready != []
    requires forall j :: 0 <= j < |a.ready| ==> NotYet(w, a.ready[j], granted)
    ensures Fair(w, granted, 0, queue, Admission(Without(a.ready, 0), [a.ready[0]]))
  {
    hide NotYet, Position;
    assert Members([]) == {};
    HeadOfQueue(queue, a.ready);
    var y := a.ready[0];
    SortedNoDup(queue, a.ready);
    WithoutMembers(a.ready, 0);
    WithoutSorted(queue, a.ready, 0);
    assert Members([y]) == {y} && y in Members(a.ready);
    forall x | x in queue
      ensures NotYet(w, x, granted)
    {
      assert x in Members(queue) && x in Members(a.ready);
    }
    forall x | x in Without(a.ready, 0)
      ensures x in queue
    {
      assert x in Members(Without(a.ready, 0)) && x in Members(queue);
    }
  }

  lemma DueOrNot(w: Work, k: Id, granted: nat)
    ensures Due(w, k, granted) <==> !NotYet(w, k, granted)
  {
  }

  lemma {:induction false} AdmitFair(w: Work, granted: nat, running: nat, queue: seq<Id>, a: Admission)
    requires Fair(w, granted, running, queue, a)
    ensures var b := Admit(w, granted, running, a);
      Fair(w, granted, running, queue, b) && Stopped(w, granted, running, b)
    decreases |a.ready|
  {
    hide Fair, Due, NotYet, Without;
    if a.ready != [] && running + |a.admitted| < 2 {
      forall k { DueOrNot(w, k, granted); }
      var due := FirstDue(w, a.ready, granted);
      if due < |a.ready| {
        AdmitDue(w, granted, running, queue, a, due);
        AdmitFair(w, granted, running, queue, Admission(Without(a.ready, due), a.admitted + [a.ready[due]]));
      } else if running + |a.admitted| == 0 {
        AdmitEarly(w, granted, queue, a);
        assert a.admitted + [a.ready[0]] == [a.ready[0]];
        AdmitFair(w, granted, running, queue, Admission(Without(a.ready, 0), [a.ready[0]]));
      }
    }
  }

  /**
    One admission from a queue: it takes steps in the order of the queue, passes over those only whose preferred
    start has not come, takes such a step only when nothing runs and nobody is due, and leaves room only when
    nobody left is due.
   */
  lemma AdmissionFollowsQueue(w: Work, granted: nat, running: nat, queue: seq<Id>)
    requires NoDup(queue)
    ensures var b := Admit(w, granted, running, Admission(queue, []));
      Fair(w, granted, running, queue, b) && Stopped(w, granted, running, b)
      && (running <= 2 ==> running + |b.admitted| <= 2)
  {
    hide Admit;
    QueueIsSorted(queue);
    assert Members([]) == {};
    assert Fair(w, granted, running, queue, Admission(queue, []));
    AdmitFair(w, granted, running, queue, Admission(queue, []));
    AdmitMoves(w, granted, running, Admission(queue, []));
  }

  lemma QueueIsSorted(queue: seq<Id>)
    requires NoDup(queue)
    ensures SortedByPosition(queue, queue)
  {
    forall i | 0 <= i < |queue|
      ensures Position(queue, queue[i]) == i
    {
      assert queue[i] in queue;
    }
  }

  // ---- The queue ----

  lemma {:induction false} ByPositionSorted(order: seq<Id>, keep: set<Id>)
    requires NoDup(order)
    ensures SortedByPosition(order, ByPosition(order, keep))
  {
    if order != [] {
      var first, rest := order[0], order[1..];
      assert order == [first] + rest;
      ByPositionSorted(rest, keep);
      ByPositionCons(first, rest, keep);
      assert first !in rest;
      hide Position, SortedByPosition;
      SortedCons(first, rest, ByPosition(rest, keep));
    }
  }

  lemma SortedCons(first: Id, rest: seq<Id>, s: seq<Id>)
    requires SortedByPosition(rest, s) && first !in rest && forall k :: k in s ==> k in rest
    ensures SortedByPosition([first] + rest, s) && SortedByPosition([first] + rest, [first] + s)
  {
    hide Position;
    forall i | 0 <= i < |s|
      ensures Position([first] + rest, s[i]) == 1 + Position(rest, s[i])
           && Position([first] + rest, first) == 0
    {
      assert s[i] in s && s[i] in rest;
      PositionCons(first, rest, s[i]);
    }
  }

  lemma ByPositionCons(first: Id, rest: seq<Id>, keep: set<Id>)
    ensures ByPosition([first] + rest, keep) == (if first in keep then [first] else []) + ByPosition(rest, keep)
  {
    assert ([first] + rest)[1..] == rest;
  }

  lemma PositionCons(first: Id, rest: seq<Id>, k: Id)
    requires k != first
    ensures Position([first] + rest, k) == 1 + Position(rest, k) && Position([first] + rest, first) == 0
  {
    assert ([first] + rest)[1..] == rest;
  }

  lemma AheadInOrder(order: seq<Id>, queue: seq<Id>, x: Id, y: Id)
    requires SortedByPosition(order, queue) && x in queue && y in queue
    ensures Ahead(queue, x, y) <==> Ahead(order, x, y)
  {
    var i, j := Position(queue, x), Position(queue, y);
    assert queue[i] == x && queue[j] == y;
  }

  lemma SortedThrough(order: seq<Id>, queue: seq<Id>, s: seq<Id>)
    requires SortedByPosition(order, queue) && SortedByPosition(queue, s) && Members(s) <= Members(queue)
    ensures SortedByPosition(order, s)
  {
    hide Position;
    forall i, j | 0 <= i < j < |s|
      ensures Position(order, s[i]) < Position(order, s[j])
    {
      assert s[i] in Members(s) && s[j] in Members(s) && s[i] in queue && s[j] in queue;
      AheadInOrder(order, queue, s[i], s[j]);
    }
  }

  /** In every state of every run the queue is in priority order. */
  lemma {:induction false} QueueInOrder(w: Work, n: nat)
    requires Valid(w) && n <= Total(w)
    ensures SortedByPosition(w.order, Run(w, n).ready)
  {
    hide Total, SortedByPosition, Grant, ByPosition, WellFormed;
    if n == 0 {
      ByPositionSorted(w.order, set k | k in w.order && w.waits[k] == {});
    } else {
      QueueInOrder(w, n - 1);
      QueueStaysInOrder(w, Run(w, n - 1));
    }
  }

  lemma QueueStaysInOrder(w: Work, st: State)
    requires Valid(w) && WellFormed(w, st) && st.granted < Total(w) && SortedByPosition(w.order, st.ready)
    ensures SortedByPosition(w.order, Grant(w, st).ready)
  {
    hide Total, Sum, SortedByPosition, Fair, Stopped, Admit, ByPosition, Discarded, Freed, FirstUnfinished;
    AdmissionFollowsQueue(w, st.granted, |st.active|, st.ready);
    var b := Admit(w, st.granted, |st.active|, Admission(st.ready, []));
    FairRest(w, st.granted, |st.active|, st.ready, b);
    SortedThrough(w.order, st.ready, b.ready);
    assert Window(w, st).ready == b.ready;
    RetiredQueue(w, st, Window(w, st));
  }

  lemma FairRest(w: Work, granted: nat, running: nat, queue: seq<Id>, a: Admission)
    requires Fair(w, granted, running, queue, a)
    ensures SortedByPosition(queue, a.ready) && Members(a.ready) <= Members(queue)
  {
  }

  lemma RetiredQueue(w: Work, st: State, a: Admission)
    requires Valid(w) && Shape(w, st) && a.admitted != [] && Members(a.admitted) <= Members(w.order)
    requires SortedByPosition(w.order, a.ready)
    ensures SortedByPosition(w.order, Advance(w, st, a).ready)
  {
    hide SortedByPosition, Discarded, Freed, ByPosition;
    var key, rest := Head(w, a), a.admitted[1..];
    var remaining := st.remaining[key := st.remaining[key] - 1];
    if remaining[key] == 0 {
      var freed := Freed(w, remaining, Discarded(w, st.waiting, key), Members(a.ready) + Members(rest), key);
      ByPositionSorted(w.order, Members(a.ready) + freed);
    }
  }

  // ---- Whose hour it is ----

  ghost predicate SomeDue(w: Work, st: State) {
    exists x :: x in st.ready && !NotYet(w, x, st.granted)
  }

  /** The rule by which the packer chooses, in terms of the queue, the window and the wishes. */
  ghost predicate NextInTurn(w: Work, st: State, k: Id)
    requires Valid(w) && Shape(w, st)
  {
    if |st.active| < 2 && SomeDue(w, st) then
      k in st.ready && !NotYet(w, k, st.granted) &&
      forall x :: x in st.ready && Ahead(w.order, x, k) ==> NotYet(w, x, st.granted)
    else if st.active != [] then k == st.active[0]
    else if st.ready != [] then k in st.ready && forall x :: x in st.ready ==> !Ahead(w.order, x, k)
    else
      k in w.order && st.remaining[k] != 0 && forall x <- w.order :: Ahead(w.order, x, k) ==> st.remaining[x] == 0
  }

  /**
    Every hour of every run goes to the first ready step that is due, if the window has room for it; else to the
    step in front of the window; else, when nothing runs, to the first ready step; and when nothing is ready
    either, to the first unfinished step.
   */
  lemma WhoWorks(w: Work, n: nat)
    requires Valid(w) && n < Total(w)
    ensures NextInTurn(w, Run(w, n), KeyAt(w, n))
  {
    hide Total, Run, Sum, NextInTurn, Window, SortedByPosition;
    QueueInOrder(w, n);
    HeadIsChosen(w, Run(w, n));
  }

  lemma HeadIsChosen(w: Work, st: State)
    requires Valid(w) && WellFormed(w, st) && st.granted < Total(w) && SortedByPosition(w.order, st.ready)
    ensures NextInTurn(w, st, Key(w, st))
  {
    hide Total, Sum, SortedByPosition, Fair, Stopped, Admit, NotYet, Ahead;
    var granted, running, queue := st.granted, |st.active|, st.ready;
    AdmissionFollowsQueue(w, granted, running, queue);
    var b := Admit(w, granted, running, Admission(queue, []));
    if running >= 2 {
      FullWindow(w, granted, running, queue);
    } else if SomeDue(w, st) {
      FirstDueAdmitted(w, granted, running, queue, b);
      forall x | x in queue && Ahead(w.order, x, b.admitted[0])
        ensures NotYet(w, x, granted)
      {
        AheadInOrder(w.order, queue, x, b.admitted[0]);
      }
    } else if st.active != [] {
      NobodyAdmitted(w, granted, running, queue, b);
    } else if queue != [] {
      HeadAdmitted(w, granted, queue, b);
      forall x | x in queue
        ensures !Ahead(w.order, x, queue[0])
      {
        AheadInOrder(w.order, queue, x, queue[0]);
        NothingAheadOfHead(queue, x);
      }
    } else {
      NothingToAdmit(w, granted, running);
      ForcedIsFirst(w, st);
    }
  }

  lemma FullWindow(w: Work, granted: nat, running: nat, queue: seq<Id>)
    requires running >= 2
    ensures Admit(w, granted, running, Admission(queue, [])).admitted == []
  {
  }

  lemma NothingToAdmit(w: Work, granted: nat, running: nat)
    ensures Admit(w, granted, running, Admission([], [])).admitted == []
  {
  }

  lemma FirstDueAdmitted(w: Work, granted: nat, running: nat, queue: seq<Id>, b: Admission)
    requires Fair(w, granted, running, queue, b) && Stopped(w, granted, running, b) && running < 2
    requires exists x :: x in queue && !NotYet(w, x, granted)
    ensures b.admitted != [] && b.admitted[0] in queue && !NotYet(w, b.admitted[0], granted)
    ensures forall x :: x in queue && Ahead(queue, x, b.admitted[0]) ==> NotYet(w, x, granted)
  {
    hide NotYet, Position;
    var due :| due in queue && !NotYet(w, due, granted);
    assert due in Members(queue) && (due in b.ready || due in b.admitted);
    var k := b.admitted[0];
    assert k in b.admitted && k in Members(b.admitted) && k in Members(queue);
    forall x | x in queue && Ahead(queue, x, k)
      ensures NotYet(w, x, granted)
    {
      assert x in Members(queue);
      assert x in b.admitted ==> x == k || Ahead(queue, k, x);
    }
  }

  lemma NobodyAdmitted(w: Work, granted: nat, running: nat, queue: seq<Id>, b: Admission)
    requires Fair(w, granted, running, queue, b) && running > 0
    requires forall x :: x in queue ==> NotYet(w, x, granted)
    ensures b.admitted == []
  {
    hide NotYet, Position;
    if b.admitted != [] {
      AdmittedFromQueue(w, granted, running, queue, b);
    }
  }

  lemma AdmittedFromQueue(w: Work, granted: nat, running: nat, queue: seq<Id>, b: Admission)
    requires Fair(w, granted, running, queue, b) && b.admitted != []
    ensures b.admitted[0] in queue && (NotYet(w, b.admitted[0], granted) ==> running == 0)
  {
    hide NotYet, Position;
    var k := b.admitted[0];
    assert k in b.admitted && k in Members(b.admitted) && k in Members(queue);
  }

  lemma HeadAdmitted(w: Work, granted: nat, queue: seq<Id>, b: Admission)
    requires Fair(w, granted, 0, queue, b) && Stopped(w, granted, 0, b) && queue != []
    requires forall x :: x in queue ==> NotYet(w, x, granted)
    ensures b.admitted == [queue[0]]
  {
    hide NotYet, Position;
    var first := queue[0];
    assert first in queue && first in Members(queue) && (first in b.ready || first in b.admitted);
    var k := b.admitted[0];
    assert k in b.admitted && k in Members(b.admitted) && k in Members(queue) && k in queue;
  }

  lemma NothingAheadOfHead(queue: seq<Id>, x: Id)
    requires queue != []
    ensures !Ahead(queue, x, queue[0])
  {
  }

  lemma {:induction false} FirstUnfinishedIsFirst(order: seq<Id>, remaining: map<Id, int>, x: Id)
    requires Members(order) <= remaining.Keys && exists k <- order :: remaining[k] != 0
    requires x in order && Ahead(order, x, FirstUnfinished(order, remaining))
    ensures x in remaining && remaining[x] == 0
  {
    var first, rest := order[0], order[1..];
    assert order == [first] + rest;
    assert x in Members(order) && first in Members(order) && Members(rest) <= Members(order);
    if remaining[first] == 0 && x != first {
      assert FirstUnfinished(rest, remaining) in rest;
      FirstUnfinishedIsFirst(rest, remaining, x);
    }
  }

  lemma ForcedIsFirst(w: Work, st: State)
    requires Valid(w) && WellFormed(w, st) && st.granted < Total(w) && st.ready == [] && st.active == []
    ensures var k := Key(w, st);
      k in w.order && st.remaining[k] != 0 && forall x <- w.order :: Ahead(w.order, x, k) ==> st.remaining[x] == 0
  {
    hide Total, Sum, Ahead;
    NothingToAdmit(w, st.granted, 0);
    SomeUnfinished(w, st);
    hide Admit, FirstUnfinished;
    var k := Key(w, st);
    assert k == FirstUnfinished(w.order, st.remaining);
    forall x | x in w.order && Ahead(w.order, x, k)
      ensures x in st.remaining && st.remaining[x] == 0
    {
      FirstUnfinishedIsFirst(w.order, st.remaining, x);
    }
  }
}
