/**
  Who works the next hour.

  Whatever hours the calendar yields, the planner hands them out by a small state machine: a queue
  of ready steps in priority order, a rotating window of at most two active steps, and the
  prerequisites every waiting step still misses. One `Grant` is one hour.
 */
module Rotation {

  type Id = int

  const MAX_ACTIVE := 2

  /**
    The steps to schedule in priority order, the hours each asks for, the unfinished prerequisites
    each waits for (known or not), and the soft earliest start of some of them.
   */
  datatype Work = Work(order: seq<Id>, hours: map<Id, int>, waits: map<Id, set<Id>>, preferred: map<Id, int>)

  datatype State = State(
    remaining: map<Id, int>, waiting: map<Id, set<Id>>, ready: seq<Id>, active: seq<Id>, granted: nat)

  function Members(s: seq<Id>): set<Id> {
    set k | k in s
  }

  lemma MembersGrow(s: seq<Id>, k: Id)
    ensures Members(s + [k]) == Members(s) + {k}
    ensures k in Members(s) <==> k in s
  {
  }

  lemma MembersPrefix(s: seq<Id>, i: nat)
    requires i < |s|
    ensures s[i] in Members(s) && Members(s[..i + 1]) == Members(s[..i]) + {s[i]}
  {
    assert s[..i + 1] == s[..i] + [s[i]];
    MembersGrow(s[..i], s[i]);
  }

  predicate NoDup(s: seq<Id>) {
    forall i, j :: 0 <= i < j < |s| ==> s[i] != s[j]
  }

  predicate Valid(w: Work) {
    && NoDup(w.order)
    && w.hours.Keys == Members(w.order)
    && w.waits.Keys == Members(w.order)
    && forall k <- w.hours :: w.hours[k] >= 0
  }

  /** Every step asks for at least one hour. */
  predicate Positive(w: Work)
    requires Valid(w)
  {
    forall k <- w.order :: w.hours[k] >= 1
  }

  function Sum(order: seq<Id>, m: map<Id, int>): int
    requires Members(order) <= m.Keys
  {
    if order == [] then 0
    else
      assert order[0] in order && Members(order[1..]) <= m.Keys;
      m[order[0]] + Sum(order[1..], m)
  }

  function Total(w: Work): (n: nat)
    requires Valid(w)
  {
    SumNonNegative(w.order, w.hours);
    Sum(w.order, w.hours)
  }

  lemma {:induction false} SumNonNegative(order: seq<Id>, m: map<Id, int>)
    requires Members(order) <= m.Keys
    requires forall k <- order :: m[k] >= 0
    ensures Sum(order, m) >= 0
    ensures forall k <- order :: m[k] <= Sum(order, m)
  {
    if order != [] {
      var head := order[0];
      assert head in order && Members(order[1..]) <= m.Keys;
      SumNonNegative(order[1..], m);
      assert order == [head] + order[1..];
    }
  }

  lemma {:induction false} SumUpdate(order: seq<Id>, m: map<Id, int>, k: Id, v: int)
    requires NoDup(order) && Members(order) <= m.Keys
    ensures k in order ==> k in m && Sum(order, m[k := v]) == Sum(order, m) - m[k] + v
    ensures k !in order ==> Sum(order, m[k := v]) == Sum(order, m)
  {
    if order != [] {
      assert order[0] in order && Members(order[1..]) <= m.Keys;
      SumUpdate(order[1..], m, k, v);
      assert order == [order[0]] + order[1..];
    }
  }

  lemma {:induction false} SumOfZeros(order: seq<Id>, m: map<Id, int>)
    requires Members(order) <= m.Keys
    requires forall k <- order :: m[k] == 0
    ensures Sum(order, m) == 0
  {
    if order != [] {
      var head := order[0];
      assert head in order && Members(order[1..]) <= m.Keys;
      SumOfZeros(order[1..], m);
    }
  }

  // ---- The transition ----

  /** The members of `keep` in priority order: what sorting them by position gives. */
  function ByPosition(order: seq<Id>, keep: set<Id>): (s: seq<Id>)
    ensures forall k :: k in s <==> k in order && k in keep
    ensures NoDup(order) ==> NoDup(s)
  {
    if order == [] then []
    else
      var rest := ByPosition(order[1..], keep);
      assert order == [order[0]] + order[1..];
      if order[0] in keep then [order[0]] + rest else rest
  }

  lemma ByPositionMembers(order: seq<Id>, keep: set<Id>)
    ensures Members(ByPosition(order, keep)) == Members(order) * keep
  {
  }

  /** The position of a step in the order; the length of the order for other steps. */
  function Position(order: seq<Id>, k: Id): (i: nat)
    ensures i < |order| <==> k in order
    ensures k in order ==> order[i] == k && forall j :: 0 <= j < i ==> order[j] != k
  {
    if order == [] || order[0] == k then 0 else 1 + Position(order[1..], k)
  }

  ghost predicate SortedByPosition(order: seq<Id>, s: seq<Id>) {
    forall i, j :: 0 <= i < j < |s| ==> Position(order, s[i]) < Position(order, s[j])
  }

  /** Sorting steps by position has one result, `ByPosition`. */
  lemma {:induction false} SortIsByPosition(order: seq<Id>, s: seq<Id>)
    requires NoDup(order) && Members(s) <= Members(order) && SortedByPosition(order, s)
    ensures s == ByPosition(order, Members(s))
  {
    if order != [] {
      var first, rest := order[0], order[1..];
      assert order == [first] + rest;
      var starts := s != [] && s[0] == first;
      var tail := if starts then s[1..] else s;
      SortedTail(order, s, tail);
      SortIsByPosition(rest, tail);
      SameKeep(rest, Members(tail), Members(s));
      assert starts ==> s == [first] + tail;
    } else {
      NoMembers(s);
    }
  }

  lemma SortedTail(order: seq<Id>, s: seq<Id>, tail: seq<Id>)
    requires NoDup(order) && Members(s) <= Members(order) && SortedByPosition(order, s) && order != []
    requires tail == if s != [] && s[0] == order[0] then s[1..] else s
    ensures order[0] !in Members(tail) && Members(tail) <= Members(order[1..]) && SortedByPosition(order[1..], tail)
  {
    var first, rest := order[0], order[1..];
    assert order == [first] + rest;
    forall i | 0 <= i < |tail|
      ensures tail[i] != first && tail[i] in Members(rest)
    {
      assert tail[i] in Members(s);
    }
  }

  lemma NoMembers(s: seq<Id>)
    requires Members(s) <= {}
    ensures s == []
  {
    if s != [] {
      var k := s[0];
      MembersGrow(s, k);
    }
  }

  lemma {:induction false} SameKeep(order: seq<Id>, a: set<Id>, b: set<Id>)
    requires forall k :: k in order ==> (k in a <==> k in b)
    ensures ByPosition(order, a) == ByPosition(order, b)
  {
    if order != [] {
      SameKeep(order[1..], a, b);
      var first := order[0];
      assert first in order;
    }
  }

  lemma NoDupConcat(a: seq<Id>, b: seq<Id>)
    requires NoDup(a) && NoDup(b) && Members(a) !! Members(b)
    ensures NoDup(a + b) && Members(a + b) == Members(a) + Members(b)
  {
    forall i, j | 0 <= i < j < |a + b|
      ensures (a + b)[i] != (a + b)[j]
    {
      if i < |a| && j >= |a| {
        assert a[i] in Members(a) && b[j - |a|] in Members(b);
      }
    }
  }

  lemma {:induction false} SumConcat(a: seq<Id>, b: seq<Id>, m: map<Id, int>)
    requires Members(a) <= m.Keys && Members(b) <= m.Keys
    ensures Members(a + b) <= m.Keys && Sum(a + b, m) == Sum(a, m) + Sum(b, m)
  {
    if a == [] {
      assert a + b == b;
    } else {
      var first := a[0];
      assert first in a && Members(a[1..]) <= m.Keys;
      SumConcat(a[1..], b, m);
      assert (a + b)[0] == first && (a + b)[1..] == a[1..] + b;
      assert forall k :: k in a + b ==> k in Members(a) || k in Members(b);
    }
  }

  lemma SumWithout(s: seq<Id>, i: nat, m: map<Id, int>)
    requires Members(s) <= m.Keys && i < |s|
    ensures s[i] in m && Members(Without(s, i)) <= m.Keys && Sum(s, m) == m[s[i]] + Sum(Without(s, i), m)
  {
    var before, after := s[..i], s[i + 1..];
    assert s == before + ([s[i]] + after);
    assert s[i] in Members(s) && Members(before) <= Members(s) && Members(after) <= Members(s);
    assert Members([s[i]]) <= m.Keys && [s[i]][1..] == [];
    SumConcat([s[i]], after, m);
    SumConcat(before, [s[i]] + after, m);
    SumConcat(before, after, m);
    assert Sum([], m) == 0;
  }

  lemma {:induction false} SumAgrees(s: seq<Id>, m: map<Id, int>, m': map<Id, int>)
    requires Members(s) <= m.Keys && Members(s) <= m'.Keys && forall k <- Members(s) :: m[k] == m'[k]
    ensures Sum(s, m) == Sum(s, m')
  {
    if s != [] {
      var first := s[0];
      assert first in Members(s) && Members(s[1..]) <= Members(s);
      SumAgrees(s[1..], m, m');
    }
  }

  /** A sum over steps does not depend on their order. */
  lemma {:induction false} SumPermutes(a: seq<Id>, b: seq<Id>, m: map<Id, int>)
    requires NoDup(a) && NoDup(b) && Members(a) == Members(b) <= m.Keys
    ensures Sum(a, m) == Sum(b, m)
    decreases |a|
  {
    if a == [] {
      NoMembers(b);
    } else {
      var first, rest := a[0], a[1..];
      assert first in Members(a) && Without(a, 0) == rest;
      var i :| 0 <= i < |b| && b[i] == first;
      WithoutMembers(a, 0);
      WithoutMembers(b, i);
      SumWithout(a, 0, m);
      SumWithout(b, i, m);
      SumPermutes(rest, Without(b, i), m);
    }
  }

  function Initial(w: Work): State
    requires Valid(w)
  {
    State(w.hours, w.waits, ByPosition(w.order, set k | k in w.order && w.waits[k] == {}), [], 0)
  }

  predicate Due(w: Work, k: Id, granted: nat) {
    (if k in w.preferred then w.preferred[k] else 0) <= granted
  }

  /** Index of the first ready step whose preferred start has come, or `|ready|`. */
  function FirstDue(w: Work, ready: seq<Id>, granted: nat): (i: nat)
    ensures i <= |ready|
    ensures i < |ready| ==> Due(w, ready[i], granted)
    ensures forall j :: 0 <= j < i ==> !Due(w, ready[j], granted)
  {
    if ready == [] then 0
    else if Due(w, ready[0], granted) then 0
    else 1 + FirstDue(w, ready[1..], granted)
  }

  function Without(s: seq<Id>, i: nat): (r: seq<Id>)
    requires i < |s|
    ensures |r| == |s| - 1
  {
    s[..i] + s[i + 1..]
  }

  datatype Admission = Admission(ready: seq<Id>, admitted: seq<Id>)

  /** Fill the window from the ready queue; a step that is not due yet waits unless nothing runs. */
  function Admit(w: Work, granted: nat, running: nat, a: Admission): Admission
    decreases |a.ready|
  {
    if a.ready == [] || running + |a.admitted| >= MAX_ACTIVE then a
    else
      var due := FirstDue(w, a.ready, granted);
      if due == |a.ready| && running + |a.admitted| > 0 then a
      else
        var i := if due < |a.ready| then due else 0;
        Admit(w, granted, running, Admission(Without(a.ready, i), a.admitted + [a.ready[i]]))
  }

  function FirstUnfinished(order: seq<Id>, remaining: map<Id, int>): (k: Id)
    requires Members(order) <= remaining.Keys
    requires exists k <- order :: remaining[k] != 0
    ensures k in order && remaining[k] != 0
  {
    assert order[0] in order && Members(order[1..]) <= remaining.Keys;
    if remaining[order[0]] != 0 then order[0] else FirstUnfinished(order[1..], remaining)
  }

  predicate Shape(w: Work, st: State) {
    && st.remaining.Keys == Members(w.order)
    && st.waiting.Keys == Members(w.order)
    && Members(st.ready) <= Members(w.order)
    && Members(st.active) <= Members(w.order)
    && NoDup(st.ready)
  }

  /** What every state of a run satisfies, whatever hours are asked for. */
  predicate WellFormed(w: Work, st: State)
    requires Valid(w)
  {
    Shape(w, st) && Sum(w.order, st.remaining) == Total(w) - st.granted
  }

  /** The window after admission; never empty, because a blocked step is forced into it if need be. */
  function Window(w: Work, st: State): (a: Admission)
    requires Valid(w) && WellFormed(w, st) && st.granted < Total(w)
    ensures a.admitted != [] && Members(a.admitted) <= Members(w.order)
  {
    AdmitMoves(w, st.granted, |st.active|, Admission(st.ready, []));
    var a := Admit(w, st.granted, |st.active|, Admission(st.ready, []));
    var window := a.admitted + st.active;
    if window == [] then
      SomeUnfinished(w, st);
      var forced := FirstUnfinished(w.order, st.remaining);
      assert forall k :: k in [forced] ==> k in Members(w.order);
      Admission(a.ready, [forced])
    else Admission(a.ready, window)
  }

  lemma SomeUnfinished(w: Work, st: State)
    requires Valid(w) && WellFormed(w, st) && st.granted < Total(w)
    ensures exists k <- w.order :: st.remaining[k] != 0
  {
    if forall k <- w.order :: st.remaining[k] == 0 {
      SumOfZeros(w.order, st.remaining);
      assert false;
    }
  }

  function Head(w: Work, a: Admission): (k: Id)
    requires a.admitted != [] && Members(a.admitted) <= Members(w.order)
    ensures k in w.order && k in a.admitted
  {
    var k := a.admitted[0];
    assert k in Members(a.admitted);
    k
  }

  /** The waiting sets once `key` is finished. */
  function Discarded(w: Work, waiting: map<Id, set<Id>>, key: Id): (r: map<Id, set<Id>>)
    requires waiting.Keys <= w.waits.Keys
    ensures r.Keys == waiting.Keys
  {
    map k | k in waiting :: if key in w.waits[k] then waiting[k] - {key} else waiting[k]
  }

  /** The steps that finishing `key` sets free. */
  function Freed(w: Work, remaining: map<Id, int>, waiting: map<Id, set<Id>>, busy: set<Id>, key: Id): set<Id>
    requires waiting.Keys <= w.waits.Keys && waiting.Keys <= remaining.Keys
  {
    set k | k in waiting && key in w.waits[k] && waiting[k] == {} && remaining[k] != 0 && k !in busy
  }

  /** Give the head of the window one hour; then rotate it to the back, or retire it. */
  function Advance(w: Work, st: State, a: Admission): State
    requires Valid(w) && Shape(w, st)
    requires a.admitted != [] && Members(a.admitted) <= Members(w.order)
  {
    var key, rest := Head(w, a), a.admitted[1..];
    var remaining := st.remaining[key := st.remaining[key] - 1];
    if remaining[key] != 0 then
      State(remaining, st.waiting, a.ready, rest + [key], st.granted + 1)
    else
      var waiting := Discarded(w, st.waiting, key);
      var freed := Freed(w, remaining, waiting, Members(a.ready) + Members(rest), key);
      State(remaining, waiting, ByPosition(w.order, Members(a.ready) + freed), rest, st.granted + 1)
  }

  /** One hour. */
  function Grant(w: Work, st: State): State
    requires Valid(w) && WellFormed(w, st) && st.granted < Total(w)
  {
    Advance(w, st, Window(w, st))
  }

  function Key(w: Work, st: State): Id
    requires Valid(w) && WellFormed(w, st) && st.granted < Total(w)
  {
    Head(w, Window(w, st))
  }

  // ---- Admission ----

  lemma WithoutMembers(s: seq<Id>, i: nat)
    requires i < |s| && NoDup(s)
    ensures NoDup(Without(s, i))
    ensures Members(Without(s, i)) == Members(s) - {s[i]}
  {
    var t := Without(s, i);
    forall k | k in s && k != s[i]
      ensures k in t
    {
      var j :| 0 <= j < |s| && s[j] == k;
      assert if j < i then t[j] == k else t[j - 1] == k;
    }
    assert forall j :: 0 <= j < |t| ==> t[j] == if j < i then s[j] else s[j + 1];
  }

  lemma OneMoves(a: Admission, i: nat)
    requires NoDup(a.ready) && NoDup(a.admitted) && Members(a.ready) !! Members(a.admitted) && i < |a.ready|
    ensures var ready, admitted := Without(a.ready, i), a.admitted + [a.ready[i]];
      && NoDup(ready) && NoDup(admitted) && Members(ready) !! Members(admitted)
      && Members(ready) + Members(admitted) == Members(a.ready) + Members(a.admitted)
  {
    hide Without;
    WithoutMembers(a.ready, i);
    MembersGrow(a.admitted, a.ready[i]);
    assert a.ready[i] in Members(a.ready);
  }

  /** Admission moves steps from the queue into the window, and stops only for a reason. */
  lemma {:induction false} AdmitMoves(w: Work, granted: nat, running: nat, a: Admission)
    requires NoDup(a.ready) && NoDup(a.admitted) && Members(a.ready) !! Members(a.admitted)
    ensures var b := Admit(w, granted, running, a);
      && NoDup(b.ready) && NoDup(b.admitted) && Members(b.ready) !! Members(b.admitted)
      && Members(b.ready) + Members(b.admitted) == Members(a.ready) + Members(a.admitted)
      && a.admitted <= b.admitted
      && (running + |a.admitted| <= MAX_ACTIVE ==> running + |b.admitted| <= MAX_ACTIVE)
      && (running + |b.admitted| == 0 ==> b == a && a.ready == [])
    decreases |a.ready|
  {
    if a.ready == [] || running + |a.admitted| >= MAX_ACTIVE {
    } else {
      var due := FirstDue(w, a.ready, granted);
      if due < |a.ready| || running + |a.admitted| == 0 {
        var i := if due < |a.ready| then due else 0;
        OneMoves(a, i);
        hide Without, FirstDue;
        AdmitMoves(w, granted, running, Admission(Without(a.ready, i), a.admitted + [a.ready[i]]));
      }
    }
  }

  /** The window holds what was active behind what was admitted, or one forced step. */
  ghost predicate Opens(st: State, a: Admission, admitted: seq<Id>) {
    && NoDup(a.ready)
    && Members(a.ready) <= Members(st.ready)
    && (st.ready == [] && st.active == [] ==> a.ready == [] && |a.admitted| == 1)
    && (st.ready != [] || st.active != [] ==>
          && a.admitted == admitted + st.active
          && NoDup(admitted) && Members(admitted) !! Members(a.ready)
          && Members(admitted) + Members(a.ready) == Members(st.ready)
          && (|st.active| <= MAX_ACTIVE ==> |a.admitted| <= MAX_ACTIVE))
  }

  lemma WindowOpens(w: Work, st: State) returns (admitted: seq<Id>)
    requires Valid(w) && WellFormed(w, st) && st.granted < Total(w)
    ensures Opens(st, Window(w, st), admitted)
    ensures st.ready == [] && st.active == [] ==> st.remaining[Key(w, st)] != 0
  {
    AdmitMoves(w, st.granted, |st.active|, Admission(st.ready, []));
    admitted := Admit(w, st.granted, |st.active|, Admission(st.ready, [])).admitted;
  }

  lemma AdvanceShape(w: Work, st: State, a: Admission)
    requires Valid(w) && Shape(w, st)
    requires a.admitted != [] && Members(a.admitted) <= Members(w.order)
    requires NoDup(a.ready) && Members(a.ready) <= Members(w.order)
    ensures var st', key := Advance(w, st, a), Head(w, a);
      Shape(w, st') && st'.granted == st.granted + 1 && st'.remaining == st.remaining[key := st.remaining[key] - 1]
  {
    var st' := Advance(w, st, a);
    assert forall k :: k in a.admitted[1..] ==> k in Members(a.admitted);
    assert Members(st'.active) <= Members(w.order);
    assert Members(st'.ready) <= Members(w.order);
  }

  lemma GrantWellFormed(w: Work, st: State)
    requires Valid(w) && WellFormed(w, st) && st.granted < Total(w)
    ensures WellFormed(w, Grant(w, st)) && Grant(w, st).granted == st.granted + 1
    ensures Grant(w, st).remaining == st.remaining[Key(w, st) := st.remaining[Key(w, st)] - 1]
  {
    var _ := WindowOpens(w, st);
    AdvanceShape(w, st, Window(w, st));
    SumUpdate(w.order, st.remaining, Key(w, st), st.remaining[Key(w, st)] - 1);
  }

  // ---- Runs ----

  /** The state after `n` granted hours. */
  function Run(w: Work, n: nat): (st: State)
    requires Valid(w) && n <= Total(w)
    ensures WellFormed(w, st) && st.granted == n
  {
    if n == 0 then Initial(w)
    else
      GrantWellFormed(w, Run(w, n - 1));
      Grant(w, Run(w, n - 1))
  }

  function KeyAt(w: Work, i: nat): (k: Id)
    requires Valid(w) && i < Total(w)
    ensures k in w.order
  {
    Key(w, Run(w, i))
  }

  /** The step that works each of the first `n` hours. */
  function Grants(w: Work, n: nat): (s: seq<Id>)
    requires Valid(w) && n <= Total(w)
    ensures |s| == n
    ensures forall i :: 0 <= i < n ==> s[i] == KeyAt(w, i)
    ensures Members(s) <= Members(w.order)
  {
    seq(n, i requires 0 <= i < n => KeyAt(w, i))
  }
}
