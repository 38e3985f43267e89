/**
  Fairness of the window: between two consecutive hours of one step, no other step works more than
  one hour.
 */
module RoundRobin {
  import opened Rotation
  import opened RotationLaws
  import opened Prerequisites

  predicate LastInLine(st: State, k: Id) {
    st.active != [] && st.active[|st.active| - 1] == k
  }

  predicate FirstOfTwo(st: State, k: Id) {
    |st.active| == 2 && st.active[0] == k
  }

  /** An unfinished step goes to the back of the window after its hour. */
  lemma BackOfTheLine(w: Work, st: State, a: Admission)
    requires Valid(w) && Shape(w, st)
    requires a.admitted != [] && Members(a.admitted) <= Members(w.order)
    requires st.remaining[Head(w, a)] != 1
    ensures LastInLine(Advance(w, st, a), Head(w, a))
  {
  }

  /** The step at the back works next, or one hour goes to another step, which retires or falls behind it. */
  lemma OneTurn(w: Work, st: State, a: Admission, admitted: seq<Id>, k: Id)
    requires Valid(w) && Shape(w, st) && |st.active| <= MAX_ACTIVE && k in w.order
    requires a.admitted != [] && Members(a.admitted) <= Members(w.order)
    requires Opens(st, a, admitted)
    ensures FirstOfTwo(st, k) ==> Head(w, a) == k
    ensures LastInLine(st, k) && Head(w, a) != k ==>
      var st' := Advance(w, st, a);
      if Done(st'.remaining, Head(w, a)) then LastInLine(st', k) else FirstOfTwo(st', k)
  {
    hide Opens, Advance, Valid, Shape, FirstOfTwo;
    if FirstOfTwo(st, k) {
      FirstIsNext(w, st, a, admitted, k);
    }
    if LastInLine(st, k) && Head(w, a) != k {
      LastIsNext(st, a, admitted, k);
      OthersTurn(w, st, a, k);
    }
  }

  lemma FirstIsNext(w: Work, st: State, a: Admission, admitted: seq<Id>, k: Id)
    requires a.admitted != [] && Members(a.admitted) <= Members(w.order)
    requires Opens(st, a, admitted) && FirstOfTwo(st, k)
    ensures Head(w, a) == k
  {
  }

  /** The last in line is the last of the window, which has at most two steps. */
  lemma LastIsNext(st: State, a: Admission, admitted: seq<Id>, k: Id)
    requires Opens(st, a, admitted) && LastInLine(st, k) && |st.active| <= MAX_ACTIVE
    ensures 1 <= |a.admitted| <= MAX_ACTIVE && a.admitted[|a.admitted| - 1] == k
  {
  }

  lemma OthersTurn(w: Work, st: State, a: Admission, k: Id)
    requires Valid(w) && Shape(w, st) && Members(a.admitted) <= Members(w.order)
    requires 1 <= |a.admitted| <= MAX_ACTIVE && a.admitted[|a.admitted| - 1] == k && Head(w, a) != k
    ensures var st' := Advance(w, st, a);
      if Done(st'.remaining, Head(w, a)) then LastInLine(st', k) else FirstOfTwo(st', k)
  {
    hide Discarded, Freed, ByPosition, NoDup;
    assert a.admitted == [Head(w, a), k] && a.admitted[1..] == [k];
  }

  /**
    Since the last hour of `k` the steps `s` have worked: none twice, and they are finished, except
    that one may now stand behind `k`.
   */
  ghost predicate Meanwhile(st: State, k: Id, s: seq<Id>) {
    NoDup(s) && (FirstOfTwo(st, k) || (LastInLine(st, k) && forall x <- Members(s) :: Done(st.remaining, x)))
  }

  lemma MeanwhileStep(w: Work, st: State, a: Admission, admitted: seq<Id>, k: Id, s: seq<Id>)
    requires Valid(w) && Shape(w, st) && |st.active| <= MAX_ACTIVE && k in w.order
    requires a.admitted != [] && Members(a.admitted) <= Members(w.order)
    requires Opens(st, a, admitted) && Meanwhile(st, k, s)
    requires Head(w, a) != k && st.remaining[Head(w, a)] > 0
    ensures Meanwhile(Advance(w, st, a), k, s + [Head(w, a)])
  {
    hide Opens, Valid, Discarded, Freed, ByPosition;
    OneTurn(w, st, a, admitted, k);
    var key := Head(w, a);
    assert key !in Members(s);
    assert Members(s + [key]) == Members(s) + {key};
  }

  lemma {:induction false} SinceLastTurn(w: Work, i: nat, m: nat)
    requires Valid(w) && Positive(w) && i < m <= Total(w)
    requires !Done(Run(w, i + 1).remaining, KeyAt(w, i))
    requires KeyAt(w, i) !in Grants(w, m)[i + 1..]
    ensures Meanwhile(Run(w, m), KeyAt(w, i), Grants(w, m)[i + 1..])
    decreases m
  {
    hide Run, KeyAt, Inv, WellFormed, Advance, Window, Meanwhile;
    if m == i + 1 {
      FirstTurn(w, i);
      assert Grants(w, m)[i + 1..] == [];
    } else {
      var s, key := Grants(w, m - 1)[i + 1..], KeyAt(w, m - 1);
      assert Grants(w, m)[i + 1..] == s + [key];
      assert key in Grants(w, m)[i + 1..] && key != KeyAt(w, i);
      SinceLastTurn(w, i, m - 1);
      NextTurn(w, m - 1, KeyAt(w, i), s);
    }
  }

  lemma FirstTurn(w: Work, i: nat)
    requires Valid(w) && Positive(w) && i < Total(w)
    requires !Done(Run(w, i + 1).remaining, KeyAt(w, i))
    ensures Meanwhile(Run(w, i + 1), KeyAt(w, i), [])
  {
    hide Run, KeyAt, Inv, WellFormed, Advance, Window;
    RunAdvances(w, i);
    RunShape(w, i);
    BackOfTheLine(w, Run(w, i), Window(w, Run(w, i)));
  }

  lemma NextTurn(w: Work, n: nat, k: Id, s: seq<Id>)
    requires Valid(w) && Positive(w) && n < Total(w) && k in w.order && k != KeyAt(w, n)
    requires Meanwhile(Run(w, n), k, s)
    ensures Meanwhile(Run(w, n + 1), k, s + [KeyAt(w, n)])
  {
    hide Run, KeyAt, Inv, WellFormed, Advance, Window, Meanwhile;
    RunAdvances(w, n);
    RunShape(w, n);
    var st := Run(w, n);
    var admitted := WindowOpens(w, st);
    MeanwhileStep(w, st, Window(w, st), admitted, k, s);
  }

  lemma RunShape(w: Work, n: nat)
    requires Valid(w) && Positive(w) && n <= Total(w)
    ensures Shape(w, Run(w, n)) && |Run(w, n).active| <= MAX_ACTIVE
  {
    hide Run;
    RunInv(w, n);
  }

  lemma RunAdvances(w: Work, n: nat)
    requires Valid(w) && Positive(w) && n < Total(w)
    ensures var st, a := Run(w, n), Window(w, Run(w, n));
      && Run(w, n + 1) == Advance(w, st, a) && KeyAt(w, n) == Head(w, a)
      && Run(w, n + 1).remaining == st.remaining[KeyAt(w, n) := st.remaining[KeyAt(w, n)] - 1]
      && st.remaining[KeyAt(w, n)] > 0
  {
    hide Inv, WellFormed, Advance, Window;
    RunInv(w, n);
    RunStep(w, n);
    HeadIsFree(w, Run(w, n));
  }

  lemma GrantsPrefix(w: Work, i: nat, j: nat)
    requires Valid(w) && i <= j <= Total(w)
    ensures Grants(w, j)[i..] == Grants(w, Total(w))[i..j]
  {
    hide Total, KeyAt;
  }

  /** Between two consecutive hours of one step, no other step gets more than one hour. */
  lemma BetweenTurns(w: Work, i: nat, j: nat)
    requires Valid(w) && Positive(w) && i < j < Total(w)
    requires KeyAt(w, i) == KeyAt(w, j) && KeyAt(w, i) !in Grants(w, Total(w))[i + 1..j]
    ensures NoDup(Grants(w, Total(w))[i + 1..j])
  {
    hide Run, KeyAt;
    if Done(Run(w, i + 1).remaining, KeyAt(w, i)) {
      DoneStays(w, i + 1, j, KeyAt(w, i));
      RunAdvances(w, j);
    }
    GrantsPrefix(w, i + 1, j);
    hide Grants;
    SinceLastTurn(w, i, j);
  }
}
