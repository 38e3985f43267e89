/**
  Which hours the planner works, as opposed to what it works on in them.

  `Scan` is the plain hour-by-hour scan. `Chosen` says without any running state which hours it
  takes: an open hour is taken exactly when fewer open hours precede it in its week than the week
  has room for. From that follow exact feasibility and optimality.
 */
module SlotScan {
  import opened Basics
  import opened WorkCalendar

  function UsedIn(used: map<int, int>, w: int): int {
    if w in used then used[w] else 0
  }

  function Room(g: Grid, used: map<int, int>, w: int): (r: nat)
    ensures UsedIn(used, w) + r == Max(g.weekly, UsedIn(used, w))
  {
    if UsedIn(used, w) < g.weekly then g.weekly - UsedIn(used, w) else 0
  }

  predicate Takes(g: Grid, used: map<int, int>, h: Hour) {
    Open(g, h) && UsedIn(used, WeekOf(g, h)) < g.weekly
  }

  function Charge(g: Grid, used: map<int, int>, h: Hour): map<int, int> {
    used[WeekOf(g, h) := UsedIn(used, WeekOf(g, h)) + 1]
  }

  /** The first `n` workable hours from `c` on, one hour at a time, as far as `limit` allows. */
  function Scan(g: Grid, used: map<int, int>, c: Hour, limit: Hour, n: nat): (s: seq<Hour>)
    ensures |s| <= n
    decreases limit - c
  {
    if n == 0 || c >= limit then []
    else if Takes(g, used, c) then [c] + Scan(g, Charge(g, used, c), c + 1, limit, n - 1)
    else Scan(g, used, c + 1, limit, n)
  }

  /** A jump over hours the scan would not take does not change what it takes. */
  lemma {:induction false} JumpRefinesScan(g: Grid, used: map<int, int>, c: Hour, dest: Hour, limit: Hour, n: nat)
    requires c <= dest
    requires forall h :: c <= h < dest ==> !Takes(g, used, h)
    ensures Scan(g, used, c, limit, n) == Scan(g, used, dest, limit, n)
    decreases dest - c
  {
    if c < dest && c < limit {
      JumpRefinesScan(g, used, c + 1, dest, limit, n);
    }
  }

  function OpenBefore(g: Grid, c: Hour, h: Hour): set<Hour> {
    set k: Hour | c <= k < h && Open(g, k) && WeekOf(g, k) == WeekOf(g, h)
  }

  /** The hours of `c .. t` that are worked when nothing else limits the plan. */
  function Chosen(g: Grid, used: map<int, int>, c: Hour, t: Hour): set<Hour> {
    set h: Hour | c <= h < t && ChosenAt(g, used, c, h)
  }

  lemma OpenBeforeStep(g: Grid, c: Hour, h: Hour)
    requires c < h
    ensures OpenBefore(g, c, h)
         == OpenBefore(g, c + 1, h) + (if Open(g, c) && WeekOf(g, c) == WeekOf(g, h) then {c} else {})
    ensures c !in OpenBefore(g, c + 1, h)
  {
  }

  predicate ChosenAt(g: Grid, used: map<int, int>, c: Hour, h: Hour) {
    Open(g, h) && |OpenBefore(g, c, h)| < Room(g, used, WeekOf(g, h))
  }

  function AfterHour(g: Grid, used: map<int, int>, c: Hour): map<int, int> {
    if Takes(g, used, c) then Charge(g, used, c) else used
  }

  lemma ChosenAtStep(g: Grid, used: map<int, int>, c: Hour, h: Hour)
    requires c < h
    ensures ChosenAt(g, used, c, h) <==> ChosenAt(g, AfterHour(g, used, c), c + 1, h)
  {
    OpenBeforeStep(g, c, h);
  }

  /** `Chosen` unfolds the way the scan walks: take the first hour and charge its week, or skip it. */
  lemma ChosenStep(g: Grid, used: map<int, int>, c: Hour, t: Hour)
    requires c < t
    ensures Chosen(g, used, c, t)
         == (if Takes(g, used, c) then {c} else {}) + Chosen(g, AfterHour(g, used, c), c + 1, t)
  {
    assert OpenBefore(g, c, c) == {};
    forall h | c < h < t
      ensures ChosenAt(g, used, c, h) <==> ChosenAt(g, AfterHour(g, used, c), c + 1, h)
    {
      ChosenAtStep(g, used, c, h);
    }
  }

  predicate Increasing(s: seq<Hour>) {
    forall i, j :: 0 <= i < j < |s| ==> s[i] < s[j]
  }

  function Elements(s: seq<Hour>): set<Hour> {
    set h | h in s
  }

  lemma ChosenGrows(g: Grid, used: map<int, int>, c: Hour, t: Hour, t': Hour)
    requires t <= t'
    ensures Chosen(g, used, c, t) <= Chosen(g, used, c, t')
  {
  }

  lemma {:induction false} ScanIncreases(g: Grid, used: map<int, int>, c: Hour, limit: Hour, n: nat)
    ensures var s := Scan(g, used, c, limit, n);
      Increasing(s) && forall i :: 0 <= i < |s| ==> c <= s[i] < limit
    decreases limit - c
  {
    if n > 0 && c < limit {
      ScanIncreases(g, AfterHour(g, used, c), c + 1, limit, if Takes(g, used, c) then n - 1 else n);
    }
  }

  /** When it finds fewer than `n` hours, the scan has found every chosen hour before the limit. */
  lemma {:induction false} ScanExhausts(g: Grid, used: map<int, int>, c: Hour, limit: Hour, n: nat)
    requires |Scan(g, used, c, limit, n)| < n
    ensures Elements(Scan(g, used, c, limit, n)) == Chosen(g, used, c, limit)
    decreases limit - c
  {
    if c < limit {
      ScanExhausts(g, AfterHour(g, used, c), c + 1, limit, if Takes(g, used, c) then n - 1 else n);
      ChosenStep(g, used, c, limit);
    }
  }

  /** The scan's first `i + 1` hours are the chosen hours up to its `i`-th one. */
  lemma {:induction false} ScanListsChosen(g: Grid, used: map<int, int>, c: Hour, limit: Hour, n: nat, i: nat)
    requires i < |Scan(g, used, c, limit, n)|
    ensures var s := Scan(g, used, c, limit, n);
      Elements(s[..i + 1]) == Chosen(g, used, c, s[i] + 1)
    decreases limit - c
  {
    hide Chosen, Elements;
    var s := Scan(g, used, c, limit, n);
    var used' := AfterHour(g, used, c);
    ScanIncreases(g, used, c, limit, n);
    ChosenStep(g, used, c, s[i] + 1);
    if !Takes(g, used, c) {
      ScanListsChosen(g, used', c + 1, limit, n, i);
    } else if i == 0 {
      NothingChosen(g, used', c + 1);
      ElementsCons(c, []);
      assert s[..1] == [c] + [];
    } else {
      ScanListsChosen(g, used', c + 1, limit, n - 1, i - 1);
      var rest := Scan(g, used', c + 1, limit, n - 1);
      ElementsCons(c, rest[..i]);
      assert s[..i + 1] == [c] + rest[..i];
    }
  }

  lemma NothingChosen(g: Grid, used: map<int, int>, c: Hour)
    ensures Chosen(g, used, c, c) == {} == Elements([])
  {
  }

  lemma ElementsCons(c: Hour, rest: seq<Hour>)
    ensures Elements([c] + rest) == {c} + Elements(rest)
  {
  }

  lemma {:induction false} ElementsSize(s: seq<Hour>)
    requires Increasing(s)
    ensures |Elements(s)| == |s|
  {
    if s != [] {
      var front := s[..|s| - 1];
      ElementsSize(front);
      assert Elements(s) == Elements(front) + {s[|s| - 1]};
    }
  }

  // ---- How many hours a week holds ----

  function OpenInWeek(g: Grid, c: Hour, t: Hour, w: int): set<Hour> {
    set h: Hour | c <= h < t && Open(g, h) && WeekOf(g, h) == w
  }

  function ChosenInWeek(g: Grid, used: map<int, int>, c: Hour, t: Hour, w: int): set<Hour> {
    set h <- Chosen(g, used, c, t) | WeekOf(g, h) == w
  }

  lemma WeekStep(g: Grid, used: map<int, int>, c: Hour, h: Hour, w: int)
    requires c <= h
    ensures OpenInWeek(g, c, h + 1, w)
         == OpenInWeek(g, c, h, w) + if Open(g, h) && WeekOf(g, h) == w then {h} else {}
    ensures ChosenInWeek(g, used, c, h + 1, w)
         == ChosenInWeek(g, used, c, h, w) + if ChosenAt(g, used, c, h) && WeekOf(g, h) == w then {h} else {}
  {
  }

  lemma {:induction false} WeekFill(g: Grid, used: map<int, int>, c: Hour, t: Hour, w: int)
    requires c <= t
    ensures |ChosenInWeek(g, used, c, t, w)| == Min(Room(g, used, w), |OpenInWeek(g, c, t, w)|)
    decreases t - c
  {
    if c < t {
      var h := t - 1;
      WeekFill(g, used, c, h, w);
      WeekStep(g, used, c, h, w);
      if WeekOf(g, h) == w {
        assert OpenBefore(g, c, h) == OpenInWeek(g, c, h, w);
      }
    }
  }

  /** Capped usable hours: week by week, the open hours, but no more than the week has room for. */
  function Capacity(g: Grid, used: map<int, int>, c: Hour, t: Hour, from: int, upto: int): nat
    decreases upto - from
  {
    if from >= upto then 0
    else Min(Room(g, used, from), |OpenInWeek(g, c, t, from)|) + Capacity(g, used, c, t, from + 1, upto)
  }

  function CapacityBetween(g: Grid, used: map<int, int>, c: Hour, t: Hour): nat {
    Capacity(g, used, c, t, WeekOf(g, c), WeekOf(g, t) + 1)
  }

  lemma {:induction false} CapacityCounts(g: Grid, used: map<int, int>, c: Hour, t: Hour, from: int, upto: int)
    requires c <= t
    ensures |set h <- Chosen(g, used, c, t) | from <= WeekOf(g, h) < upto| == Capacity(g, used, c, t, from, upto)
    decreases upto - from
  {
    hide Chosen, WeekOf, OpenInWeek, Room;
    var all := set h <- Chosen(g, used, c, t) | from <= WeekOf(g, h) < upto;
    if from >= upto {
      assert all == {};
    } else {
      CapacityCounts(g, used, c, t, from + 1, upto);
      WeekFill(g, used, c, t, from);
      var rest := set h <- Chosen(g, used, c, t) | from + 1 <= WeekOf(g, h) < upto;
      assert all == ChosenInWeek(g, used, c, t, from) + rest;
      assert ChosenInWeek(g, used, c, t, from) !! rest;
    }
  }

  lemma ChosenCapacity(g: Grid, used: map<int, int>, c: Hour, t: Hour)
    requires c <= t
    ensures |Chosen(g, used, c, t)| == CapacityBetween(g, used, c, t)
  {
    CapacityCounts(g, used, c, t, WeekOf(g, c), WeekOf(g, t) + 1);
    forall h | h in Chosen(g, used, c, t)
      ensures WeekOf(g, c) <= WeekOf(g, h) < WeekOf(g, t) + 1
    {
      WeekMonotone(g, c, h);
      WeekMonotone(g, h, t);
    }
    assert Chosen(g, used, c, t)
        == set h <- Chosen(g, used, c, t) | WeekOf(g, c) <= WeekOf(g, h) < WeekOf(g, t) + 1;
  }

  /** The scan finds `n` hours exactly when the capped usable hours before the limit reach `n`. */
  lemma ScanFeasible(g: Grid, used: map<int, int>, c: Hour, limit: Hour, n: nat)
    requires c <= limit
    ensures |Scan(g, used, c, limit, n)| == n <==> n <= CapacityBetween(g, used, c, limit)
  {
    var s := Scan(g, used, c, limit, n);
    ScanIncreases(g, used, c, limit, n);
    ElementsSize(s);
    ChosenCapacity(g, used, c, limit);
    if |s| < n {
      ScanExhausts(g, used, c, limit, n);
    } else if n > 0 {
      ScanListsChosen(g, used, c, limit, n, n - 1);
      assert s[..n - 1 + 1] == s;
      ChosenGrows(g, used, c, s[n - 1] + 1, limit);
      SubsetSize(Elements(s), Chosen(g, used, c, limit));
    }
  }

  lemma {:induction false} SubsetSize(a: set<Hour>, b: set<Hour>)
    requires a <= b
    ensures |a| <= |b|
  {
    assert b == a + (b - a);
  }

  // ---- Optimality ----

  /** A legal way to spend hours: open ones only, and no week beyond the room it has. */
  ghost predicate Legal(g: Grid, used: map<int, int>, hours: set<Hour>) {
    && (forall h <- hours :: Open(g, h))
    && (forall w: int :: |HoursOfWeek(g, hours, w)| <= Room(g, used, w))
  }

  function HoursOfWeek(g: Grid, hours: set<Hour>, w: int): set<Hour> {
    set h <- hours | WeekOf(g, h) == w
  }

  lemma {:induction false} LegalFitsCapacity(
      g: Grid, used: map<int, int>, hours: set<Hour>, c: Hour, t: Hour, from: int, upto: int)
    requires c <= t && Legal(g, used, hours)
    requires forall h <- hours :: c <= h < t
    ensures |set h <- hours | from <= WeekOf(g, h) < upto| <= Capacity(g, used, c, t, from, upto)
    decreases upto - from
  {
    hide WeekOf, Room, Open;
    var all := set h <- hours | from <= WeekOf(g, h) < upto;
    if from >= upto {
      assert all == {};
    } else {
      LegalFitsCapacity(g, used, hours, c, t, from + 1, upto);
      var rest := set h <- hours | from + 1 <= WeekOf(g, h) < upto;
      SubsetSize(HoursOfWeek(g, hours, from), OpenInWeek(g, c, t, from));
      assert all == HoursOfWeek(g, hours, from) + rest;
      assert HoursOfWeek(g, hours, from) !! rest;
    }
  }

  /** No legal choice fits more hours between `c` and `t` than the scan does. */
  lemma ChosenDominates(g: Grid, used: map<int, int>, hours: set<Hour>, c: Hour, t: Hour)
    requires c <= t && Legal(g, used, hours)
    requires forall h <- hours :: c <= h < t
    ensures |hours| <= |Chosen(g, used, c, t)|
  {
    LegalFitsCapacity(g, used, hours, c, t, WeekOf(g, c), WeekOf(g, t) + 1);
    ChosenCapacity(g, used, c, t);
    forall h | h in hours
      ensures WeekOf(g, c) <= WeekOf(g, h) < WeekOf(g, t) + 1
    {
      WeekMonotone(g, c, h);
      WeekMonotone(g, h, t);
    }
    assert hours == set h <- hours | WeekOf(g, c) <= WeekOf(g, h) < WeekOf(g, t) + 1;
  }

  /** The scan's own hours are legal. */
  lemma ScanIsLegal(g: Grid, used: map<int, int>, c: Hour, limit: Hour, n: nat)
    ensures Legal(g, used, Elements(Scan(g, used, c, limit, n)))
  {
    var s := Scan(g, used, c, limit, n);
    if s != [] {
      ScanIncreases(g, used, c, limit, n);
      ScanListsChosen(g, used, c, limit, n, |s| - 1);
      var t := s[|s| - 1] + 1;
      assert s[..|s| - 1 + 1] == s;
      assert Elements(s) == Chosen(g, used, c, t);
      forall w: int
        ensures |HoursOfWeek(g, Elements(s), w)| <= Room(g, used, w)
      {
        WeekFill(g, used, c, t, w);
        assert HoursOfWeek(g, Elements(s), w) == ChosenInWeek(g, used, c, t, w);
      }
    }
  }

  lemma LegalSubset(g: Grid, used: map<int, int>, hours: set<Hour>, fewer: set<Hour>)
    requires Legal(g, used, hours) && fewer <= hours
    ensures Legal(g, used, fewer)
  {
    forall w: int
      ensures |HoursOfWeek(g, fewer, w)| <= Room(g, used, w)
    {
      SubsetSize(HoursOfWeek(g, fewer, w), HoursOfWeek(g, hours, w));
    }
  }

  lemma ChosenBelow(g: Grid, used: map<int, int>, c: Hour, limit: Hour, n: nat, i: nat)
    requires i < |Scan(g, used, c, limit, n)|
    ensures |Chosen(g, used, c, Scan(g, used, c, limit, n)[i])| <= i
  {
    var s := Scan(g, used, c, limit, n);
    ScanIncreases(g, used, c, limit, n);
    ScanListsChosen(g, used, c, limit, n, i);
    ChosenGrows(g, used, c, s[i], s[i] + 1);
    assert Elements(s[..i + 1]) == Elements(s[..i]) + {s[i]};
    SubsetSize(Chosen(g, used, c, s[i]), Elements(s[..i]));
    ElementsSize(s[..i]);
  }

  /**
    The `i`-th hour of any legal assignment from the same start is never earlier than the scan's
    `i`-th; so no legal assignment of as many hours finishes earlier.
   */
  lemma ScanIsOptimal(g: Grid, used: map<int, int>, c: Hour, limit: Hour, n: nat, other: seq<Hour>, i: nat)
    requires Increasing(other) && Legal(g, used, Elements(other))
    requires forall k :: 0 <= k < |other| ==> c <= other[k]
    requires i < |other| && i < |Scan(g, used, c, limit, n)|
    ensures Scan(g, used, c, limit, n)[i] <= other[i]
  {
    var last := Scan(g, used, c, limit, n)[i];
    if other[i] < last {
      var early := other[..i + 1];
      ElementsSize(early);
      LegalSubset(g, used, Elements(other), Elements(early));
      ChosenDominates(g, used, Elements(early), c, last);
      ChosenBelow(g, used, c, limit, n, i);
      assert false;
    }
  }
}
