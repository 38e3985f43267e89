/**
  Insertion-ordered dictionaries as lists of items with an identifier.
 */
module KeyedList {

  datatype Item<+T> = Item(id: string, body: T)

  function Ids<T(==)>(s: seq<Item<T>>): set<string> {
    set x | x in s :: x.id
  }

  /** No identifier occurs twice. */
  predicate Unique<T>(s: seq<Item<T>>) {
    forall i, j :: 0 <= i < j < |s| ==> s[i].id != s[j].id
  }

  function Without<T>(s: seq<Item<T>>, id: string): seq<Item<T>> {
    if s == [] then []
    else if s[0].id == id then Without(s[1..], id)
    else [s[0]] + Without(s[1..], id)
  }

  /** Drop the entry of the same identifier, if any, and enter the item at the end. */
  function Reenter<T>(s: seq<Item<T>>, x: Item<T>): seq<Item<T>> {
    Without(s, x.id) + [x]
  }

  function ReenterAll<T>(s: seq<Item<T>>): seq<Item<T>> {
    if s == [] then [] else Reenter(ReenterAll(s[..|s| - 1]), s[|s| - 1])
  }

  /** The items whose identifier does not occur again later, in their order. */
  function Latest<T(==)>(s: seq<Item<T>>): seq<Item<T>> {
    if s == [] then []
    else if s[0].id in Ids(s[1..]) then Latest(s[1..])
    else [s[0]] + Latest(s[1..])
  }

  function Filter<T>(s: seq<Item<T>>, p: Item<T> -> bool): seq<Item<T>> {
    if s == [] then [] else (if p(s[0]) then [s[0]] else []) + Filter(s[1..], p)
  }

  function Take<T>(s: seq<Item<T>>, n: nat): (r: seq<Item<T>>)
    ensures |r| <= n
  {
    if |s| <= n then s else s[..n]
  }

  /** The last `n` items; none when `n` is zero. */
  function TakeLast<T>(s: seq<Item<T>>, n: nat): (r: seq<Item<T>>)
    ensures |r| <= n
  {
    if |s| <= n then s else s[|s| - n..]
  }

  function HasId<T>(ids: set<string>): Item<T> -> bool {
    (x: Item<T>) => x.id in ids
  }

  function LacksId<T>(ids: set<string>): Item<T> -> bool {
    (x: Item<T>) => x.id !in ids
  }

  // ---- Identifiers ----

  lemma IdsConcat<T>(a: seq<Item<T>>, b: seq<Item<T>>)
    ensures Ids(a + b) == Ids(a) + Ids(b)
  {
  }

  lemma IdsOf<T>(s: seq<Item<T>>, i: nat)
    requires i < |s|
    ensures s[i] in s && s[i].id in Ids(s)
  {
  }

  lemma UniqueConcat<T>(a: seq<Item<T>>, b: seq<Item<T>>)
    requires Unique(a) && Unique(b) && Ids(a) !! Ids(b)
    ensures Unique(a + b)
  {
    forall i, j | 0 <= i < j < |a + b|
      ensures (a + b)[i].id != (a + b)[j].id
    {
      if i < |a| && j >= |a| {
        IdsOf(a, i);
        IdsOf(b, j - |a|);
      }
    }
  }

  lemma UniqueItem<T>(s: seq<Item<T>>, x: Item<T>, y: Item<T>)
    requires Unique(s) && x in s && y in s && x.id == y.id
    ensures x == y
  {
    var i :| 0 <= i < |s| && s[i] == x;
    var j :| 0 <= j < |s| && s[j] == y;
  }

  // ---- Keeping the latest ----

  lemma {:induction false} LatestUnique<T>(s: seq<Item<T>>)
    ensures Unique(Latest(s)) && Ids(Latest(s)) == Ids(s)
    ensures forall x <- Latest(s) :: x in s
  {
    if s != [] {
      LatestUnique(s[1..]);
      assert s == [s[0]] + s[1..];
      IdsConcat([s[0]], s[1..]);
      if s[0].id !in Ids(s[1..]) {
        IdsConcat([s[0]], Latest(s[1..]));
        UniqueConcat([s[0]], Latest(s[1..]));
      }
    }
  }

  /** An item is among the latest exactly when it occurs and no later item has its identifier. */
  lemma {:induction false} LatestMeaning<T>(s: seq<Item<T>>, x: Item<T>)
    ensures x in Latest(s) <==> exists i :: 0 <= i < |s| && s[i] == x && x.id !in Ids(s[i + 1..])
  {
    if s != [] {
      LatestMeaning(s[1..], x);
      if i :| 0 <= i < |s[1..]| && s[1..][i] == x && x.id !in Ids(s[1..][i + 1..]) {
        assert s[i + 1] == x && s[i + 2..] == s[1..][i + 1..];
      }
      if i :| 0 <= i < |s| && s[i] == x && x.id !in Ids(s[i + 1..]) {
        if i > 0 {
          assert s[1..][i - 1] == x && s[1..][i - 1 + 1..] == s[i + 1..];
        }
      }
    }
  }

  lemma {:induction false} LatestFixed<T>(s: seq<Item<T>>)
    requires Unique(s)
    ensures Latest(s) == s
  {
    if s != [] {
      LatestFixed(s[1..]);
      assert forall x <- s[1..] :: x.id != s[0].id;
    }
  }

  lemma {:induction false} WithoutNothing<T>(s: seq<Item<T>>, id: string)
    requires id !in Ids(s)
    ensures Without(s, id) == s
  {
    if s != [] {
      assert s == [s[0]] + s[1..];
      IdsConcat([s[0]], s[1..]);
      WithoutNothing(s[1..], id);
    }
  }

  lemma WithoutCons<T>(first: Item<T>, rest: seq<Item<T>>, id: string)
    ensures Without([first] + rest, id) == if first.id == id then Without(rest, id) else [first] + Without(rest, id)
  {
    assert ([first] + rest)[1..] == rest;
  }

  lemma LatestCons<T>(first: Item<T>, rest: seq<Item<T>>)
    ensures Latest([first] + rest) == if first.id in Ids(rest) then Latest(rest) else [first] + Latest(rest)
  {
    assert ([first] + rest)[1..] == rest;
  }

  lemma LatestOfOne<T>(x: Item<T>)
    ensures Latest([x]) == Without(Latest([]), x.id) + [x]
  {
    assert [x][1..] == [];
  }

  lemma {:induction false} LatestAppend<T>(s: seq<Item<T>>, x: Item<T>)
    ensures Latest(s + [x]) == Without(Latest(s), x.id) + [x]
  {
    hide Latest, Without, Ids;
    if s == [] {
      assert s + [x] == [x];
      LatestOfOne(x);
    } else {
      var first, rest := s[0], s[1..];
      LatestAppend(rest, x);
      assert s == [first] + rest && s + [x] == [first] + (rest + [x]);
      LatestCons(first, rest);
      LatestCons(first, rest + [x]);
      AppendedId(rest, x);
      if first.id !in Ids(rest) {
        WithoutCons(first, Latest(rest), x.id);
        assert [first] + (Without(Latest(rest), x.id) + [x]) == ([first] + Without(Latest(rest), x.id)) + [x];
      }
    }
  }

  lemma AppendedId<T>(s: seq<Item<T>>, x: Item<T>)
    ensures Ids(s + [x]) == Ids(s) + {x.id}
  {
    assert Ids([x]) == {x.id} by { assert [x][0] == x; }
    IdsConcat(s, [x]);
  }

  /** Popping and reinserting item after item leaves exactly the latest items, in their order. */
  lemma {:induction false} ReenterAllIsLatest<T>(s: seq<Item<T>>)
    ensures ReenterAll(s) == Latest(s)
  {
    if s != [] {
      var n := |s| - 1;
      ReenterAllIsLatest(s[..n]);
      LatestAppend(s[..n], s[n]);
      assert s == s[..n] + [s[n]];
    }
  }

  // ---- Filters and slices ----

  lemma {:induction false} FilterMembers<T>(s: seq<Item<T>>, p: Item<T> -> bool)
    ensures forall x <- Filter(s, p) :: x in s && p(x)
    ensures forall x <- s :: p(x) ==> x in Filter(s, p)
    ensures |Filter(s, p)| <= |s|
  {
    if s != [] {
      FilterMembers(s[1..], p);
      assert s == [s[0]] + s[1..];
    }
  }

  lemma {:induction false} FilterUnique<T>(s: seq<Item<T>>, p: Item<T> -> bool)
    requires Unique(s)
    ensures Unique(Filter(s, p))
  {
    if s != [] {
      FilterUnique(s[1..], p);
      FilterMembers(s[1..], p);
      if p(s[0]) {
        forall x | x in Filter(s[1..], p)
          ensures x.id != s[0].id
        {
          var i :| 0 <= i < |s[1..]| && s[1..][i] == x;
          assert s[i + 1] == x;
        }
        assert Ids([s[0]]) == {s[0].id};
        UniqueConcat([s[0]], Filter(s[1..], p));
      }
    }
  }

  lemma {:induction false} FilterConcat<T>(a: seq<Item<T>>, b: seq<Item<T>>, p: Item<T> -> bool)
    ensures Filter(a + b, p) == Filter(a, p) + Filter(b, p)
  {
    if a == [] {
      assert a + b == b;
    } else {
      var rest, first := a[1..], if p(a[0]) then [a[0]] else [];
      FilterConcat(rest, b, p);
      assert (a + b)[0] == a[0] && (a + b)[1..] == rest + b;
      assert Filter(a + b, p) == first + (Filter(rest, p) + Filter(b, p));
      hide Filter;
      assert first + (Filter(rest, p) + Filter(b, p)) == (first + Filter(rest, p)) + Filter(b, p);
    }
  }

  lemma FilterAppend<T>(s: seq<Item<T>>, x: Item<T>, p: Item<T> -> bool)
    ensures Filter(s + [x], p) == if p(x) then Filter(s, p) + [x] else Filter(s, p)
  {
    FilterConcat(s, [x], p);
  }

  lemma {:induction false} FilterAll<T>(s: seq<Item<T>>, p: Item<T> -> bool)
    requires forall x <- s :: p(x)
    ensures Filter(s, p) == s
  {
    if s != [] {
      assert s[0] in s;
      assert s == [s[0]] + s[1..];
      FilterAll(s[1..], p);
    }
  }

  lemma {:induction false} FilterNone<T>(s: seq<Item<T>>, p: Item<T> -> bool)
    requires forall x <- s :: !p(x)
    ensures Filter(s, p) == []
  {
    if s != [] {
      assert s[0] in s;
      assert s == [s[0]] + s[1..];
      FilterNone(s[1..], p);
    }
  }

  lemma FilterMiddle<T>(a: seq<Item<T>>, b: seq<Item<T>>, c: seq<Item<T>>, p: Item<T> -> bool)
    requires (forall x <- a :: !p(x)) && forall x <- b :: p(x)
    ensures Filter(a + b + c, p) == b + Filter(c, p)
  {
    FilterConcat(a + b, c, p);
    FilterConcat(a, b, p);
    FilterNone(a, p);
    FilterAll(b, p);
    assert [] + b == b;
  }

  lemma TakeParts<T>(s: seq<Item<T>>, n: nat)
    ensures |Take(s, n)| <= n && |TakeLast(s, n)| <= n
    ensures forall x <- Take(s, n) :: x in s
    ensures forall x <- TakeLast(s, n) :: x in s
    ensures Unique(s) ==> Unique(Take(s, n)) && Unique(TakeLast(s, n))
  {
  }

  // ---- Selecting a bounded part ----

  /** `first`, then the last of the remaining items of `s`, `n` items in all at most. */
  function Select<T(==)>(s: seq<Item<T>>, first: seq<Item<T>>, n: nat): (r: seq<Item<T>>)
    requires |first| <= n
    ensures |r| <= n
  {
    first + TakeLast(Filter(s, LacksId(Ids(first))), n - |first|)
  }

  ghost predicate PartOf<T>(a: seq<Item<T>>, s: seq<Item<T>>) {
    Unique(a) && forall x <- a :: x in s
  }

  lemma {:induction false} IdsSize<T>(s: seq<Item<T>>)
    requires Unique(s)
    ensures |Ids(s)| == |s|
  {
    if s != [] {
      var n := |s| - 1;
      IdsSize(s[..n]);
      assert s == s[..n] + [s[n]];
      IdsConcat(s[..n], [s[n]]);
      assert Ids([s[n]]) == {s[n].id};
      assert s[n].id !in Ids(s[..n]);
    }
  }

  lemma RemainderSize<T>(s: seq<Item<T>>, first: seq<Item<T>>)
    requires Unique(s) && PartOf(first, s)
    ensures |Filter(s, LacksId(Ids(first)))| + |first| == |s|
  {
    var rest := Filter(s, LacksId(Ids(first)));
    FilterMembers(s, LacksId(Ids(first)));
    FilterUnique(s, LacksId(Ids(first)));
    IdsSize(s);
    IdsSize(first);
    IdsSize(rest);
    assert Ids(s) == Ids(rest) + Ids(first);
    assert Ids(rest) !! Ids(first);
  }

  lemma SelectPart<T>(s: seq<Item<T>>, first: seq<Item<T>>, n: nat)
    requires Unique(s) && PartOf(first, s) && |first| <= n
    ensures PartOf(Select(s, first, n), s)
    ensures |s| <= n ==> forall x <- s :: x in Select(s, first, n)
  {
    var p := LacksId(Ids(first));
    var rest := Filter(s, p);
    FilterMembers(s, p);
    FilterUnique(s, p);
    TakeParts(rest, n - |first|);
    assert Ids(first) !! Ids(TakeLast(rest, n - |first|));
    UniqueConcat(first, TakeLast(rest, n - |first|));
    if |s| <= n {
      RemainderSize(s, first);
      forall x | x in s
        ensures x in Select(s, first, n)
      {
        if x.id in Ids(first) {
          var y :| y in first && y.id == x.id;
          UniqueItem(s, x, y);
        }
      }
    }
  }

  /** Selecting from what was selected, with the same first items, changes nothing. */
  lemma SelectAgain<T>(s: seq<Item<T>>, first: seq<Item<T>>, n: nat)
    requires |first| <= n
    ensures Select(Select(s, first, n), first, n) == Select(s, first, n)
  {
    var p := LacksId(Ids(first));
    var rest := TakeLast(Filter(s, p), n - |first|);
    FilterMembers(s, p);
    TakeParts(Filter(s, p), n - |first|);
    FilterConcat(first, rest, p);
    FilterNone(first, p);
    FilterAll(rest, p);
    hide Filter, LacksId;
    var r := Select(s, first, n);
    assert r == first + rest;
    assert Filter(r, p) == rest;
    assert TakeLast(rest, n - |first|) == rest;
  }

  // ---- Batches ----

  /** What remains of a concatenation: all that remains of its end, and of its beginning what the end does not have. */
  lemma {:induction false} LatestConcat<T>(a: seq<Item<T>>, b: seq<Item<T>>, x: Item<T>)
    ensures x in Latest(a + b) <==> x in Latest(b) || (x in Latest(a) && x.id !in Ids(b))
  {
    if a == [] {
      assert a + b == b;
    } else {
      var rest := a[1..];
      assert (a + b)[0] == a[0] && (a + b)[1..] == rest + b;
      LatestConcat(rest, b, x);
      IdsConcat(rest, b);
      LatestUnique(rest);
    }
  }

  /** `x` is in some batch, last of its identifier there, and no later batch has its identifier. */
  ghost predicate LastIn<T>(batches: seq<seq<Item<T>>>, x: Item<T>) {
    exists k :: 0 <= k < |batches| && LastAt(batches, x, k)
  }

  ghost predicate LastAt<T>(batches: seq<seq<Item<T>>>, x: Item<T>, k: nat)
    requires k < |batches|
  {
    x in Latest(batches[k]) && forall j :: k < j < |batches| ==> x.id !in Ids(batches[j])
  }

  lemma LastInNext<T>(batches: seq<seq<Item<T>>>, b: seq<Item<T>>, x: Item<T>)
    ensures LastIn(batches + [b], x) <==> x in Latest(b) || (LastIn(batches, x) && x.id !in Ids(b))
  {
    hide Latest, Ids;
    var all := batches + [b];
    var n := |batches|;
    if k :| 0 <= k < |all| && LastAt(all, x, k) {
      if k < n {
        assert all[n] == b && all[k] == batches[k];
        assert forall j :: k < j < n ==> all[j] == batches[j];
        assert LastAt(batches, x, k);
      }
    }
    if x in Latest(b) {
      assert LastAt(all, x, n);
    }
    if LastIn(batches, x) && x.id !in Ids(b) {
      var k :| 0 <= k < n && LastAt(batches, x, k);
      assert LastAt(all, x, k);
    }
  }

  /** The identifiers of what remains are all identifiers of the batches. */
  lemma {:induction false} LastInIds<T(!new)>(batches: seq<seq<Item<T>>>, id: string)
    ensures (exists x :: LastIn(batches, x) && x.id == id) <==> exists k :: 0 <= k < |batches| && id in Ids(batches[k])
  {
    hide LastIn;
    if batches == [] {
      NoBatch<T>();
    } else {
      var n := |batches| - 1;
      var front, b := batches[..n], batches[n];
      assert batches == front + [b];
      LastInIds(front, id);
      LatestUnique(b);
      forall x: Item<T> { LastInNext(front, b, x); }
      if id in Ids(b) {
        var x :| x in Latest(b) && x.id == id;
        assert LastIn(batches, x);
      }
    }
  }

  lemma OneBatch<T>(b: seq<Item<T>>, x: Item<T>)
    ensures LastIn([b], x) <==> x in Latest(b)
  {
    assert LastAt([b], x, 0) <==> x in Latest(b);
  }

  lemma NoBatch<T(!new)>()
    ensures forall x: Item<T> :: !LastIn([], x)
  {
  }
}
