/** Structural paths of a document and their order. */
module PathOrder {

  /** A token of a path such as `s1.p2.r1.tbl1.tr1.tc2.p1.r3`. */
  datatype Token = Sec(n: nat) | Par(n: nat) | Run(n: nat) | Tbl(n: nat) | Row(n: nat) | Col(n: nat)

  type Path = seq<Token>

  function Kind(t: Token): nat {
    match t
    case Par(_) => 0
    case Run(_) => 1
    case Sec(_) => 2
    case Tbl(_) => 3
    case Col(_) => 4
    case Row(_) => 5
  }

  function Nums(p: Path): seq<nat> {
    seq(|p|, i requires 0 <= i < |p| => p[i].n)
  }

  function Kinds(p: Path): seq<nat> {
    seq(|p|, i requires 0 <= i < |p| => Kind(p[i]))
  }

  predicate LexLess(a: seq<nat>, b: seq<nat>) {
    b != [] && (a == [] || a[0] < b[0] || (a[0] == b[0] && LexLess(a[1..], b[1..])))
  }

  /** By the numbers in the path; of paths with the same numbers, by their text, which is by their kinds of token. */
  predicate PathLess(a: Path, b: Path) {
    LexLess(Nums(a), Nums(b)) || (Nums(a) == Nums(b) && LexLess(Kinds(a), Kinds(b)))
  }

  lemma {:induction false} LexTotal(a: seq<nat>, b: seq<nat>)
    ensures LexLess(a, b) || LexLess(b, a) || a == b
    ensures !(LexLess(a, b) && LexLess(b, a)) && !LexLess(a, a)
    decreases |a|
  {
    if a != [] {
      LexTotal(a[1..], a[1..]);
      if b != [] {
        LexTotal(a[1..], b[1..]);
        assert a == [a[0]] + a[1..] && b == [b[0]] + b[1..];
      }
    }
  }

  lemma {:induction false} LexTransitive(a: seq<nat>, b: seq<nat>, c: seq<nat>)
    requires LexLess(a, b) && LexLess(b, c)
    ensures LexLess(a, c)
    decreases |a|
  {
    if a != [] && a[0] == b[0] == c[0] {
      LexTransitive(a[1..], b[1..], c[1..]);
    }
  }

  lemma PathTotal(a: Path, b: Path)
    ensures PathLess(a, b) || PathLess(b, a) || a == b
    ensures !(PathLess(a, b) && PathLess(b, a)) && !PathLess(a, a)
  {
    hide LexLess;
    LexTotal(Nums(a), Nums(b));
    LexTotal(Kinds(a), Kinds(b));
    LexTotal(Nums(a), Nums(a));
    LexTotal(Kinds(a), Kinds(a));
    if Nums(a) == Nums(b) && Kinds(a) == Kinds(b) {
      assert |a| == |Nums(a)| == |b|;
      forall i | 0 <= i < |a|
        ensures a[i] == b[i]
      {
        assert Nums(a)[i] == Nums(b)[i] && Kinds(a)[i] == Kinds(b)[i];
      }
    }
  }

  lemma PathTransitive(a: Path, b: Path, c: Path)
    requires PathLess(a, b) && PathLess(b, c)
    ensures PathLess(a, c)
  {
    hide LexLess, Nums, Kinds;
    if LexLess(Nums(a), Nums(b)) && LexLess(Nums(b), Nums(c)) {
      LexTransitive(Nums(a), Nums(b), Nums(c));
    } else if Nums(a) == Nums(b) == Nums(c) {
      LexTransitive(Kinds(a), Kinds(b), Kinds(c));
    }
  }

  /** The first number in which two paths differ decides. */
  lemma NumbersDecide(a: Path, b: Path, k: nat)
    requires k < |a| && k < |b| && a[k].n < b[k].n && forall i :: 0 <= i < k ==> a[i].n == b[i].n
    ensures PathLess(a, b)
  {
    assert Nums(a)[..k] == Nums(b)[..k];
    LexAt(Nums(a), Nums(b), k);
  }

  lemma {:induction false} LexAt(a: seq<nat>, b: seq<nat>, k: nat)
    requires k < |a| && k < |b| && a[k] < b[k] && a[..k] == b[..k]
    ensures LexLess(a, b)
    decreases k
  {
    if k > 0 {
      assert a[..k][0] == a[0] && b[..k][0] == b[0];
      assert a[1..][..k - 1] == a[..k][1..] && b[1..][..k - 1] == b[..k][1..];
      LexAt(a[1..], b[1..], k - 1);
    }
  }

  lemma {:induction false} LexPrefix(a: seq<nat>, b: seq<nat>)
    requires b != []
    ensures LexLess(a, a + b)
  {
    if a != [] {
      LexPrefix(a[1..], b);
      assert (a + b)[1..] == a[1..] + b;
    }
  }

  /** A path comes before every longer one that starts with the same numbers. */
  lemma ShorterFirst(a: Path, b: Path)
    requires |a| < |b| && forall i :: 0 <= i < |a| ==> a[i].n == b[i].n
    ensures PathLess(a, b)
  {
    var rest := Nums(b)[|a|..];
    assert Nums(b) == Nums(a) + rest;
    LexPrefix(Nums(a), rest);
  }

  function Marker(t: Token): string {
    match t
    case Par(_) => "p"
    case Run(_) => "r"
    case Sec(_) => "s"
    case Tbl(_) => "tbl"
    case Col(_) => "tc"
    case Row(_) => "tr"
  }

  /** Comparing markers as texts. */
  predicate SpelledBefore(a: string, b: string) {
    exists i :: 0 <= i < |a| && i < |b| && a[..i] == b[..i] && a[i] < b[i]
  }

  /** With equal numbers the first different marker decides, in alphabetical order. */
  lemma MarkersDecide(a: Path, b: Path, k: nat)
    requires |a| == |b| && k < |a| && forall i :: 0 <= i < |a| ==> a[i].n == b[i].n
    requires SpelledBefore(Marker(a[k]), Marker(b[k])) && forall i :: 0 <= i < k ==> Marker(a[i]) == Marker(b[i])
    ensures PathLess(a, b)
  {
    assert Nums(a) == Nums(b);
    forall i | 0 <= i < k
      ensures Kind(a[i]) == Kind(b[i])
    {
      MarkersApart(a[i], b[i]);
    }
    assert Kinds(a)[..k] == Kinds(b)[..k];
    MarkersInOrder(a[k], b[k]);
    LexAt(Kinds(a), Kinds(b), k);
  }

  lemma MarkersApart(a: Token, b: Token)
    requires Marker(a) == Marker(b)
    ensures Kind(a) == Kind(b)
  {
    assert |Marker(a)| == |Marker(b)| && Marker(a)[0] == Marker(b)[0];
    assert |Marker(a)| == 2 ==> Marker(a)[1] == Marker(b)[1];
  }

  lemma MarkersInOrder(a: Token, b: Token)
    requires SpelledBefore(Marker(a), Marker(b))
    ensures Kind(a) < Kind(b)
  {
    var i :| 0 <= i < |Marker(a)| && i < |Marker(b)| && Marker(a)[..i] == Marker(b)[..i] && Marker(a)[i] < Marker(b)[i];
    if i > 0 {
      assert Marker(a)[0] == Marker(a)[..i][0] == Marker(b)[0];
    }
  }

  function InsertByPath<T>(s: seq<T>, x: T, key: T -> Path): seq<T> {
    if s == [] || !PathLess(key(s[0]), key(x)) then [x] + s else [s[0]] + InsertByPath(s[1..], x, key)
  }

  function SortByPath<T>(s: seq<T>, key: T -> Path): seq<T> {
    if s == [] then [] else InsertByPath(SortByPath(s[..|s| - 1], key), s[|s| - 1], key)
  }

  /** Strictly ascending by key. */
  ghost predicate Ascending<T>(s: seq<T>, key: T -> Path) {
    forall i, j :: 0 <= i < j < |s| ==> PathLess(key(s[i]), key(s[j]))
  }

  ghost predicate DistinctKeys<T>(s: seq<T>, key: T -> Path) {
    forall i, j :: 0 <= i < j < |s| ==> key(s[i]) != key(s[j])
  }

  lemma {:induction false} InsertKeeps<T>(s: seq<T>, x: T, key: T -> Path)
    requires Ascending(s, key) && forall i :: 0 <= i < |s| ==> key(s[i]) != key(x)
    ensures Ascending(InsertByPath(s, x, key), key)
    ensures multiset(InsertByPath(s, x, key)) == multiset(s) + multiset{x}
  {
    hide PathLess;
    if s != [] {
      PathTotal(key(s[0]), key(x));
      if PathLess(key(s[0]), key(x)) {
        InsertKeeps(s[1..], x, key);
        InsertBehind(s, x, InsertByPath(s[1..], x, key), key);
      } else {
        forall j | 0 <= j < |s|
          ensures PathLess(key(x), key(s[j]))
        {
          if j > 0 {
            PathTransitive(key(x), key(s[0]), key(s[j]));
          }
        }
      }
    }
  }

  lemma InsertBehind<T>(s: seq<T>, x: T, r: seq<T>, key: T -> Path)
    requires s != [] && Ascending(s, key) && PathLess(key(s[0]), key(x))
    requires Ascending(r, key) && multiset(r) == multiset(s[1..]) + multiset{x}
    ensures Ascending([s[0]] + r, key) && multiset([s[0]] + r) == multiset(s) + multiset{x}
  {
    hide PathLess;
    assert s == [s[0]] + s[1..];
    forall j | 0 <= j < |r|
      ensures PathLess(key(s[0]), key(r[j]))
    {
      assert r[j] in multiset(r);
    }
  }

  /** Sorting keeps the elements and orders them. */
  lemma {:induction false} SortMeaning<T>(s: seq<T>, key: T -> Path)
    requires DistinctKeys(s, key)
    ensures Ascending(SortByPath(s, key), key)
    ensures multiset(SortByPath(s, key)) == multiset(s)
  {
    hide PathLess;
    if s != [] {
      var front, last := s[..|s| - 1], s[|s| - 1];
      SortMeaning(front, key);
      var sorted := SortByPath(front, key);
      assert s == front + [last];
      forall i | 0 <= i < |sorted|
        ensures key(sorted[i]) != key(last)
      {
        assert sorted[i] in multiset(front);
      }
      InsertKeeps(sorted, last, key);
    }
  }

  /** There is only one way to order the same elements. */
  lemma {:induction false} AscendingUnique<T>(a: seq<T>, b: seq<T>, key: T -> Path)
    requires Ascending(a, key) && Ascending(b, key) && multiset(a) == multiset(b)
    ensures a == b
    decreases |a|
  {
    hide PathLess, Ascending;
    assert |multiset(a)| == |a| && |multiset(b)| == |b|;
    if a != [] {
      HeadsAgree(a, b, key);
      AscendingTail(a, key);
      AscendingTail(b, key);
      assert a == [a[0]] + a[1..] && b == [b[0]] + b[1..];
      assert multiset(a[1..]) == multiset(b[1..]);
      AscendingUnique(a[1..], b[1..], key);
    }
  }

  lemma AscendingTail<T>(a: seq<T>, key: T -> Path)
    requires Ascending(a, key) && a != []
    ensures Ascending(a[1..], key) && multiset(a[1..]) == multiset(a) - multiset{a[0]}
  {
    hide PathLess;
    assert a == [a[0]] + a[1..];
  }

  lemma HeadsAgree<T>(a: seq<T>, b: seq<T>, key: T -> Path)
    requires Ascending(a, key) && Ascending(b, key) && multiset(a) == multiset(b) && a != [] && b != []
    ensures a[0] == b[0]
  {
    hide PathLess;
    assert a[0] in multiset(b) && b[0] in multiset(a);
    var j :| 0 <= j < |b| && b[j] == a[0];
    var i :| 0 <= i < |a| && a[i] == b[0];
    PathTotal(key(a[0]), key(b[0]));
  }
}
