/**
  How much the trimmer keeps: as much of a text as surely fits, and of a list or a mapping every entry, in order,
  whose trimmed form fits into what is left when its turn comes.
 */
module CompactGreedy {
  import opened Basics
  import opened Compact

  /** A text is kept whole, or up to its limit, or until one more character might not fit. */
  lemma TextIsMaximal(item: Value, budget: int, depth: nat)
    requires item.Text? && depth <= 4
    ensures var kept := Trim(item, budget, depth);
      kept.Text? && kept.s <= item.s && (kept.s == item.s || |kept.s| == 700 || 2 + 6 * (|kept.s| + 1) > budget)
  {
  }

  // ---- Lists ----

  /** What is left of the budget after some items. */
  ghost function LeftAfter(budget: int, kept: seq<Value>): int {
    budget - 2 - ItemsCost(kept)
  }

  /** The item's trimmed form when `left` is left. */
  ghost function TrimmedItem(x: Value, left: int, depth: nat): Value {
    Trim(x, Min(500, left - 1), depth + 1)
  }

  ghost predicate ItemFits(x: Value, left: int, depth: nat) {
    left >= 8 && |Dump(TrimmedItem(x, left, depth))| + 1 <= left
  }

  /** Place `i` lies after the first `j` of `at` and before the rest. */
  ghost predicate Between(at: seq<nat>, i: nat, j: nat)
    requires j <= |at|
  {
    (j > 0 ==> at[j - 1] < i) && (j < |at| ==> i < at[j])
  }

  /** Of the first `n` items exactly those at `at` are kept: each that fits when its turn comes. */
  ghost predicate Greedy(items: seq<Value>, n: nat, kept: seq<Value>, at: seq<nat>, budget: int, depth: nat)
    requires n <= |items|
  {
    && |at| == |kept| && Rising(at)
    && (forall j :: 0 <= j < |at| ==>
          at[j] < n && ItemFits(items[at[j]], LeftAfter(budget, kept[..j]), depth) &&
          kept[j] == TrimmedItem(items[at[j]], LeftAfter(budget, kept[..j]), depth))
    && (forall i, j :: 0 <= i < n && 0 <= j <= |at| && Between(at, i, j) ==>
          !ItemFits(items[i], LeftAfter(budget, kept[..j]), depth))
  }

  lemma CostAppends(kept: seq<Value>, x: Value)
    ensures ItemsCost(kept + [x]) == ItemsCost(kept) + |Dump(x)| + 1
  {
    hide Dump;
    assert (kept + [x])[..|kept|] == kept;
  }

  lemma GreedyKeeps(items: seq<Value>, n: nat, kept: seq<Value>, at: seq<nat>, budget: int, depth: nat)
    requires n < |items| && Greedy(items, n, kept, at, budget, depth) &&
      ItemFits(items[n], LeftAfter(budget, kept), depth)
    ensures var x := TrimmedItem(items[n], LeftAfter(budget, kept), depth);
      Greedy(items, n + 1, kept + [x], at + [n], budget, depth)
  {
    hide ItemFits, TrimmedItem, LeftAfter;
    var x := TrimmedItem(items[n], LeftAfter(budget, kept), depth);
    var more, there := kept + [x], at + [n];
    assert kept[..|kept|] == kept && more[..|kept|] == kept;
    assert forall j :: 0 <= j <= |kept| ==> more[..j] == kept[..j];
    forall i, j | 0 <= i <= n && 0 <= j <= |there| && Between(there, i, j)
      ensures !ItemFits(items[i], LeftAfter(budget, more[..j]), depth)
    {
      assert there[|at|] == n;
      assert Between(at, i, j) && more[..j] == kept[..j];
    }
  }

  lemma GreedySkips(items: seq<Value>, n: nat, kept: seq<Value>, at: seq<nat>, budget: int, depth: nat)
    requires n < |items| && Greedy(items, n, kept, at, budget, depth) &&
      !ItemFits(items[n], LeftAfter(budget, kept), depth)
    ensures Greedy(items, n + 1, kept, at, budget, depth)
  {
    hide ItemFits, TrimmedItem, LeftAfter;
    forall i, j | 0 <= i <= n && 0 <= j <= |at| && Between(at, i, j)
      ensures !ItemFits(items[i], LeftAfter(budget, kept[..j]), depth)
    {
      if i == n {
        assert j == |at| && kept[..j] == kept;
      }
    }
  }

  lemma {:induction false} GreedyStops(items: seq<Value>, n: nat, m: nat, kept: seq<Value>, at: seq<nat>, budget: int,
                                       depth: nat)
    requires n <= m <= |items| && Greedy(items, n, kept, at, budget, depth) && LeftAfter(budget, kept) < 8
    ensures Greedy(items, m, kept, at, budget, depth)
    decreases m - n
  {
    hide Greedy, LeftAfter;
    if n < m {
      GreedySkips(items, n, kept, at, budget, depth);
      GreedyStops(items, n + 1, m, kept, at, budget, depth);
    }
  }

  lemma {:induction false} TrimItemsGreedy(item: Value, k: nat, found: seq<Value>, at: seq<nat>, budget: int,
                                           depth: nat)
      returns (all: seq<nat>)
    requires item.List? && k <= Min(16, |item.items|) && Greedy(item.items, k, found, at, budget, depth)
    ensures Greedy(item.items, Min(16, |item.items|), TrimItems(item, k, found, LeftAfter(budget, found), depth), all,
                   budget, depth)
    decreases 24 - k
  {
    hide Greedy, Trim, Dump, TrimItems;
    var left, n := LeftAfter(budget, found), Min(16, |item.items|);
    all := at;
    if k == n {
      LastTurn(item, [], found, left, depth);
    } else {
      ItemTurn(item, k, found, left, depth);
      var x := TrimmedItem(item.items[k], left, depth);
      if left < 8 {
        GreedyStops(item.items, k, n, found, at, budget, depth);
      } else if ItemFits(item.items[k], left, depth) {
        GreedyKeeps(item.items, k, found, at, budget, depth);
        CostAppends(found, x);
        all := TrimItemsGreedy(item, k + 1, found + [x], at + [k], budget, depth);
      } else {
        GreedySkips(item.items, k, found, at, budget, depth);
        all := TrimItemsGreedy(item, k + 1, found, at, budget, depth);
      }
    }
  }

  /** A list keeps exactly those of its first 16 items that fit when their turn comes. */
  lemma ListIsGreedy(item: Value, budget: int, depth: nat) returns (at: seq<nat>)
    requires item.List? && depth <= 4
    ensures Trim(item, budget, depth).List?
    ensures Greedy(item.items, Min(16, |item.items|), Trim(item, budget, depth).items, at, budget, depth)
  {
    hide Dump, TrimItems;
    assert Greedy(item.items, 0, [], [], budget, depth);
    at := TrimItemsGreedy(item, 0, [], [], budget, depth);
  }

  // ---- Mappings ----

  ghost function LeftAfterEntries(budget: int, kept: seq<Entry>): int {
    budget - 2 - EntriesCost(kept)
  }

  function CutKey(e: Entry): string {
    Take(e.key, 80)
  }

  /** Too little is left for the key and a value, so the trimmer stops here. */
  ghost predicate StopsAt(e: Entry, left: int) {
    left - KeyCost(CutKey(e)) < 8
  }

  ghost function TrimmedEntry(e: Entry, left: int, depth: nat): Entry {
    Entry(CutKey(e), Trim(e.value, Min(700, left - KeyCost(CutKey(e))), depth + 1))
  }

  ghost predicate EntryFits(e: Entry, left: int, depth: nat) {
    KeyCost(CutKey(e)) + |Dump(TrimmedEntry(e, left, depth).value)| <= left
  }

  /** Of the first `n` entries exactly those at `at` are kept: each that fits when its turn comes. */
  ghost predicate GreedyEntries(entries: seq<Entry>, n: nat, kept: seq<Entry>, at: seq<nat>, budget: int, depth: nat)
    requires n <= |entries|
  {
    && |at| == |kept| && Rising(at)
    && (forall j :: 0 <= j < |at| ==>
          at[j] < n && EntryFits(entries[at[j]], LeftAfterEntries(budget, kept[..j]), depth) &&
          kept[j] == TrimmedEntry(entries[at[j]], LeftAfterEntries(budget, kept[..j]), depth))
    && (forall i, j :: 0 <= i < n && 0 <= j <= |at| && Between(at, i, j) ==>
          !EntryFits(entries[i], LeftAfterEntries(budget, kept[..j]), depth))
  }

  // ---- Keys that are equal once cut ----

  /** No later entry has the key of entry `j`. */
  ghost predicate LastOfKey(log: seq<Entry>, j: nat)
    requires j < |log|
  {
    forall k :: j < k < |log| ==> log[k].key != log[j].key
  }

  /** `firsts` are the places in `log` of the keys of `kept`, in order, and none of them comes earlier. */
  ghost predicate FirstPlaces(kept: seq<Entry>, log: seq<Entry>, firsts: seq<nat>) {
    && |firsts| == |kept| && Rising(firsts)
    && (forall i :: 0 <= i < |firsts| ==> firsts[i] < |log| && log[firsts[i]].key == kept[i].key)
    && (forall i, j :: 0 <= i < |firsts| && 0 <= j < firsts[i] && j < |log| ==> log[j].key != kept[i].key)
  }

  ghost predicate LastValues(kept: seq<Entry>, log: seq<Entry>) {
    forall i, j :: 0 <= i < |kept| && 0 <= j < |log| && kept[i].key == log[j].key && LastOfKey(log, j) ==>
      kept[i] == log[j]
  }

  ghost predicate HasKey(kept: seq<Entry>, key: string) {
    exists i :: 0 <= i < |kept| && kept[i].key == key
  }

  /** `kept` has the keys of `log` once each, in the order in which they first come, with their last values. */
  ghost predicate Remembers(kept: seq<Entry>, log: seq<Entry>, firsts: seq<nat>) {
    && DistinctKeys(kept) && FirstPlaces(kept, log, firsts) && LastValues(kept, log)
    && forall j :: 0 <= j < |log| ==> HasKey(kept, log[j].key)
  }

  lemma LastBefore(log: seq<Entry>, e: Entry, j: nat)
    requires j < |log| && LastOfKey(log + [e], j)
    ensures LastOfKey(log, j) && log[j].key != e.key
  {
    var more := log + [e];
    assert more[|log|] == e && more[j] == log[j];
    assert forall k :: 0 <= k < |log| ==> more[k] == log[k];
  }

  /** Setting a key to its newest value. */
  lemma LastValuesPut(kept: seq<Entry>, log: seq<Entry>, e: Entry, now: seq<Entry>)
    requires LastValues(kept, log)
    requires forall i :: 0 <= i < |now| ==> now[i] == e || (i < |kept| && now[i] == kept[i] && kept[i].key != e.key)
    ensures LastValues(now, log + [e])
  {
    var more := log + [e];
    forall i, j | 0 <= i < |now| && 0 <= j < |more| && now[i].key == more[j].key && LastOfKey(more, j)
      ensures now[i] == more[j]
    {
      if j < |log| {
        LastBefore(log, e, j);
      }
    }
  }

  lemma HasKeyPut(kept: seq<Entry>, log: seq<Entry>, e: Entry, now: seq<Entry>)
    requires forall j :: 0 <= j < |log| ==> HasKey(kept, log[j].key)
    requires |kept| <= |now| && (forall i :: 0 <= i < |kept| ==> now[i].key == kept[i].key) && HasKey(now, e.key)
    ensures forall j :: 0 <= j < |log + [e]| ==> HasKey(now, (log + [e])[j].key)
  {
    forall j | 0 <= j < |log + [e]|
      ensures HasKey(now, (log + [e])[j].key)
    {
      if j < |log| {
        assert HasKey(kept, log[j].key);
        var i :| 0 <= i < |kept| && kept[i].key == log[j].key;
        assert now[i].key == log[j].key;
      }
    }
  }

  lemma RemembersNew(kept: seq<Entry>, log: seq<Entry>, firsts: seq<nat>, e: Entry)
    requires Remembers(kept, log, firsts) && !HasKey(kept, e.key)
    ensures Remembers(kept + [e], log + [e], firsts + [|log|])
  {
    hide LastValues, LastOfKey;
    var now := kept + [e];
    assert now[|kept|] == e;
    assert forall i :: 0 <= i < |kept| ==> kept[i].key != e.key;
    LastValuesPut(kept, log, e, now);
    HasKeyPut(kept, log, e, now);
    assert forall j :: 0 <= j < |log| ==> log[j].key != e.key;
    hide HasKey;
    assert FirstPlaces(now, log + [e], firsts + [|log|]);
  }

  lemma RemembersAgain(kept: seq<Entry>, log: seq<Entry>, firsts: seq<nat>, i: nat, e: Entry)
    requires Remembers(kept, log, firsts) && i < |kept| && kept[i].key == e.key
    ensures Remembers(kept[i := e], log + [e], firsts)
  {
    hide LastValues, LastOfKey;
    var now := kept[i := e];
    assert now[i] == e;
    LastValuesPut(kept, log, e, now);
    HasKeyPut(kept, log, e, now);
    hide HasKey;
  }

  lemma RemembersPut(kept: seq<Entry>, log: seq<Entry>, firsts: seq<nat>, e: Entry) returns (more: seq<nat>)
    requires Remembers(kept, log, firsts)
    ensures Remembers(Put(kept, e.key, e.value), log + [e], more)
  {
    hide FirstPlaces, LastValues;
    if i: nat :| i < |kept| && kept[i].key == e.key {
      RemembersAgain(kept, log, firsts, i, e);
      PutReplaces(kept, e.key, e.value, i);
      more := firsts;
    } else {
      RemembersNew(kept, log, firsts, e);
      PutAppends(kept, e.key, e.value);
      more := firsts + [|log|];
    }
  }

  lemma EntriesCostAppends(kept: seq<Entry>, e: Entry)
    ensures EntriesCost(kept + [e]) == EntriesCost(kept) + KeyCost(e.key) + |Dump(e.value)|
  {
    hide Dump, KeyCost;
    EntriesCostSplits(kept + [e]);
    assert (kept + [e])[..|kept|] == kept;
  }

  lemma GreedyKeepsEntry(entries: seq<Entry>, n: nat, kept: seq<Entry>, at: seq<nat>, budget: int, depth: nat)
    requires n < |entries| && GreedyEntries(entries, n, kept, at, budget, depth)
    requires EntryFits(entries[n], LeftAfterEntries(budget, kept), depth)
    ensures var e := TrimmedEntry(entries[n], LeftAfterEntries(budget, kept), depth);
      GreedyEntries(entries, n + 1, kept + [e], at + [n], budget, depth)
  {
    hide EntryFits, TrimmedEntry, LeftAfterEntries;
    var e := TrimmedEntry(entries[n], LeftAfterEntries(budget, kept), depth);
    var more, there := kept + [e], at + [n];
    assert kept[..|kept|] == kept && more[..|kept|] == kept;
    assert forall j :: 0 <= j <= |kept| ==> more[..j] == kept[..j];
    forall i, j | 0 <= i <= n && 0 <= j <= |there| && Between(there, i, j)
      ensures !EntryFits(entries[i], LeftAfterEntries(budget, more[..j]), depth)
    {
      assert there[|at|] == n;
      assert Between(at, i, j) && more[..j] == kept[..j];
    }
  }

  lemma GreedySkipsEntry(entries: seq<Entry>, n: nat, kept: seq<Entry>, at: seq<nat>, budget: int, depth: nat)
    requires n < |entries| && GreedyEntries(entries, n, kept, at, budget, depth)
    requires !EntryFits(entries[n], LeftAfterEntries(budget, kept), depth)
    ensures GreedyEntries(entries, n + 1, kept, at, budget, depth)
  {
    hide EntryFits, TrimmedEntry, LeftAfterEntries;
    forall i, j | 0 <= i <= n && 0 <= j <= |at| && Between(at, i, j)
      ensures !EntryFits(entries[i], LeftAfterEntries(budget, kept[..j]), depth)
    {
      if i == n {
        assert j == |at| && kept[..j] == kept;
      }
    }
  }

  lemma {:induction false} TrimEntriesGreedy(item: Value, k: nat, found: seq<Entry>, log: seq<Entry>, at: seq<nat>,
                                             firsts: seq<nat>, budget: int, depth: nat)
      returns (all: seq<Entry>, places: seq<nat>, keys: seq<nat>, stop: nat)
    requires item.Mapping? && k <= Min(24, |item.entries|)
    requires GreedyEntries(item.entries, k, log, at, budget, depth) && Remembers(found, log, firsts)
    ensures k <= stop <= Min(24, |item.entries|) && GreedyEntries(item.entries, stop, all, places, budget, depth)
    ensures stop < Min(24, |item.entries|) ==> StopsAt(item.entries[stop], LeftAfterEntries(budget, all))
    ensures Remembers(TrimEntries(item, k, found, LeftAfterEntries(budget, log), depth), all, keys)
    decreases 24 - k
  {
    hide GreedyEntries, Remembers, Trim, Dump, TrimEntries, KeyCost, Take, Put;
    var left, n := LeftAfterEntries(budget, log), Min(24, |item.entries|);
    all, places, keys, stop := log, at, firsts, k;
    if k == n {
      LastTurn(item, found, [], left, depth);
    } else {
      EntryTurn(item, k, found, left, depth);
      var e := TrimmedEntry(item.entries[k], left, depth);
      if !StopsAt(item.entries[k], left) {
        if EntryFits(item.entries[k], left, depth) {
          GreedyKeepsEntry(item.entries, k, log, at, budget, depth);
          keys := RemembersPut(found, log, firsts, e);
          EntriesCostAppends(log, e);
          all, places, keys, stop :=
            TrimEntriesGreedy(item, k + 1, Put(found, e.key, e.value), log + [e], at + [k], keys, budget, depth);
        } else {
          GreedySkipsEntry(item.entries, k, log, at, budget, depth);
          all, places, keys, stop := TrimEntriesGreedy(item, k + 1, found, log, at, firsts, budget, depth);
        }
      }
    }
  }

  /**
    Up to the entry for which too little is left, a mapping takes exactly those of its first 24 entries that fit when
    their turn comes. Of entries whose cut keys are equal the first gives the place and the last the value.
   */
  lemma MappingIsGreedy(item: Value, budget: int, depth: nat)
      returns (taken: seq<Entry>, at: seq<nat>, firsts: seq<nat>, stop: nat)
    requires item.Mapping? && depth <= 4
    ensures stop <= Min(24, |item.entries|) && GreedyEntries(item.entries, stop, taken, at, budget, depth)
    ensures stop < Min(24, |item.entries|) ==> StopsAt(item.entries[stop], LeftAfterEntries(budget, taken))
    ensures Trim(item, budget, depth).Mapping? && Remembers(Trim(item, budget, depth).entries, taken, firsts)
  {
    hide Dump, TrimEntries;
    assert GreedyEntries(item.entries, 0, [], [], budget, depth) && Remembers([], [], []);
    taken, at, firsts, stop := TrimEntriesGreedy(item, 0, [], [], [], [], budget, depth);
  }
}
