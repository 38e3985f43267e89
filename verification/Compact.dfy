/**
  Trimming a nested value for a prompt: entries are kept while their JSON text fits a budget, texts are
  cut so that even fully escaped they fit, and nesting is cut off. The JSON text of the result is
  bounded whatever the value, and a value that is small enough is not changed at all.
 */
module Compact {
  import opened Basics

  /** A JSON value. A number is given by its JSON text; `Text` is any other object, by its string form. */
  datatype Value =
    | Null
    | Bool(b: bool)
    | Number(repr: string)
    | Text(s: string)
    | List(items: seq<Value>)
    | Mapping(entries: seq<Entry>)

  datatype Entry = Entry(key: string, value: Value)

  function Take(s: string, n: nat): string {
    s[..Min(n, |s|)]
  }

  // ---- JSON text ----

  function HexDigit(d: nat): char
    requires d < 16
  {
    "0123456789abcdef"[d]
  }

  /** The escaped form of a character when text outside ASCII is written as it is. */
  function Escape(c: char): (r: string)
    ensures 1 <= |r| <= 6
  {
    if c == '"' then "\\\""
    else if c == '\\' then "\\\\"
    else if c == '\n' then "\\n"
    else if c == '\r' then "\\r"
    else if c == '\t' then "\\t"
    else if c as int == 12 then "\\f"
    else if c as int == 8 then "\\b"
    else if c as int < 32 then "\\u00" + [HexDigit(c as int / 16), HexDigit(c as int % 16)]
    else [c]
  }

  function EscapeAll(s: string): (r: string)
    ensures |s| <= |r| <= 6 * |s|
  {
    if s == "" then "" else EscapeAll(s[..|s| - 1]) + Escape(s[|s| - 1])
  }

  function Quote(s: string): string {
    "\"" + EscapeAll(s) + "\""
  }

  function Dump(v: Value): string
    decreases v, 1
  {
    match v
    case Null => "null"
    case Bool(b) => if b then "true" else "false"
    case Number(repr) => repr
    case Text(s) => Quote(s)
    case List(items) => "[" + DumpItems(v, |items|) + "]"
    case Mapping(entries) => "{" + DumpEntries(v, |entries|) + "}"
  }

  function DumpItems(v: Value, n: nat): string
    requires v.List? && n <= |v.items|
    decreases v, 0, n
  {
    if n == 0 then ""
    else DumpItems(v, n - 1) + (if n == 1 then "" else ", ") + Dump(v.items[n - 1])
  }

  function DumpEntries(v: Value, n: nat): (r: string)
    requires v.Mapping? && n <= |v.entries|
    ensures n == 0 ==> r == ""
    decreases v, 0, n
  {
    if n == 0 then ""
    else
      DumpEntries(v, n - 1) + (if n == 1 then "" else ", ")
        + Quote(v.entries[n - 1].key) + ": " + Dump(v.entries[n - 1].value)
  }

  // ---- Trimming ----

  const Budget: int := 1800

  function KeyCost(key: string): int {
    |Quote(key)| + 2
  }

  /** Sets a key of an insertion-ordered dictionary. */
  function Put(found: seq<Entry>, key: string, value: Value): seq<Entry> {
    if found == [] then [Entry(key, value)]
    else if found[0].key == key then [Entry(key, value)] + found[1..]
    else [found[0]] + Put(found[1..], key, value)
  }

  function Trim(item: Value, budget: int, depth: nat): Value
    decreases item, 30
  {
    if depth > 4 then Null
    else match item
      case Mapping(entries) => Mapping(TrimEntries(item, 0, [], budget - 2, depth))
      case List(items) => List(TrimItems(item, 0, [], budget - 2, depth))
      case Text(s) => Text(Take(s, Min(700, Max(0, (budget - 2) / 6))))
      case _ => item
  }

  /** The entries found so far and those found from entry `k` on. */
  function TrimEntries(item: Value, k: nat, found: seq<Entry>, remaining: int, depth: nat): seq<Entry>
    requires item.Mapping? && k <= Min(24, |item.entries|)
    decreases item, 24 - k
  {
    if k == Min(24, |item.entries|) then found
    else
      var key := Take(item.entries[k].key, 80);
      if remaining - KeyCost(key) < 8 then found
      else
        var kept := Trim(item.entries[k].value, Min(700, remaining - KeyCost(key)), depth + 1);
        var cost := KeyCost(key) + |Dump(kept)|;
        if cost <= remaining
        then TrimEntries(item, k + 1, Put(found, key, kept), remaining - cost, depth)
        else TrimEntries(item, k + 1, found, remaining, depth)
  }

  function TrimItems(item: Value, k: nat, found: seq<Value>, remaining: int, depth: nat): seq<Value>
    requires item.List? && k <= Min(16, |item.items|)
    decreases item, 24 - k
  {
    if k == Min(16, |item.items|) || remaining < 8 then found
    else
      var kept := Trim(item.items[k], Min(500, remaining - 1), depth + 1);
      var cost := |Dump(kept)| + 1;
      if cost <= remaining
      then TrimItems(item, k + 1, found + [kept], remaining - cost, depth)
      else TrimItems(item, k + 1, found, remaining, depth)
  }

  /** One turn of the loop over entries. */
  lemma EntryTurn(item: Value, k: nat, found: seq<Entry>, remaining: int, depth: nat)
    requires item.Mapping? && k < Min(24, |item.entries|)
    ensures var key := Take(item.entries[k].key, 80);
      var kept := Trim(item.entries[k].value, Min(700, remaining - KeyCost(key)), depth + 1);
      var cost := KeyCost(key) + |Dump(kept)|;
      TrimEntries(item, k, found, remaining, depth) ==
        if remaining - KeyCost(key) < 8 then found
        else if cost <= remaining then TrimEntries(item, k + 1, Put(found, key, kept), remaining - cost, depth)
        else TrimEntries(item, k + 1, found, remaining, depth)
  {
    hide Trim, Dump, KeyCost, Put, Take;
  }

  /** One turn of the loop over items. */
  lemma ItemTurn(item: Value, k: nat, found: seq<Value>, remaining: int, depth: nat)
    requires item.List? && k < Min(16, |item.items|)
    ensures var kept := Trim(item.items[k], Min(500, remaining - 1), depth + 1);
      var cost := |Dump(kept)| + 1;
      TrimItems(item, k, found, remaining, depth) ==
        if remaining < 8 then found
        else if cost <= remaining then TrimItems(item, k + 1, found + [kept], remaining - cost, depth)
        else TrimItems(item, k + 1, found, remaining, depth)
  {
    hide Trim, Dump;
  }

  /** The loop ends with what was found. */
  lemma LastTurn(item: Value, entries: seq<Entry>, items: seq<Value>, remaining: int, depth: nat)
    ensures item.Mapping? ==> TrimEntries(item, Min(24, |item.entries|), entries, remaining, depth) == entries
    ensures item.List? ==> TrimItems(item, Min(16, |item.items|), items, remaining, depth) == items
  {
    hide Trim, Dump;
  }

  method TrimEntriesOf(item: Value, budget: int, depth: nat) returns (found: seq<Entry>)
    requires item.Mapping?
    ensures found == TrimEntries(item, 0, [], budget - 2, depth)
    decreases item, 0
  {
    hide Trim, Dump, KeyCost, Put, Take, TrimEntries;
    var remaining := budget - 2;
    found := [];
    for k := 0 to Min(24, |item.entries|)
      invariant TrimEntries(item, 0, [], budget - 2, depth) == TrimEntries(item, k, found, remaining, depth)
    {
      EntryTurn(item, k, found, remaining, depth);
      var key := Take(item.entries[k].key, 80);
      var keyCost := KeyCost(key);
      if remaining - keyCost < 8 {
        return;
      }
      var kept := TrimValue(item.entries[k].value, Min(700, remaining - keyCost), depth + 1);
      var cost := keyCost + |Dump(kept)|;
      if cost <= remaining {
        found := Put(found, key, kept);
        remaining := remaining - cost;
      }
    }
    LastTurn(item, found, [], remaining, depth);
  }

  method TrimItemsOf(item: Value, budget: int, depth: nat) returns (found: seq<Value>)
    requires item.List?
    ensures found == TrimItems(item, 0, [], budget - 2, depth)
    decreases item, 0
  {
    hide Trim, Dump, TrimItems;
    var remaining := budget - 2;
    found := [];
    for k := 0 to Min(16, |item.items|)
      invariant TrimItems(item, 0, [], budget - 2, depth) == TrimItems(item, k, found, remaining, depth)
    {
      ItemTurn(item, k, found, remaining, depth);
      if remaining < 8 {
        return;
      }
      var kept := TrimValue(item.items[k], Min(500, remaining - 1), depth + 1);
      var cost := |Dump(kept)| + 1;
      if cost <= remaining {
        found := found + [kept];
        remaining := remaining - cost;
      }
    }
    LastTurn(item, [], found, remaining, depth);
  }

  method TrimValue(item: Value, budget: int, depth: nat) returns (r: Value)
    ensures r == Trim(item, budget, depth)
    decreases item, 1
  {
    hide TrimEntries, TrimItems;
    if depth > 4 {
      return Null;
    }
    match item
    case Mapping(_) =>
      var found := TrimEntriesOf(item, budget, depth);
      r := Mapping(found);
    case List(_) =>
      var found := TrimItemsOf(item, budget, depth);
      r := List(found);
    case Text(s) =>
      r := Text(Take(s, Min(700, Max(0, (budget - 2) / 6))));
    case _ =>
      r := item;
  }

  // ---- The JSON text is bounded ----

  /** What the trimmer counts for the kept entries. */
  ghost function EntriesCost(entries: seq<Entry>): int {
    if entries == [] then 0
    else KeyCost(entries[0].key) + |Dump(entries[0].value)| + EntriesCost(entries[1..])
  }

  ghost function ItemsCost(items: seq<Value>): int {
    if items == [] then 0 else ItemsCost(items[..|items| - 1]) + |Dump(items[|items| - 1])| + 1
  }

  lemma {:induction false} EntriesCostSplits(entries: seq<Entry>)
    requires entries != []
    ensures EntriesCost(entries) ==
      EntriesCost(entries[..|entries| - 1]) + KeyCost(entries[|entries| - 1].key) + |Dump(entries[|entries| - 1].value)|
  {
    hide Dump, KeyCost;
    if |entries| > 1 {
      var rest := entries[1..];
      EntriesCostSplits(rest);
      assert entries[..|entries| - 1][1..] == rest[..|rest| - 1];
    }
  }

  lemma {:induction false} PutCost(found: seq<Entry>, key: string, value: Value)
    ensures EntriesCost(Put(found, key, value)) <= EntriesCost(found) + KeyCost(key) + |Dump(value)|
    ensures |Put(found, key, value)| <= |found| + 1
  {
    hide Dump;
    if found != [] && found[0].key != key {
      PutCost(found[1..], key, value);
    }
  }

  lemma {:induction false} DumpEntriesLength(v: Value, n: nat)
    requires v.Mapping? && n <= |v.entries|
    ensures |DumpEntries(v, n)| == EntriesCost(v.entries[..n]) + 2 * Max(n - 1, 0)
  {
    if n > 0 {
      DumpEntriesLength(v, n - 1);
      EntriesCostSplits(v.entries[..n]);
      assert v.entries[..n][..n - 1] == v.entries[..n - 1];
    }
  }

  lemma {:induction false} DumpItemsLength(v: Value, n: nat)
    requires v.List? && n <= |v.items|
    ensures |DumpItems(v, n)| == ItemsCost(v.items[..n]) - n + 2 * Max(n - 1, 0)
  {
    if n > 0 {
      DumpItemsLength(v, n - 1);
      assert v.items[..n][..n - 1] == v.items[..n - 1];
    }
  }

  /** The JSON text of a mapping or a list is what the trimmer counts, and the separators it does not count. */
  lemma DumpLength(v: Value)
    ensures v.Mapping? ==> |Dump(v)| == 2 + EntriesCost(v.entries) + 2 * Max(|v.entries| - 1, 0)
    ensures v.List? ==> |Dump(v)| == 2 + ItemsCost(v.items) - |v.items| + 2 * Max(|v.items| - 1, 0)
  {
    match v
    case Mapping(entries) =>
      DumpEntriesLength(v, |entries|);
      assert entries[..|entries|] == entries;
    case List(items) =>
      DumpItemsLength(v, |items|);
      assert items[..|items|] == items;
    case _ =>
  }

  lemma {:induction false} EntriesWithinBudget(item: Value, k: nat, found: seq<Entry>, remaining: int, depth: nat,
                                               total: int)
    requires item.Mapping? && k <= Min(24, |item.entries|)
    requires |found| <= k && EntriesCost(found) <= Max(total, 0) - Max(remaining, 0)
    ensures var r := TrimEntries(item, k, found, remaining, depth);
      |r| <= 24 && EntriesCost(r) <= Max(total, 0)
    decreases 24 - k
  {
    hide Dump, Trim, Quote;
    if k < Min(24, |item.entries|) {
      var key := Take(item.entries[k].key, 80);
      if remaining - KeyCost(key) >= 8 {
        var kept := Trim(item.entries[k].value, Min(700, remaining - KeyCost(key)), depth + 1);
        var cost := KeyCost(key) + |Dump(kept)|;
        PutCost(found, key, kept);
        if cost <= remaining {
          EntriesWithinBudget(item, k + 1, Put(found, key, kept), remaining - cost, depth, total);
        } else {
          EntriesWithinBudget(item, k + 1, found, remaining, depth, total);
        }
      }
    }
  }

  lemma {:induction false} ItemsWithinBudget(item: Value, k: nat, found: seq<Value>, remaining: int, depth: nat,
                                             total: int)
    requires item.List? && k <= Min(16, |item.items|)
    requires |found| <= k && ItemsCost(found) <= Max(total, 0) - Max(remaining, 0)
    ensures var r := TrimItems(item, k, found, remaining, depth);
      |r| <= 16 && ItemsCost(r) <= Max(total, 0)
    decreases 24 - k
  {
    hide Dump, Trim;
    if k < Min(16, |item.items|) && remaining >= 8 {
      var kept := Trim(item.items[k], Min(500, remaining - 1), depth + 1);
      var cost := |Dump(kept)| + 1;
      assert (found + [kept])[..|found|] == found;
      if cost <= remaining {
        ItemsWithinBudget(item, k + 1, found + [kept], remaining - cost, depth, total);
      } else {
        ItemsWithinBudget(item, k + 1, found, remaining, depth, total);
      }
    }
  }

  lemma MappingBounded(item: Value, budget: int, depth: nat)
    requires item.Mapping? && budget >= 6 && depth <= 4
    ensures |Dump(Trim(item, budget, depth))| <= budget + 46
  {
    hide Dump, TrimEntries;
    var kept := TrimEntries(item, 0, [], budget - 2, depth);
    EntriesWithinBudget(item, 0, [], budget - 2, depth, budget - 2);
    hide EntriesCost;
    DumpLength(Mapping(kept));
  }

  lemma ListBounded(item: Value, budget: int, depth: nat)
    requires item.List? && budget >= 6 && depth <= 4
    ensures |Dump(Trim(item, budget, depth))| <= budget + 14
  {
    hide Dump, TrimItems;
    var kept := TrimItems(item, 0, [], budget - 2, depth);
    ItemsWithinBudget(item, 0, [], budget - 2, depth, budget - 2);
    hide ItemsCost;
    DumpLength(List(kept));
  }

  /**
    Whatever the value and the budget, the JSON text exceeds the budget by no more than the separators:
    46 characters for a mapping, 14 for a list, none for a text.
   */
  lemma TrimBounded(item: Value, budget: int, depth: nat)
    requires budget >= 6
    ensures item.Mapping? ==> |Dump(Trim(item, budget, depth))| <= budget + 46
    ensures item.List? ==> |Dump(Trim(item, budget, depth))| <= budget + 14
    ensures item.Text? ==> |Dump(Trim(item, budget, depth))| <= budget
  {
    hide TrimEntries, TrimItems, DumpEntries, DumpItems;
    if depth <= 4 {
      match item
      case Mapping(_) => MappingBounded(item, budget, depth);
      case List(_) => ListBounded(item, budget, depth);
      case _ =>
    }
  }

  /** The compact JSON text of a value. */
  method CompactText(value: Value) returns (r: string)
    ensures r == Dump(Trim(value, Budget, 0))
    ensures value.Mapping? ==> |r| <= 1846
    ensures value.List? ==> |r| <= 1814
    ensures value.Text? ==> |r| <= 1800
    ensures Weight(value) <= Budget && Fits(value, 0) ==> r == Dump(value)
  {
    var kept := TrimValue(value, Budget, 0);
    TrimBounded(value, Budget, 0);
    if Weight(value) <= Budget && Fits(value, 0) {
      SmallIsKept(value, Budget, 0);
    }
    r := Dump(kept);
  }

  // ---- Small values are kept ----

  /**
    A bound of the JSON text that takes every character of a text as escaped and every entry as at least
    the reserve.
   */
  ghost function Weight(v: Value): int
    decreases v, 1
  {
    match v
    case Null => 4
    case Bool(_) => 5
    case Number(repr) => |repr|
    case Text(s) => 2 + 6 * |s|
    case List(items) => 2 + ItemsWeight(v, 0)
    case Mapping(entries) => 2 + EntriesWeight(v, 0)
  }

  /** The weight of the items from `k` on. */
  ghost function ItemsWeight(v: Value, k: nat): (r: int)
    requires v.List? && k <= |v.items|
    ensures r >= 0
    decreases v, 0, |v.items| - k
  {
    if k == |v.items| then 0 else Max(8, Weight(v.items[k]) + 2) + ItemsWeight(v, k + 1)
  }

  ghost function EntriesWeight(v: Value, k: nat): (r: int)
    requires v.Mapping? && k <= |v.entries|
    ensures r >= 0
    decreases v, 0, |v.entries| - k
  {
    if k == |v.entries| then 0
    else KeyCost(v.entries[k].key) + Max(8, Weight(v.entries[k].value) + 2) + EntriesWeight(v, k + 1)
  }

  ghost predicate DistinctKeys(entries: seq<Entry>) {
    forall i, j :: 0 <= i < j < |entries| ==> entries[i].key != entries[j].key
  }

  /** The counts and nesting that are never cut. */
  ghost predicate Fits(v: Value, depth: nat)
    decreases v
  {
    depth <= 4 &&
    match v
    case Text(s) => |s| <= 700
    case List(items) =>
      |items| <= 16 &&
      forall i :: 0 <= i < |items| ==> Weight(items[i]) <= 500 && Fits(items[i], depth + 1)
    case Mapping(entries) =>
      |entries| <= 24 && DistinctKeys(entries) &&
      forall i :: 0 <= i < |entries| ==>
        |entries[i].key| <= 80 && Weight(entries[i].value) <= 700 && Fits(entries[i].value, depth + 1)
    case _ => true
  }

  lemma {:induction false} PutAppends(found: seq<Entry>, key: string, value: Value)
    requires forall i :: 0 <= i < |found| ==> found[i].key != key
    ensures Put(found, key, value) == found + [Entry(key, value)]
  {
    if found != [] {
      PutAppends(found[1..], key, value);
    }
  }

  lemma {:induction false} DumpWithinWeight(v: Value)
    ensures |Dump(v)| <= Weight(v)
    decreases v, 1
  {
    match v
    case Mapping(entries) => EntriesWithinWeight(v, |entries|);
    case List(items) => ItemsWithinWeight(v, |items|);
    case _ =>
  }

  lemma {:induction false} ItemsWithinWeight(v: Value, n: nat)
    requires v.List? && n <= |v.items|
    ensures |DumpItems(v, n)| + ItemsWeight(v, n) <= ItemsWeight(v, 0)
    decreases v, 0, n
  {
    hide Dump, Weight;
    if n > 0 {
      ItemsWithinWeight(v, n - 1);
      DumpWithinWeight(v.items[n - 1]);
    }
  }

  lemma DumpEntriesStep(v: Value, n: nat)
    requires v.Mapping? && 0 < n <= |v.entries|
    ensures |DumpEntries(v, n)|
      <= |DumpEntries(v, n - 1)| + 2 + KeyCost(v.entries[n - 1].key) + |Dump(v.entries[n - 1].value)|
  {
    hide Dump, Quote;
  }

  lemma {:induction false} EntriesWithinWeight(v: Value, n: nat)
    requires v.Mapping? && n <= |v.entries|
    ensures |DumpEntries(v, n)| + EntriesWeight(v, n) <= EntriesWeight(v, 0)
    decreases v, 0, n
  {
    hide Dump, Weight, KeyCost, DumpEntries;
    if n > 0 {
      DumpEntriesStep(v, n);
      EntriesWithinWeight(v, n - 1);
      DumpWithinWeight(v.entries[n - 1].value);
    }
  }

  /** A value within the counts and the nesting whose weight is within the budget is kept as it is. */
  lemma {:induction false} SmallIsKept(v: Value, budget: int, depth: nat)
    requires Fits(v, depth) && Weight(v) <= budget
    ensures Trim(v, budget, depth) == v
    decreases v, 30
  {
    hide TrimEntries, TrimItems, EntriesWeight, ItemsWeight;
    match v
    case Mapping(entries) =>
      EntriesKept(v, 0, budget - 2, depth);
      assert entries[..0] == [];
    case List(items) =>
      ItemsKept(v, 0, budget - 2, depth);
      assert items[..0] == [];
    case _ =>
  }

  lemma {:induction false} ItemsKept(v: Value, k: nat, remaining: int, depth: nat)
    requires v.List? && Fits(v, depth) && k <= |v.items| && ItemsWeight(v, k) <= remaining
    ensures TrimItems(v, k, v.items[..k], remaining, depth) == v.items
    decreases v, 24 - k
  {
    hide Dump, Trim, Weight;
    if k < |v.items| {
      var child := v.items[k];
      SmallIsKept(child, Min(500, remaining - 1), depth + 1);
      DumpWithinWeight(child);
      ItemsKept(v, k + 1, remaining - |Dump(child)| - 1, depth);
      assert v.items[..k] + [child] == v.items[..k + 1];
    }
  }

  lemma EntryIsTaken(item: Value, k: nat, found: seq<Entry>, remaining: int, depth: nat)
    requires item.Mapping? && k < Min(24, |item.entries|)
    requires var e := item.entries[k];
      |e.key| <= 80 && remaining - KeyCost(e.key) >= 8 && KeyCost(e.key) + |Dump(e.value)| <= remaining &&
      Trim(e.value, Min(700, remaining - KeyCost(e.key)), depth + 1) == e.value
    ensures var e := item.entries[k];
      TrimEntries(item, k, found, remaining, depth)
      == TrimEntries(item, k + 1, Put(found, e.key, e.value), remaining - KeyCost(e.key) - |Dump(e.value)|, depth)
  {
    hide Dump, Trim, KeyCost, Put, TrimEntries;
    assert Take(item.entries[k].key, 80) == item.entries[k].key;
    EntryTurn(item, k, found, remaining, depth);
  }

  lemma {:induction false} EntriesKept(v: Value, k: nat, remaining: int, depth: nat)
    requires v.Mapping? && Fits(v, depth) && k <= |v.entries| && EntriesWeight(v, k) <= remaining
    ensures TrimEntries(v, k, v.entries[..k], remaining, depth) == v.entries
    decreases v, 24 - k
  {
    hide Dump, Trim, Weight, KeyCost, Put;
    if k < |v.entries| {
      var e := v.entries[k];
      SmallIsKept(e.value, Min(700, remaining - KeyCost(e.key)), depth + 1);
      DumpWithinWeight(e.value);
      PutAppends(v.entries[..k], e.key, e.value);
      EntryIsTaken(v, k, v.entries[..k], remaining, depth);
      EntriesKept(v, k + 1, remaining - KeyCost(e.key) - |Dump(e.value)|, depth);
      assert v.entries[..k] + [e] == v.entries[..k + 1];
    }
  }

  // ---- Nothing is made up ----

  /**
    `kept` is `item` with entries left out, keys and texts cut and the nesting cut off; what is kept of a
    list or a mapping is in its order.
   */
  ghost predicate PrunedFrom(kept: Value, item: Value, depth: nat)
    decreases kept, 2
  {
    if depth > 4 then kept == Null
    else match item
      case Mapping(entries) => kept.Mapping? && EntriesFrom(kept, entries, depth)
      case List(items) => kept.List? && ItemsFrom(kept, items, depth)
      case Text(s) => kept.Text? && kept.s <= s
      case _ => kept == item
  }

  ghost predicate Rising(at: seq<nat>) {
    forall i, j :: 0 <= i < j < |at| ==> at[i] < at[j]
  }

  ghost predicate ItemsFrom(kept: Value, items: seq<Value>, depth: nat)
    requires kept.List?
    decreases kept, 1
  {
    exists at: seq<nat> :: ItemsAt(kept, items, at, depth)
  }

  /** The `j`-th item kept comes from item `at[j]`. */
  ghost predicate ItemsAt(kept: Value, items: seq<Value>, at: seq<nat>, depth: nat)
    requires kept.List?
    decreases kept, 0
  {
    |at| == |kept.items| && Rising(at) &&
    forall j :: 0 <= j < |at| ==> at[j] < |items| && PrunedFrom(kept.items[j], items[at[j]], depth + 1)
  }

  ghost predicate EntriesFrom(kept: Value, entries: seq<Entry>, depth: nat)
    requires kept.Mapping?
    decreases kept, 1
  {
    exists at: seq<nat>, from: seq<nat> :: EntriesAt(kept, entries, at, from, depth)
  }

  /**
    The `j`-th entry kept stands in the place of entry `at[j]` and has the value of entry `from[j]`: another
    one only when their keys are the same once they are cut.
   */
  ghost predicate EntriesAt(kept: Value, entries: seq<Entry>, at: seq<nat>, from: seq<nat>, depth: nat)
    requires kept.Mapping?
    decreases kept, 0
  {
    |at| == |from| == |kept.entries| && Rising(at) && DistinctKeys(kept.entries) &&
    forall j :: 0 <= j < |at| ==>
      at[j] <= from[j] < |entries| &&
      kept.entries[j].key == Take(entries[at[j]].key, 80) == Take(entries[from[j]].key, 80) &&
      PrunedFrom(kept.entries[j].value, entries[from[j]].value, depth + 1)
  }

  /** What is kept always comes from the value, in its place. */
  lemma {:induction false} TrimPrunes(item: Value, budget: int, depth: nat)
    ensures PrunedFrom(Trim(item, budget, depth), item, depth)
    decreases item, 30
  {
    hide TrimEntries, TrimItems, EntriesFrom, ItemsFrom;
    if depth <= 4 {
      match item
      case Mapping(entries) =>
        NothingKept(item, depth);
        EntriesPrune(item, 0, [], [], [], budget - 2, depth);
      case List(items) =>
        NothingKept(item, depth);
        ItemsPrune(item, 0, [], [], budget - 2, depth);
      case _ =>
    }
  }

  lemma NothingKept(item: Value, depth: nat)
    ensures item.Mapping? ==> EntriesAt(Mapping([]), item.entries, [], [], depth)
    ensures item.List? ==> ItemsAt(List([]), item.items, [], depth)
  {
  }

  /** Setting a key changes the entry that has it, or adds one at the end. */
  lemma {:induction false} PutReplaces(found: seq<Entry>, key: string, value: Value, j: nat)
    requires DistinctKeys(found) && j < |found| && found[j].key == key
    ensures Put(found, key, value) == found[j := Entry(key, value)]
  {
    if j > 0 {
      PutReplaces(found[1..], key, value, j - 1);
    }
  }

  /** One more entry keeps everything in place. */
  lemma PutInPlace(found: seq<Entry>, key: string, value: Value, item: Value, k: nat, at: seq<nat>, from: seq<nat>,
                   depth: nat)
      returns (at': seq<nat>, from': seq<nat>)
    requires item.Mapping? && k < |item.entries| && key == Take(item.entries[k].key, 80)
    requires EntriesAt(Mapping(found), item.entries, at, from, depth) && forall j :: 0 <= j < |from| ==> from[j] < k
    requires PrunedFrom(value, item.entries[k].value, depth + 1)
    ensures EntriesAt(Mapping(Put(found, key, value)), item.entries, at', from', depth)
    ensures forall j :: 0 <= j < |from'| ==> from'[j] < k + 1
  {
    hide Take, PrunedFrom, Put;
    if j :| 0 <= j < |found| && found[j].key == key {
      PutReplaces(found, key, value, j);
      at', from' := at, from[j := k];
      ReplacedInPlace(found, key, value, item, k, at, from, depth, j);
    } else {
      PutAppends(found, key, value);
      at', from' := at + [k], from + [k];
      AddedInPlace(found, key, value, item, k, at, from, depth);
    }
  }

  lemma ReplacedInPlace(found: seq<Entry>, key: string, value: Value, item: Value, k: nat, at: seq<nat>, from: seq<nat>,
                        depth: nat, j: nat)
    requires item.Mapping? && k < |item.entries| && key == Take(item.entries[k].key, 80)
    requires EntriesAt(Mapping(found), item.entries, at, from, depth) && forall j :: 0 <= j < |from| ==> from[j] < k
    requires PrunedFrom(value, item.entries[k].value, depth + 1) && j < |found| && found[j].key == key
    ensures EntriesAt(Mapping(found[j := Entry(key, value)]), item.entries, at, from[j := k], depth)
  {
    hide Take, PrunedFrom;
  }

  lemma AddedInPlace(found: seq<Entry>, key: string, value: Value, item: Value, k: nat, at: seq<nat>, from: seq<nat>,
                     depth: nat)
    requires item.Mapping? && k < |item.entries| && key == Take(item.entries[k].key, 80)
    requires EntriesAt(Mapping(found), item.entries, at, from, depth) && forall j :: 0 <= j < |from| ==> from[j] < k
    requires PrunedFrom(value, item.entries[k].value, depth + 1) && forall j :: 0 <= j < |found| ==> found[j].key != key
    ensures EntriesAt(Mapping(found + [Entry(key, value)]), item.entries, at + [k], from + [k], depth)
  {
    hide Take, PrunedFrom;
  }

  lemma {:induction false} EntriesPrune(item: Value, k: nat, found: seq<Entry>, at: seq<nat>, from: seq<nat>,
                                        remaining: int, depth: nat)
    requires item.Mapping? && k <= Min(24, |item.entries|)
    requires EntriesAt(Mapping(found), item.entries, at, from, depth) && forall j :: 0 <= j < |from| ==> from[j] < k
    ensures EntriesFrom(Mapping(TrimEntries(item, k, found, remaining, depth)), item.entries, depth)
    decreases item, 24 - k
  {
    hide Dump, Trim, PrunedFrom, EntriesAt, Quote, Put;
    if k < Min(24, |item.entries|) {
      var key := Take(item.entries[k].key, 80);
      if remaining - KeyCost(key) >= 8 {
        var budget := Min(700, remaining - KeyCost(key));
        var kept := Trim(item.entries[k].value, budget, depth + 1);
        TrimPrunes(item.entries[k].value, budget, depth + 1);
        var at', from' := PutInPlace(found, key, kept, item, k, at, from, depth);
        var cost := KeyCost(key) + |Dump(kept)|;
        if cost <= remaining {
          EntriesPrune(item, k + 1, Put(found, key, kept), at', from', remaining - cost, depth);
        } else {
          EntriesPrune(item, k + 1, found, at, from, remaining, depth);
        }
      }
    }
  }

  lemma AppendInPlace(item: Value, k: nat, found: seq<Value>, at: seq<nat>, kept: Value, depth: nat)
    requires item.List? && k < |item.items| && ItemsAt(List(found), item.items, at, depth)
    requires (forall j :: 0 <= j < |at| ==> at[j] < k) && PrunedFrom(kept, item.items[k], depth + 1)
    ensures ItemsAt(List(found + [kept]), item.items, at + [k], depth)
  {
    hide PrunedFrom;
  }

  lemma {:induction false} ItemsPrune(item: Value, k: nat, found: seq<Value>, at: seq<nat>, remaining: int, depth: nat)
    requires item.List? && k <= Min(16, |item.items|)
    requires ItemsAt(List(found), item.items, at, depth) && forall j :: 0 <= j < |at| ==> at[j] < k
    ensures ItemsFrom(List(TrimItems(item, k, found, remaining, depth)), item.items, depth)
    decreases item, 24 - k
  {
    hide Dump, Trim, PrunedFrom, ItemsAt;
    if k < Min(16, |item.items|) && remaining >= 8 {
      var budget := Min(500, remaining - 1);
      var kept := Trim(item.items[k], budget, depth + 1);
      TrimPrunes(item.items[k], budget, depth + 1);
      AppendInPlace(item, k, found, at, kept, depth);
      var cost := |Dump(kept)| + 1;
      if cost <= remaining {
        ItemsPrune(item, k + 1, found + [kept], at + [k], remaining - cost, depth);
      } else {
        ItemsPrune(item, k + 1, found, at, remaining, depth);
      }
    }
  }
}
