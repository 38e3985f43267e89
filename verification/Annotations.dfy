/**
  Highlighting annotated text: annotations of a paragraph are clipped to its runs, every run is cut
  at all annotation boundaries, and a piece is marked with the annotations that span it. Character by
  character this is exactly the annotations that cover the character.
 */
module Annotations {
  import opened Basics

  datatype Mark = Mark(caption: string, color: string, note: string)

  datatype Span = Span(start: int, end: int, mark: Mark)

  datatype Segment = Segment(text: string, marks: seq<Mark>)

  /** A paragraph holds runs of text and other nodes, such as images and tables. */
  datatype Inline = Run(id: string, text: string) | Other

  // ---- Finding the selected text ----

  predicate Matches(text: string, sought: string, i: int) {
    0 <= i && i + |sought| <= |text| && text[i..i + |sought|] == sought
  }

  /** The first match at or after `from`, or -1. */
  function Find(text: string, sought: string, from: nat): (i: int)
    ensures i == -1 || (from <= i && Matches(text, sought, i))
    ensures forall j :: from <= j && Matches(text, sought, j) ==> i != -1 && i <= j
    decreases |text| + 1 - from
  {
    if from > |text| then -1
    else if Matches(text, sought, from) then from
    else Find(text, sought, from + 1)
  }

  ghost predicate Ascending(s: seq<int>) {
    forall i, j :: 0 <= i < j < |s| ==> s[i] < s[j]
  }

  /** All occurrences of the sought text, overlapping ones included, in order. */
  method FindTextOccurrences(text: string, sought: string) returns (found: seq<int>)
    ensures Ascending(found)
    ensures forall i :: i in found <==> Matches(text, sought, i)
  {
    found := [];
    var from := 0;
    while true
      invariant 0 <= from && Ascending(found)
      invariant forall i :: i in found <==> 0 <= i < from && Matches(text, sought, i)
      invariant from <= |text| + 1
      decreases |text| + 1 - from
    {
      var index := Find(text, sought, from);
      if index < 0 {
        return;
      }
      assert forall j :: 0 <= j < |found| ==> found[j] in found;
      found := found + [index];
      from := index + 1;
    }
  }

  datatype Resolution = Resolved(start: int, end: int) | NotFound | Ambiguous | OutOfBounds

  /**
    Which part of the text an annotation selects: all of it without a selection, else the requested
    occurrence of the selected text, which must exist and, without an index, be the only one.
   */
  method ResolveSelectedSpan(text: string, selected: string, whole: bool, index: int)
      returns (r: Resolution, found: seq<int>)
    requires index >= -1
    ensures whole ==> r == Resolved(0, |text|)
    ensures !whole ==> Ascending(found) && forall i :: i in found <==> Matches(text, selected, i)
    ensures !whole ==> r == if |found| == 0 then NotFound
                            else if index == -1 && |found| > 1 then Ambiguous
                            else if index >= |found| then OutOfBounds
                            else Resolved(found[Max(index, 0)], found[Max(index, 0)] + |selected|)
    ensures r.Resolved? ==> 0 <= r.start <= r.end <= |text| && (!whole ==> text[r.start..r.end] == selected)
  {
    found := [];
    if whole {
      return Resolved(0, |text|), found;
    }
    found := FindTextOccurrences(text, selected);
    if |found| == 0 {
      return NotFound, found;
    }
    var chosen := index;
    if index == -1 {
      if |found| > 1 {
        return Ambiguous, found;
      }
      chosen := 0;
    } else if index >= |found| {
      return OutOfBounds, found;
    }
    assert found[chosen] in found;
    r := Resolved(found[chosen], found[chosen] + |selected|);
  }

  // ---- Cutting a run ----

  /** Resolved annotations never start or end before the text. */
  ghost predicate Placed(spans: seq<Span>) {
    forall i :: 0 <= i < |spans| ==> 0 <= spans[i].start && 0 <= spans[i].end
  }

  function InsertBreak(s: seq<int>, x: int): seq<int> {
    if s == [] || x < s[0] then [x] + s
    else if x == s[0] then s
    else [s[0]] + InsertBreak(s[1..], x)
  }

  /** All boundaries, each once, in order. */
  function Breaks(n: int, spans: seq<Span>): seq<int> {
    if spans == [] then InsertBreak([0], n)
    else
      var k := |spans| - 1;
      InsertBreak(InsertBreak(Breaks(n, spans[..k]), spans[k].start), spans[k].end)
  }

  /** The marks of the annotations that reach over `lo .. hi`, in order. */
  function Spanning(spans: seq<Span>, lo: int, hi: int): seq<Mark> {
    if spans == [] then []
    else
      var k := |spans| - 1;
      Spanning(spans[..k], lo, hi) + if spans[k].start <= lo && spans[k].end >= hi then [spans[k].mark] else []
  }

  /** The part `lo .. hi` of the text, as far as the text goes. */
  function Slice(text: string, lo: nat, hi: nat): string
    requires lo <= hi
  {
    text[Min(lo, |text|)..Min(hi, |text|)]
  }

  // ---- The meaning, character by character ----

  datatype Glyph = Glyph(letter: char, marks: seq<Mark>)

  /** The marks of the annotations that cover position `i`, in order. */
  function MarksAt(spans: seq<Span>, i: int): seq<Mark> {
    if spans == [] then []
    else
      var k := |spans| - 1;
      MarksAt(spans[..k], i) + if spans[k].start <= i < spans[k].end then [spans[k].mark] else []
  }

  function Glyphs(s: Segment): seq<Glyph> {
    seq(|s.text|, i requires 0 <= i < |s.text| => Glyph(s.text[i], s.marks))
  }

  /** What is shown for a list of segments. */
  function Shown(segments: seq<Segment>): seq<Glyph> {
    if segments == [] then []
    else
      var s := segments[|segments| - 1];
      Shown(segments[..|segments| - 1]) + Glyphs(s)
  }

  function TextOf(segments: seq<Segment>): string {
    if segments == [] then "" else TextOf(segments[..|segments| - 1]) + segments[|segments| - 1].text
  }

  /** What should be shown for a text. */
  function Meaning(text: string, spans: seq<Span>): seq<Glyph> {
    seq(|text|, i requires 0 <= i < |text| => Glyph(text[i], MarksAt(spans, i)))
  }

  function Letters(glyphs: seq<Glyph>): string {
    seq(|glyphs|, i requires 0 <= i < |glyphs| => glyphs[i].letter)
  }

  /** The text that is shown is the text of the segments. */
  lemma {:induction false} ShownText(segments: seq<Segment>)
    ensures Letters(Shown(segments)) == TextOf(segments)
  {
    if segments != [] {
      ShownText(segments[..|segments| - 1]);
    }
  }

  lemma ShownAppends(segments: seq<Segment>, s: Segment)
    ensures Shown(segments + [s]) == Shown(segments) + Glyphs(s)
  {
    hide Glyphs;
    assert (segments + [s])[..|segments|] == segments;
  }

  lemma ShownJoinsMore(a: seq<Segment>, b: seq<Segment>, s: Segment)
    requires Shown(a + b) == Shown(a) + Shown(b)
    ensures Shown(a + (b + [s])) == Shown(a) + Shown(b + [s])
  {
    hide Shown, Glyphs;
    ShownAppends(b, s);
    ShownAppends(a + b, s);
    assert (a + b) + [s] == a + (b + [s]);
    assert (Shown(a) + Shown(b)) + Glyphs(s) == Shown(a) + (Shown(b) + Glyphs(s));
  }

  lemma {:induction false} ShownJoins(a: seq<Segment>, b: seq<Segment>)
    ensures Shown(a + b) == Shown(a) + Shown(b)
    decreases |b|
  {
    hide Glyphs;
    if b == [] {
      assert a + b == a;
    } else {
      var front, last := b[..|b| - 1], b[|b| - 1];
      ShownJoins(a, front);
      ShownJoinsMore(a, front, last);
      assert front + [last] == b;
    }
  }

  /** A position has a mark exactly when an annotation covers it. */
  lemma {:induction false} MarkedIffCovered(spans: seq<Span>, i: int)
    ensures MarksAt(spans, i) != [] <==> exists k :: 0 <= k < |spans| && spans[k].start <= i < spans[k].end
  {
    if spans != [] {
      var k := |spans| - 1;
      MarkedIffCovered(spans[..k], i);
      assert forall j :: 0 <= j < k ==> spans[..k][j] == spans[j];
      assert spans[k].start <= i < spans[k].end ==> MarksAt(spans, i) != [];
    }
  }

  /** `at` lists, in order, the places of exactly those of the first `n` spans that cover `i`. */
  ghost predicate CoverPlaces(spans: seq<Span>, i: int, at: seq<nat>, n: nat)
    requires n <= |spans|
  {
    && (forall a, b :: 0 <= a < b < |at| ==> at[a] < at[b])
    && (forall k :: k in at <==> 0 <= k < n && spans[k].start <= i < spans[k].end)
  }

  ghost predicate MarksOf(spans: seq<Span>, at: seq<nat>, marks: seq<Mark>) {
    |marks| == |at| && forall j :: 0 <= j < |at| ==> at[j] < |spans| && marks[j] == spans[at[j]].mark
  }

  lemma CoverPlacesMore(spans: seq<Span>, i: int, at: seq<nat>, n: nat)
    requires n < |spans| && CoverPlaces(spans, i, at, n)
    ensures CoverPlaces(spans, i, if spans[n].start <= i < spans[n].end then at + [n] else at, n + 1)
  {
    assert forall j :: 0 <= j < |at| ==> at[j] in at;
    assert forall k :: k in at + [n] <==> k in at || k == n;
  }

  lemma MarksOfMore(spans: seq<Span>, at: seq<nat>, marks: seq<Mark>, n: nat)
    requires n < |spans| && MarksOf(spans, at, marks)
    ensures MarksOf(spans, at + [n], marks + [spans[n].mark])
  {
  }

  lemma NoPlaces(spans: seq<Span>, i: int)
    ensures CoverPlaces(spans, i, [], 0) && MarksOf(spans, [], MarksAt(spans[..0], i))
  {
    assert spans[..0] == [];
  }

  lemma {:induction false} MarkPlaces(spans: seq<Span>, i: int, n: nat) returns (at: seq<nat>)
    requires n <= |spans|
    ensures CoverPlaces(spans, i, at, n) && MarksOf(spans, at, MarksAt(spans[..n], i))
  {
    hide CoverPlaces, MarksOf, MarksAt;
    at := [];
    if n == 0 {
      NoPlaces(spans, i);
    } else {
      var k := n - 1;
      at := MarkPlaces(spans, i, k);
      MarksAtMore(spans[..k], spans[k], i);
      assert spans[..n] == spans[..k] + [spans[k]];
      CoverPlacesMore(spans, i, at, k);
      MarksOfMore(spans, at, MarksAt(spans[..k], i), k);
      if spans[k].start <= i < spans[k].end {
        at := at + [k];
      } else {
        assert MarksAt(spans[..k], i) + [] == MarksAt(spans[..k], i);
      }
    }
  }

  /** The marks at a position are those of the annotations that cover it, in the order of the annotations. */
  lemma MarksInOrder(spans: seq<Span>, i: int) returns (at: seq<nat>)
    ensures CoverPlaces(spans, i, at, |spans|) && MarksOf(spans, at, MarksAt(spans, i))
  {
    hide CoverPlaces, MarksAt;
    at := MarkPlaces(spans, i, |spans|);
    assert spans[..|spans|] == spans;
  }

  // ---- Breaks ----

  lemma {:induction false} InsertBreakKeeps(s: seq<int>, x: int)
    requires Ascending(s)
    ensures Ascending(InsertBreak(s, x))
    ensures forall y :: y in InsertBreak(s, x) <==> y in s || y == x
  {
    if s != [] && x > s[0] {
      InsertBreakKeeps(s[1..], x);
      var r := InsertBreak(s[1..], x);
      assert s == [s[0]] + s[1..];
      forall j | 0 <= j < |r|
        ensures s[0] < r[j]
      {
        assert r[j] in r;
      }
    }
  }

  lemma OneBreak()
    ensures Ascending([0])
  {
  }

  lemma {:induction false} BreaksMeaning(n: nat, spans: seq<Span>)
    requires Placed(spans)
    ensures Ascending(Breaks(n, spans))
    ensures 0 in Breaks(n, spans) && n in Breaks(n, spans)
    ensures forall y :: y in Breaks(n, spans) ==> 0 <= y
    ensures forall i :: 0 <= i < |spans| ==> spans[i].start in Breaks(n, spans) && spans[i].end in Breaks(n, spans)
  {
    hide InsertBreak, Ascending;
    if spans == [] {
      OneBreak();
      InsertBreakKeeps([0], n);
    } else {
      var k := |spans| - 1;
      BreaksMeaning(n, spans[..k]);
      var b := Breaks(n, spans[..k]);
      InsertBreakKeeps(b, spans[k].start);
      InsertBreakKeeps(InsertBreak(b, spans[k].start), spans[k].end);
      assert forall i :: 0 <= i < k ==> spans[i] == spans[..k][i];
    }
  }

  /** No boundary lies strictly between two neighbouring breaks. */
  lemma NothingBetween(breaks: seq<int>, k: nat, y: int)
    requires Ascending(breaks) && k + 1 < |breaks| && y in breaks
    ensures y <= breaks[k] || breaks[k + 1] <= y
  {
    var j :| 0 <= j < |breaks| && breaks[j] == y;
    if k + 1 < j {
      assert breaks[k + 1] < breaks[j];
    } else if j < k {
      assert breaks[j] < breaks[k];
    }
  }

  /** Where no annotation starts or ends inside a piece, spanning the piece is covering each character of it. */
  lemma {:induction false} SpanningIsCovering(spans: seq<Span>, lo: int, hi: int, i: int)
    requires lo <= i < hi
    requires forall j :: 0 <= j < |spans| ==> spans[j].start <= lo || hi <= spans[j].start
    requires forall j :: 0 <= j < |spans| ==> spans[j].end <= lo || hi <= spans[j].end
    ensures Spanning(spans, lo, hi) == MarksAt(spans, i)
  {
    if spans != [] {
      SpanningIsCovering(spans[..|spans| - 1], lo, hi, i);
    }
  }

  lemma ShownMore(text: string, spans: seq<Span>, lo: nat, hi: nat, marks: seq<Mark>, done: seq<Segment>)
    requires lo <= hi <= |text|
    requires Shown(done) == Meaning(text, spans)[..lo]
    requires forall i :: lo <= i < hi ==> MarksAt(spans, i) == marks
    ensures Shown(done + [Segment(text[lo..hi], marks)]) == Meaning(text, spans)[..hi]
  {
    hide MarksAt;
    var piece := Segment(text[lo..hi], marks);
    assert (done + [piece])[..|done|] == done;
    var r := Shown(done + [piece]);
    assert |r| == hi;
    forall i | 0 <= i < hi
      ensures r[i] == Meaning(text, spans)[i]
    {
      if i < lo {
        assert r[i] == Shown(done)[i];
      } else {
        assert r[i] == Glyph(piece.text[i - lo], marks);
      }
    }
  }

  /** One more piece continues the meaning up to the next break. */
  lemma PieceContinues(text: string, spans: seq<Span>, breaks: seq<int>, k: nat, done: seq<Segment>)
    requires Placed(spans) && breaks == Breaks(|text|, spans) && k + 1 < |breaks|
    requires 0 <= breaks[k] < breaks[k + 1]
    requires Shown(done) == Meaning(text, spans)[..Min(breaks[k], |text|)]
    ensures Min(breaks[k], |text|) < Min(breaks[k + 1], |text|) ==>
      Shown(done + [Segment(Slice(text, breaks[k], breaks[k + 1]), Spanning(spans, breaks[k], breaks[k + 1]))])
      == Meaning(text, spans)[..Min(breaks[k + 1], |text|)]
  {
    hide Breaks, Ascending, MarksAt, Spanning;
    var lo, hi := breaks[k], breaks[k + 1];
    BreaksMeaning(|text|, spans);
    NothingBetween(breaks, k, |text|);
    if lo < |text| {
      forall j | 0 <= j < |spans|
        ensures spans[j].start <= lo || hi <= spans[j].start
        ensures spans[j].end <= lo || hi <= spans[j].end
      {
        NothingBetween(breaks, k, spans[j].start);
        NothingBetween(breaks, k, spans[j].end);
      }
      forall i | lo <= i < hi
        ensures Spanning(spans, lo, hi) == MarksAt(spans, i)
      {
        SpanningIsCovering(spans, lo, hi, i);
      }
      ShownMore(text, spans, lo, hi, Spanning(spans, lo, hi), done);
    }
  }

  lemma UnmarkedMeaning(text: string)
    ensures Shown([Segment(text, [])]) == Meaning(text, [])
  {
    assert Shown([]) == [];
    assert [Segment(text, [])][..0] == [];
  }

  /** Cuts the text at every boundary and marks each piece with the annotations that span it. */
  method ApplyAnnotations(text: string, spans: seq<Span>) returns (r: seq<Segment>)
    requires Placed(spans)
    ensures Shown(r) == Meaning(text, spans)
  {
    if spans == [] {
      UnmarkedMeaning(text);
      return [Segment(text, [])];
    }
    var breaks := Breaks(|text|, spans);
    BreaksMeaning(|text|, spans);
    FirstBreak(breaks);
    r := [];
    for k := 0 to |breaks| - 1
      invariant Shown(r) == Meaning(text, spans)[..Min(breaks[k], |text|)]
    {
      var lo, hi := breaks[k], breaks[k + 1];
      assert lo in breaks && lo < hi;
      var piece := Slice(text, lo, hi);
      PieceContinues(text, spans, breaks, k, r);
      if piece != [] {
        r := r + [Segment(piece, Spanning(spans, lo, hi))];
      }
    }
    LastBreak(breaks, |text|);
  }

  lemma FirstBreak(breaks: seq<int>)
    requires Ascending(breaks) && 0 in breaks && forall y :: y in breaks ==> 0 <= y
    ensures breaks[0] == 0
  {
    assert breaks[0] in breaks;
  }

  lemma LastBreak(breaks: seq<int>, n: nat)
    requires Ascending(breaks) && n in breaks
    ensures n <= breaks[|breaks| - 1]
  {
    var j :| 0 <= j < |breaks| && breaks[j] == n;
  }

  lemma MarksAtMore(spans: seq<Span>, s: Span, i: int)
    ensures MarksAt(spans + [s], i) == MarksAt(spans, i) + if s.start <= i < s.end then [s.mark] else []
  {
    assert (spans + [s])[..|spans|] == spans;
  }

  // ---- A paragraph and its runs ----

  function RunSpans(byRun: map<string, seq<Span>>, id: string): seq<Span> {
    if id in byRun then byRun[id] else []
  }

  /**
    Over a run of `n` characters, `r` marks what `own` does at each place and `paragraph` at its place
    in the paragraph.
   */
  ghost predicate Combines(r: seq<Span>, own: seq<Span>, paragraph: seq<Span>, cursor: nat, n: nat) {
    forall i :: 0 <= i < n ==> MarksAt(r, i) == MarksAt(own, i) + MarksAt(paragraph, cursor + i)
  }

  lemma OutsideIsSkipped(r: seq<Span>, own: seq<Span>, paragraph: seq<Span>, item: Span, cursor: nat, n: nat)
    requires Combines(r, own, paragraph, cursor, n)
    requires Max(0, item.start - cursor) >= Min(n, item.end - cursor)
    ensures Combines(r, own, paragraph + [item], cursor, n)
  {
    hide MarksAt;
    forall i | 0 <= i < n
      ensures MarksAt(r, i) == MarksAt(own, i) + MarksAt(paragraph + [item], cursor + i)
    {
      MarksAtMore(paragraph, item, cursor + i);
    }
  }

  lemma InsideIsClipped(r: seq<Span>, own: seq<Span>, paragraph: seq<Span>, item: Span, cursor: nat, n: nat)
    requires Combines(r, own, paragraph, cursor, n)
    ensures Combines(r + [Span(Max(0, item.start - cursor), Min(n, item.end - cursor), item.mark)],
                     own, paragraph + [item], cursor, n)
  {
    hide MarksAt;
    var clipped := Span(Max(0, item.start - cursor), Min(n, item.end - cursor), item.mark);
    forall i | 0 <= i < n
      ensures MarksAt(r + [clipped], i) == MarksAt(own, i) + MarksAt(paragraph + [item], cursor + i)
    {
      MarksAtMore(paragraph, item, cursor + i);
      MarksAtMore(r, clipped, i);
    }
  }

  /**
    The annotations of one run: its own, then those of the paragraph clipped to it. The clipped ones
    cover a character of the run exactly when the paragraph's cover its place in the paragraph.
   */
  method RunAnnotationsForSegment(id: string, text: string, byRun: map<string, seq<Span>>, paragraph: seq<Span>,
                                  cursor: nat)
    returns (r: seq<Span>)
    requires Placed(RunSpans(byRun, id))
    ensures Placed(r)
    ensures Combines(r, RunSpans(byRun, id), paragraph, cursor, |text|)
    ensures RunSpans(byRun, id) <= r
    ensures forall j :: |RunSpans(byRun, id)| <= j < |r| ==> r[j].start < r[j].end <= |text|
  {
    var own := RunSpans(byRun, id);
    r := own;
    var runEnd := cursor + |text|;
    assert paragraph[..0] == [];
    for k := 0 to |paragraph|
      invariant Placed(r) && own <= r
      invariant Combines(r, own, paragraph[..k], cursor, |text|)
      invariant forall j :: |own| <= j < |r| ==> r[j].start < r[j].end <= |text|
    {
      hide Combines;
      var item := paragraph[k];
      assert paragraph[..k + 1] == paragraph[..k] + [item];
      var localStart, localEnd := Max(0, item.start - cursor), Min(|text|, item.end - cursor);
      if item.end <= cursor || item.start >= runEnd || localStart >= localEnd {
        OutsideIsSkipped(r, own, paragraph[..k], item, cursor, |text|);
        continue;
      }
      InsideIsClipped(r, own, paragraph[..k], item, cursor, |text|);
      r := r + [Span(localStart, localEnd, item.mark)];
    }
    assert paragraph[..|paragraph|] == paragraph;
  }

  function ParagraphText(content: seq<Inline>): string {
    if content == [] then ""
    else
      var k := |content| - 1;
      ParagraphText(content[..k]) + if content[k].Run? then content[k].text else ""
  }

  lemma Unplaced()
    ensures Placed([])
  {
  }

  function RunMeaning(text: string, own: seq<Span>, paragraph: seq<Span>, offset: nat): seq<Glyph> {
    seq(|text|, i requires 0 <= i < |text| => Glyph(text[i], MarksAt(own, i) + MarksAt(paragraph, offset + i)))
  }

  /**
    What should be shown for the runs of a paragraph: each character under its run's and its paragraph's
    annotations.
   */
  function ParagraphMeaning(content: seq<Inline>, byRun: map<string, seq<Span>>, paragraph: seq<Span>): seq<Glyph> {
    if content == [] then []
    else
      var k := |content| - 1;
      ParagraphMeaning(content[..k], byRun, paragraph) +
      if content[k].Run?
      then RunMeaning(content[k].text, RunSpans(byRun, content[k].id), paragraph, |ParagraphText(content[..k])|)
      else []
  }

  lemma CombinedMeaning(text: string, r: seq<Span>, own: seq<Span>, paragraph: seq<Span>, cursor: nat)
    requires Combines(r, own, paragraph, cursor, |text|)
    ensures Meaning(text, r) == RunMeaning(text, own, paragraph, cursor)
  {
    hide MarksAt;
  }

  /** Shows the runs of a paragraph in order, counting the characters passed. */
  method RenderParagraph(content: seq<Inline>, byRun: map<string, seq<Span>>, paragraph: seq<Span>)
      returns (r: seq<Segment>)
    requires forall id <- byRun :: Placed(byRun[id])
    ensures Shown(r) == ParagraphMeaning(content, byRun, paragraph)
    ensures TextOf(r) == ParagraphText(content)
  {
    hide Combines, RunMeaning, Placed, Meaning;
    assert Placed([]) by { Unplaced(); }
    r := [];
    var cursor := 0;
    assert content[..0] == [];
    for k := 0 to |content|
      invariant cursor == |ParagraphText(content[..k])|
      invariant Shown(r) == ParagraphMeaning(content[..k], byRun, paragraph)
    {
      var node := content[k];
      assert content[..k + 1][..k] == content[..k];
      if node.Run? {
        var spans := RunAnnotationsForSegment(node.id, node.text, byRun, paragraph, cursor);
        var pieces := ApplyAnnotations(node.text, spans);
        ShownJoins(r, pieces);
        CombinedMeaning(node.text, spans, RunSpans(byRun, node.id), paragraph, cursor);
        r := r + pieces;
        cursor := cursor + |node.text|;
      }
    }
    assert content[..|content|] == content;
    ShownText(r);
    MeaningText(content, byRun, paragraph);
  }

  lemma {:induction false} MeaningText(content: seq<Inline>, byRun: map<string, seq<Span>>, paragraph: seq<Span>)
    ensures Letters(ParagraphMeaning(content, byRun, paragraph)) == ParagraphText(content)
  {
    if content != [] {
      MeaningText(content[..|content| - 1], byRun, paragraph);
    }
  }

  /** The annotations of a paragraph mean the same however the paragraph is divided into runs. */
  lemma {:induction false} DivisionDoesNotMatter(content: seq<Inline>, paragraph: seq<Span>)
    ensures ParagraphMeaning(content, map[], paragraph) == Meaning(ParagraphText(content), paragraph)
  {
    if content != [] {
      var k := |content| - 1;
      DivisionDoesNotMatter(content[..k], paragraph);
      if content[k].Run? {
        hide MarksAt;
        MeaningJoins(ParagraphText(content[..k]), content[k].text, paragraph);
      }
    }
  }

  lemma MeaningJoins(a: string, b: string, paragraph: seq<Span>)
    ensures Meaning(a + b, paragraph) == Meaning(a, paragraph) + RunMeaning(b, [], paragraph, |a|)
  {
    hide MarksAt;
    forall i | 0 <= i < |a + b|
      ensures Meaning(a + b, paragraph)[i] == (Meaning(a, paragraph) + RunMeaning(b, [], paragraph, |a|))[i]
    {
      NoMarks(i - |a|);
    }
  }

  lemma NoMarks(i: int)
    ensures MarksAt([], i) == []
  {
  }

  /** Whether an annotation of run `k` covers character `p` of the paragraph. */
  ghost predicate RunCovers(content: seq<Inline>, byRun: map<string, seq<Span>>, k: nat, p: int)
    requires k < |content|
  {
    content[k].Run? &&
    var offset, own := |ParagraphText(content[..k])|, RunSpans(byRun, content[k].id);
    offset <= p < offset + |content[k].text| &&
    exists j :: 0 <= j < |own| && own[j].start <= p - offset < own[j].end
  }

  ghost predicate Covered(content: seq<Inline>, byRun: map<string, seq<Span>>, paragraph: seq<Span>, p: int) {
    (exists j :: 0 <= j < |paragraph| && paragraph[j].start <= p < paragraph[j].end) ||
    exists k :: 0 <= k < |content| && RunCovers(content, byRun, k, p)
  }

  lemma {:induction false} TextGrows(content: seq<Inline>, k: nat)
    requires k < |content|
    ensures |ParagraphText(content[..k])| + (if content[k].Run? then |content[k].text| else 0) <=
      |ParagraphText(content)|
    decreases |content|
  {
    if k < |content| - 1 {
      var front := content[..|content| - 1];
      TextGrows(front, k);
      assert front[..k] == content[..k];
    }
  }

  lemma FrontCovers(content: seq<Inline>, byRun: map<string, seq<Span>>, k: nat, p: nat)
    requires content != [] && k < |content| - 1
    ensures var front := content[..|content| - 1];
      && RunCovers(front, byRun, k, p) == RunCovers(content, byRun, k, p)
      && (RunCovers(front, byRun, k, p) ==> p < |ParagraphText(front)|)
  {
    var front := content[..|content| - 1];
    assert front[..k] == content[..k];
    TextGrows(front, k);
  }

  /** A character before the last run. */
  lemma FrontMeaning(content: seq<Inline>, byRun: map<string, seq<Span>>, paragraph: seq<Span>, p: nat)
    requires content != [] && p < |ParagraphText(content[..|content| - 1])|
    ensures var front := content[..|content| - 1];
      && p < |ParagraphMeaning(front, byRun, paragraph)| <= |ParagraphMeaning(content, byRun, paragraph)|
      && ParagraphMeaning(content, byRun, paragraph)[p] == ParagraphMeaning(front, byRun, paragraph)[p]
      && !RunCovers(content, byRun, |content| - 1, p)
  {
    hide MarksAt, RunMeaning;
    MeaningText(content[..|content| - 1], byRun, paragraph);
  }

  /** A character of the last run. */
  lemma LastRunMarks(content: seq<Inline>, byRun: map<string, seq<Span>>, paragraph: seq<Span>, p: nat)
    requires content != [] && |ParagraphText(content[..|content| - 1])| <= p < |ParagraphText(content)|
    ensures |ParagraphMeaning(content, byRun, paragraph)| == |ParagraphText(content)|
    ensures var last, i := content[|content| - 1], p - |ParagraphText(content[..|content| - 1])|;
      && last.Run? && i < |last.text|
      && ParagraphMeaning(content, byRun, paragraph)[p].marks ==
           MarksAt(RunSpans(byRun, last.id), i) + MarksAt(paragraph, p)
      && (MarksAt(RunSpans(byRun, last.id), i) != [] <==> RunCovers(content, byRun, |content| - 1, p))
  {
    hide MarksAt;
    var front, last := content[..|content| - 1], content[|content| - 1];
    MeaningText(content, byRun, paragraph);
    MeaningText(front, byRun, paragraph);
    var offset := |ParagraphText(front)|;
    var own := RunMeaning(last.text, RunSpans(byRun, last.id), paragraph, offset);
    assert ParagraphMeaning(content, byRun, paragraph)[p] == own[p - offset];
    MarkedIffCovered(RunSpans(byRun, last.id), p - offset);
  }

  /** A character of the paragraph is inside a mark exactly when some annotation covers it. */
  lemma {:induction false} MarkedIffAnnotated(content: seq<Inline>, byRun: map<string, seq<Span>>, paragraph: seq<Span>,
                                              p: nat)
    requires p < |ParagraphText(content)|
    ensures |ParagraphMeaning(content, byRun, paragraph)| == |ParagraphText(content)|
    ensures ParagraphMeaning(content, byRun, paragraph)[p].marks != [] <==> Covered(content, byRun, paragraph, p)
    decreases |content|
  {
    hide MarksAt, ParagraphMeaning, RunCovers;
    MeaningText(content, byRun, paragraph);
    var last := |content| - 1;
    var front := content[..last];
    var offset := |ParagraphText(front)|;
    forall k | 0 <= k < last
      ensures RunCovers(front, byRun, k, p) == RunCovers(content, byRun, k, p)
      ensures RunCovers(front, byRun, k, p) ==> p < offset
    {
      FrontCovers(content, byRun, k, p);
    }
    if p < offset {
      MarkedIffAnnotated(front, byRun, paragraph, p);
      FrontMeaning(content, byRun, paragraph, p);
    } else {
      LastRunMarks(content, byRun, paragraph, p);
      MarkedIffCovered(paragraph, p);
    }
  }
}
