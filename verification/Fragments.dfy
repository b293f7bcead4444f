/** Fragments: a text cut to a window, its occurrences marked, its cuts shown. */
module Fragments {
  import opened Collections
  import opened Encodings
  import opened Intervals
  import opened Patterns

  datatype FragmentSegment = FragmentSegment(text: string, highlighted: bool)

  /** Characters a fragment keeps, unless the occurrence alone is longer. */
  const FRAGMENT_CHARACTERS: nat := 240

  const ELLIPSIS: string := "…"

  /** The occurrence between equal margins, or against the end of a text that
      leaves one of them no room. */
  function Window(occurrence: Range, characters: nat): Range {
    var length := Less(occurrence.1, occurrence.0);
    var width := Max(FRAGMENT_CHARACTERS, length);
    var before := Less(width, length) / 2;
    var start := Less(occurrence.0, before);
    var end := Min(characters, start + width);
    (Min(Less(end, width), start), end)
  }

  /** The window holds the whole occurrence, is as long as the text allows,
      and centers the occurrence when it cuts both sides. */
  lemma WindowHoldsOccurrence(occurrence: Range, n: nat)
    requires occurrence.0 <= occurrence.1 <= n
    ensures var w, length := Window(occurrence, n), occurrence.1 - occurrence.0;
      && w.0 <= occurrence.0 && occurrence.1 <= w.1 <= n
      && w.1 - w.0 == Min(n, Max(240, length))
      && (0 < w.0 && w.1 < n ==> occurrence.0 - w.0 == Less(240, length) / 2)
  {
  }

  // ----- What a reader sees

  ghost function Text(segments: seq<FragmentSegment>): string {
    if segments == [] then "" else Text(segments[..|segments| - 1]) + segments[|segments| - 1].text
  }

  /** One flag: whether a character is highlighted. */
  ghost function Marks(n: nat, highlighted: bool): (marks: seq<bool>)
    ensures |marks| == n && forall i :: 0 <= i < n ==> marks[i] == highlighted
  {
    seq(n, _ => highlighted)
  }

  /** The flags of the characters of a fragment, in order. */
  ghost function Highlights(segments: seq<FragmentSegment>): seq<bool> {
    if segments == [] then []
    else
      var last := segments[|segments| - 1];
      Highlights(segments[..|segments| - 1]) + Marks(|last.text|, last.highlighted)
  }

  /** The flags the characters from `a` to `b` should have. */
  ghost function Wanted(ranges: seq<Range>, a: nat, b: nat): (marks: seq<bool>)
    requires a <= b
    ensures |marks| == b - a && forall i :: 0 <= i < b - a ==> (marks[i] <==> Covers(ranges, a + i))
  {
    seq(b - a, i requires 0 <= i => Covers(ranges, a + i))
  }

  ghost function EllipsisIf(cut: bool): string {
    if cut then ELLIPSIS else ""
  }

  /** The text of the window with an ellipsis on each cut side, highlighted
      exactly where an occurrence covers it. */
  ghost predicate IsFragment(text: string, occurrences: seq<Range>, segments: seq<FragmentSegment>)
    requires occurrences != []
  {
    var w := Window(occurrences[0], |text|);
    && w.0 <= w.1 <= |text|
    && Text(segments) == EllipsisIf(w.0 > 0) + text[w.0..w.1] + EllipsisIf(w.1 < |text|)
    && Highlights(segments)
       == Marks(|EllipsisIf(w.0 > 0)|, false) + Wanted(occurrences, w.0, w.1) + Marks(|EllipsisIf(w.1 < |text|)|, false)
    && forall k :: 0 <= k < |segments| ==> segments[k].text != ""
  }

  /** A side that is cut, and no other, shows an ellipsis that is not highlighted. */
  lemma CutsAreShown(text: string, occurrences: seq<Range>, segments: seq<FragmentSegment>)
    requires occurrences != [] && IsFragment(text, occurrences, segments)
    ensures var w, shown, marks := Window(occurrences[0], |text|), Text(segments), Highlights(segments);
      && (w.0 == 0 && w.1 == |text| ==> shown == text)
      && (w.0 == 0 && w.1 < |text| ==> shown == text[..w.1] + "…" && |marks| == w.1 + 1 && !marks[w.1])
      && (w.0 > 0 && w.1 == |text| ==> shown == "…" + text[w.0..] && marks != [] && !marks[0])
      && (w.0 > 0 && w.1 < |text| ==>
            shown == "…" + text[w.0..w.1] + "…" && |marks| == w.1 - w.0 + 2 && !marks[0] && !marks[|marks| - 1])
  {
  }

  // ----- Building it

  function Pushed(segments: seq<FragmentSegment>, text: string, highlighted: bool): seq<FragmentSegment> {
    if text == "" then segments else segments + [FragmentSegment(text, highlighted)]
  }

  lemma PushedShows(segments: seq<FragmentSegment>, text: string, highlighted: bool)
    ensures Text(Pushed(segments, text, highlighted)) == Text(segments) + text
    ensures Highlights(Pushed(segments, text, highlighted)) == Highlights(segments) + Marks(|text|, highlighted)
  {
    if text != "" {
      assert Pushed(segments, text, highlighted)[..|segments|] == segments;
    }
  }

  /** `occurrence` cut to the window. */
  function Clipped(occurrence: Range, w: Range): Range {
    (Max(occurrence.0, w.0), Min(occurrence.1, w.1))
  }

  function Visible(occurrences: seq<Range>, w: Range): (visible: seq<Range>) {
    if occurrences == [] then []
    else
      var before, last := Visible(occurrences[..|occurrences| - 1], w), occurrences[|occurrences| - 1];
      if last.0 < w.1 && last.1 > w.0 then before + [Clipped(last, w)] else before
  }

  /** Sorted ranges inside the window. */
  ghost predicate Inside(ranges: seq<Range>, w: Range) {
    && AreRanges(ranges, w.1)
    && forall k :: 0 <= k < |ranges| ==> w.0 <= ranges[k].0
  }

  lemma {:induction false} VisibleInside(occurrences: seq<Range>, w: Range, n: nat)
    requires AreRanges(occurrences, n) && w.0 <= w.1
    ensures Inside(Visible(occurrences, w), w)
    ensures Visible(occurrences, w) != [] ==>
              && occurrences != []
              && Visible(occurrences, w)[|Visible(occurrences, w)| - 1].1 <= occurrences[|occurrences| - 1].1
  {
    if occurrences != [] {
      VisibleInside(occurrences[..|occurrences| - 1], w, n);
    }
  }

  lemma {:induction false} VisibleCovers(occurrences: seq<Range>, w: Range, i: nat)
    requires w.0 <= i < w.1
    ensures Covers(Visible(occurrences, w), i) <==> Covers(occurrences, i)
  {
    if occurrences != [] {
      var before, last := occurrences[..|occurrences| - 1], occurrences[|occurrences| - 1];
      VisibleCovers(before, w, i);
      assert occurrences == before + [last];
      CoversNext(before, last, i);
      CoversNext(Visible(before, w), Clipped(last, w), i);
    }
  }

  /** What is shown up to character `at`. */
  ghost predicate Shown(text: string, ranges: seq<Range>, from: nat, at: nat, segments: seq<FragmentSegment>) {
    && from <= at <= |text|
    && Text(segments) == text[from..at]
    && Highlights(segments) == Wanted(ranges, from, at)
    && forall k :: 0 <= k < |segments| ==> segments[k].text != ""
  }

  /** Characters all flagged alike, shown. */
  lemma ShownNext(text: string, ranges: seq<Range>, from: nat, at: nat, segments: seq<FragmentSegment>, to: nat,
                  highlighted: bool)
    requires Shown(text, ranges, from, at, segments) && at <= to <= |text|
    requires forall i :: at <= i < to ==> (Covers(ranges, i) <==> highlighted)
    ensures Shown(text, ranges, from, to, Pushed(segments, text[at..to], highlighted))
  {
    var piece := text[at..to];
    PushedShows(segments, piece, highlighted);
    PushedHasText(segments, piece, highlighted);
    TextNext(text, from, at, to);
    WantedNext(ranges, from, at, to, highlighted);
  }

  lemma PushedHasText(segments: seq<FragmentSegment>, text: string, highlighted: bool)
    requires forall k :: 0 <= k < |segments| ==> segments[k].text != ""
    ensures forall k :: 0 <= k < |Pushed(segments, text, highlighted)| ==>
              Pushed(segments, text, highlighted)[k].text != ""
  {
  }

  lemma TextNext(text: string, from: nat, at: nat, to: nat)
    requires from <= at <= to <= |text|
    ensures text[from..to] == text[from..at] + text[at..to]
  {
  }

  lemma WantedNext(ranges: seq<Range>, from: nat, at: nat, to: nat, highlighted: bool)
    requires from <= at <= to && forall i :: at <= i < to ==> (Covers(ranges, i) <==> highlighted)
    ensures Wanted(ranges, from, to) == Wanted(ranges, from, at) + Marks(to - at, highlighted)
  {
    var all, before, after := Wanted(ranges, from, to), Wanted(ranges, from, at), Marks(to - at, highlighted);
    forall i | 0 <= i < to - from ensures all[i] == (before + after)[i] {
      assert all[i] <==> Covers(ranges, from + i);
    }
  }

  /** Where a shown prefix ends after `k` highlights. */
  function After(visible: seq<Range>, w: Range, k: nat): nat
    requires k <= |visible|
  {
    if k == 0 then w.0 else visible[k - 1].1
  }

  lemma BetweenHighlights(visible: seq<Range>, w: Range, k: nat)
    requires Inside(visible, w) && w.0 <= w.1 && k <= |visible|
    ensures w.0 <= After(visible, w, k) <= if k < |visible| then visible[k].0 else w.1
    ensures forall i :: After(visible, w, k) <= i < (if k < |visible| then visible[k].0 else w.1) ==>
              !Covers(visible, i)
    ensures k < |visible| ==> forall i :: visible[k].0 <= i < visible[k].1 ==> Covers(visible, i)
  {
  }

  /** The byte offsets of a window and its highlights. */
  ghost predicate Offsets(text: string, visible: seq<Range>, w: Range, bytes: seq<nat>) {
    && |bytes| == 2 * |visible| + 2
    && w.0 <= w.1 <= |text| && Inside(visible, w)
    && bytes[0] == ByteAt(text, w.0) && bytes[|bytes| - 1] == ByteAt(text, w.1)
    && forall k :: 0 <= k < |visible| ==>
         bytes[2 * k + 1] == ByteAt(text, visible[k].0) && bytes[2 * k + 2] == ByteAt(text, visible[k].1)
  }

  method Boundaries(text: string, visible: seq<Range>, w: Range) returns (bytes: seq<nat>)
    requires w.0 <= w.1 <= |text| && Inside(visible, w)
    ensures Offsets(text, visible, w, bytes)
  {
    BoundariesInOrder(visible, w);
    bytes := CharacterOffsets(text, [w.0] + Ends(visible) + [w.1], Width8());
    AreOffsets(text, visible, w, [w.0] + Ends(visible) + [w.1], bytes);
  }

  lemma AreOffsets(text: string, visible: seq<Range>, w: Range, positions: seq<nat>, bytes: seq<nat>)
    requires w.0 <= w.1 <= |text| && Inside(visible, w)
    requires positions == [w.0] + Ends(visible) + [w.1] && |bytes| == |positions|
    requires forall i :: 0 <= i < |bytes| ==> bytes[i] == OffsetOf(text, positions[i], Width8())
    ensures Offsets(text, visible, w, bytes)
  {
    forall k | 0 <= k < |visible|
      ensures bytes[2 * k + 1] == ByteAt(text, visible[k].0) && bytes[2 * k + 2] == ByteAt(text, visible[k].1)
    {
      EndsBetween(visible, w, k);
    }
  }

  lemma EndsBetween(visible: seq<Range>, w: Range, k: nat)
    requires k < |visible|
    ensures ([w.0] + Ends(visible) + [w.1])[2 * k + 1] == visible[k].0
    ensures ([w.0] + Ends(visible) + [w.1])[2 * k + 2] == visible[k].1
  {
    Enclosed(w.0, Ends(visible), w.1, 2 * k);
    Enclosed(w.0, Ends(visible), w.1, 2 * k + 1);
  }

  lemma Enclosed(a: nat, s: seq<nat>, b: nat, i: nat)
    requires i < |s|
    ensures ([a] + s + [b])[i + 1] == s[i]
  {
  }

  lemma BoundariesInOrder(visible: seq<Range>, w: Range)
    requires w.0 <= w.1 && Inside(visible, w)
    ensures NonDecreasing([w.0] + Ends(visible) + [w.1])
  {
    EndsInOrder(visible, w.1);
    EndsAfter(visible, w);
  }

  lemma {:induction false} EndsAfter(visible: seq<Range>, w: Range)
    requires Inside(visible, w)
    ensures forall i :: 0 <= i < |Ends(visible)| ==> w.0 <= Ends(visible)[i]
  {
    if visible != [] {
      EndsAfter(visible[..|visible| - 1], w);
    }
  }

  /** Pushes the text between two byte offsets. */
  method Push(text: string, ghost ranges: seq<Range>, ghost from: nat, ghost a: nat, ghost b: nat,
              segments: seq<FragmentSegment>, start: nat, end: nat, highlighted: bool)
    returns (r: Option<seq<FragmentSegment>>)
    requires Shown(text, ranges, from, a, segments) && a <= b <= |text|
    requires start == ByteAt(text, a) && end == ByteAt(text, b)
    requires forall i :: a <= i < b ==> (Covers(ranges, i) <==> highlighted)
    ensures r.Some? && Shown(text, ranges, from, b, r.value)
  {
    SliceOfCharacters(text, a, b);
    ShownNext(text, ranges, from, a, segments, b, highlighted);
    var piece := Slice(text, start, end);
    r := if piece.Some? then Some(Pushed(segments, piece.value, highlighted)) else None;
  }

  /** The plain text before highlight `k`, and the highlight. */
  method PushHighlight(text: string, visible: seq<Range>, w: Range, bytes: seq<nat>, k: nat,
                       segments: seq<FragmentSegment>, plainStart: nat)
    returns (r: Option<seq<FragmentSegment>>)
    requires Offsets(text, visible, w, bytes) && k < |visible|
    requires plainStart == ByteAt(text, After(visible, w, k))
    requires Shown(text, visible, w.0, After(visible, w, k), segments)
    ensures r.Some? && Shown(text, visible, w.0, After(visible, w, k + 1), r.value)
  {
    BetweenHighlights(visible, w, k);
    var start, end := bytes[2 * k + 1], bytes[2 * k + 2];
    r := Push(text, visible, w.0, After(visible, w, k), visible[k].0, segments, plainStart, start, false);
    if r.Some? {
      r := Push(text, visible, w.0, visible[k].0, visible[k].1, r.value, start, end, true);
    }
  }

  /** Plain text and highlights in turn, by byte offsets. */
  method Pieces(text: string, visible: seq<Range>, w: Range, bytes: seq<nat>) returns (r: Option<seq<FragmentSegment>>)
    requires Offsets(text, visible, w, bytes)
    ensures r.Some? && Shown(text, visible, w.0, w.1, r.value)
  {
    var segments: seq<FragmentSegment> := [];
    var plainStart := bytes[0];
    for k := 0 to |visible|
      invariant plainStart == ByteAt(text, After(visible, w, k))
      invariant Shown(text, visible, w.0, After(visible, w, k), segments)
    {
      r := PushHighlight(text, visible, w, bytes, k, segments, plainStart);
      if r.None? {
        return;
      }
      segments := r.value;
      plainStart := bytes[2 * k + 2];
    }
    BetweenHighlights(visible, w, |visible|);
    r := Push(text, visible, w.0, After(visible, w, |visible|), w.1, segments, plainStart, bytes[|bytes| - 1], false);
  }

  // ----- Ellipses

  /** An ellipsis before the first plain segment, or on its own. */
  function WithFront(segments: seq<FragmentSegment>): seq<FragmentSegment> {
    if segments != [] && !segments[0].highlighted then
      segments[0 := FragmentSegment(ELLIPSIS + segments[0].text, false)]
    else [FragmentSegment(ELLIPSIS, false)] + segments
  }

  function WithBack(segments: seq<FragmentSegment>): seq<FragmentSegment> {
    if segments != [] && !segments[|segments| - 1].highlighted then
      segments[|segments| - 1 := FragmentSegment(segments[|segments| - 1].text + ELLIPSIS, false)]
    else segments + [FragmentSegment(ELLIPSIS, false)]
  }

  lemma LastShows(init: seq<FragmentSegment>, last: FragmentSegment)
    ensures Text(init + [last]) == Text(init) + last.text
    ensures Highlights(init + [last]) == Highlights(init) + Marks(|last.text|, last.highlighted)
  {
    assert (init + [last])[..|init|] == init;
  }

  lemma NothingShows(first: FragmentSegment)
    ensures Text([first]) == first.text && Highlights([first]) == Marks(|first.text|, first.highlighted)
  {
    assert [] + [first] == [first];
    LastShows([], first);
  }

  lemma FrontOfMore(first: FragmentSegment, init: seq<FragmentSegment>, last: FragmentSegment)
    requires Text([first] + init) == first.text + Text(init)
    requires Highlights([first] + init) == Marks(|first.text|, first.highlighted) + Highlights(init)
    ensures Text([first] + (init + [last])) == first.text + Text(init + [last])
    ensures Highlights([first] + (init + [last]))
            == Marks(|first.text|, first.highlighted) + Highlights(init + [last])
  {
    LastShows([first] + init, last);
    LastShows(init, last);
    Regrouped([first], init, [last]);
    Regrouped(first.text, Text(init), last.text);
    Regrouped(Marks(|first.text|, first.highlighted), Highlights(init), Marks(|last.text|, last.highlighted));
  }

  lemma {:induction false} FrontShows(first: FragmentSegment, rest: seq<FragmentSegment>)
    ensures Text([first] + rest) == first.text + Text(rest)
    ensures Highlights([first] + rest) == Marks(|first.text|, first.highlighted) + Highlights(rest)
  {
    if rest == [] {
      NothingShows(first);
      assert [first] + rest == [first];
    } else {
      var init, last := rest[..|rest| - 1], rest[|rest| - 1];
      FrontShows(first, init);
      FrontOfMore(first, init, last);
      assert rest == init + [last];
    }
  }

  lemma WithFrontShows(segments: seq<FragmentSegment>)
    ensures Text(WithFront(segments)) == ELLIPSIS + Text(segments)
    ensures Highlights(WithFront(segments)) == Marks(|ELLIPSIS|, false) + Highlights(segments)
  {
    if segments != [] && !segments[0].highlighted {
      var first, rest := segments[0], segments[1..];
      var cut := FragmentSegment(ELLIPSIS + first.text, false);
      assert segments == [first] + rest;
      assert WithFront(segments) == [cut] + rest;
      FrontShows(first, rest);
      FrontShows(cut, rest);
      assert Marks(|cut.text|, false) == Marks(|ELLIPSIS|, false) + Marks(|first.text|, false);
    } else {
      FrontShows(FragmentSegment(ELLIPSIS, false), segments);
    }
  }

  lemma WithBackShows(segments: seq<FragmentSegment>)
    ensures Text(WithBack(segments)) == Text(segments) + ELLIPSIS
    ensures Highlights(WithBack(segments)) == Highlights(segments) + Marks(|ELLIPSIS|, false)
  {
    var more, n := WithBack(segments), |segments| - 1;
    if segments != [] && !segments[n].highlighted {
      assert more[..n] == segments[..n];
      assert Marks(|more[n].text|, false) == Marks(|segments[n].text|, false) + Marks(|ELLIPSIS|, false);
    } else {
      assert more[..|segments|] == segments;
    }
  }

  lemma SameMarks(text: string, occurrences: seq<Range>, w: Range)
    requires w.0 <= w.1
    ensures Wanted(Visible(occurrences, w), w.0, w.1) == Wanted(occurrences, w.0, w.1)
  {
    forall i: nat | w.0 <= i < w.1 ensures Covers(Visible(occurrences, w), i) <==> Covers(occurrences, i) {
      VisibleCovers(occurrences, w, i);
    }
  }

  /** What a reader sees of segments, none of them empty. */
  ghost predicate Reads(segments: seq<FragmentSegment>, text: string, marks: seq<bool>) {
    && Text(segments) == text && Highlights(segments) == marks
    && forall k :: 0 <= k < |segments| ==> segments[k].text != ""
  }

  method AddFront(core: seq<FragmentSegment>, cut: bool) returns (segments: seq<FragmentSegment>)
    requires forall k :: 0 <= k < |core| ==> core[k].text != ""
    ensures Reads(segments, EllipsisIf(cut) + Text(core), Marks(|EllipsisIf(cut)|, false) + Highlights(core))
  {
    segments := core;
    if cut {
      WithFrontShows(segments);
      segments := WithFront(segments);
    }
  }

  method AddBack(core: seq<FragmentSegment>, cut: bool) returns (segments: seq<FragmentSegment>)
    requires forall k :: 0 <= k < |core| ==> core[k].text != ""
    ensures Reads(segments, Text(core) + EllipsisIf(cut), Highlights(core) + Marks(|EllipsisIf(cut)|, false))
  {
    segments := core;
    if cut {
      WithBackShows(segments);
      segments := WithBack(segments);
    }
  }

  /** The highlighted window around the first of `occurrences`; none without one. */
  method Fragment(text: string, occurrences: seq<Range>) returns (r: Option<seq<FragmentSegment>>)
    requires AreRanges(occurrences, |text|)
    ensures occurrences == [] ==> r == None
    ensures occurrences != [] ==> r.Some? && IsFragment(text, occurrences, r.value)
  {
    if occurrences == [] {
      return None;
    }
    var w := Window(occurrences[0], |text|);
    WindowHoldsOccurrence(occurrences[0], |text|);
    VisibleInside(occurrences, w, |text|);
    SameMarks(text, occurrences, w);
    var visible := Visible(occurrences, w);
    var bytes := Boundaries(text, visible, w);
    var core := Pieces(text, visible, w, bytes);
    if core.None? {
      return None;
    }
    var segments := AddFront(core.value, w.0 > 0);
    segments := AddBack(segments, w.1 < |text|);
    r := Some(segments);
  }
}
