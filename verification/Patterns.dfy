/** A folded query: its occurrences in a text, and the trigrams that narrow
    its candidate texts. */
module Patterns {
  import opened Collections
  import opened Encodings
  import opened Intervals
  import opened Matching

  /** A query, folded. */
  datatype Pattern = Pattern(folded: string)
  {
    /** The query's bytes stand somewhere among the text's, both folded. */
    predicate Matches(lower: char -> seq<char>, text: string) {
      var hay, needle := Encode(Fold(lower, text)), Encode(folded);
      exists p :: 0 <= p <= |hay| && OccursAt(hay, needle, p)
    }
  }

  function NewPattern(lower: char -> seq<char>, query: string): (p: Pattern)
    ensures |p.folded| == |query|
  {
    Pattern(Fold(lower, query))
  }

  function RangesAt(starts: seq<nat>, n: nat): (ranges: seq<Range>)
    ensures |ranges| == |starts| && forall i :: 0 <= i < |starts| ==> ranges[i] == (starts[i], starts[i] + n)
  {
    seq(|starts|, i requires 0 <= i < |starts| => (starts[i], starts[i] + n))
  }

  lemma EncodedIsNotEmpty(q: string)
    requires q != ""
    ensures Encode(q) != []
  {
    EncodedLengths(q);
  }

  /** The counters stand at the same character. */
  ghost predicate AtCharacter(text: string, bytes: nat, characters: nat) {
    characters <= |text| && bytes == ByteAt(text, characters)
  }

  lemma CountSkipped(text: string, from: nat, to: nat)
    requires from <= to <= |text|
    ensures Slice(text, ByteAt(text, from), ByteAt(text, to)).Some?
    ensures |Slice(text, ByteAt(text, from), ByteAt(text, to)).value| == to - from
  {
    SliceOfCharacters(text, from, to);
  }

  lemma NextStart(text: string, starts: seq<nat>, bytes: seq<nat>, i: nat, characters: nat)
    requires SameStarts(text, starts, bytes) && i < |bytes| && Increasing(starts)
    requires characters == if i == 0 then 0 else starts[i - 1]
    ensures i < |starts| && characters <= starts[i] <= |text| && bytes[i] == ByteAt(text, starts[i])
  {
  }

  /** Turns byte positions into characters as they come, counting only what
      was skipped since the one before. */
  method CountCharacters(text: string, found: seq<nat>, n: nat, ghost starts: seq<nat>) returns (ranges: seq<Range>)
    requires SameStarts(text, starts, found) && Increasing(starts)
    ensures ranges == RangesAt(starts, n)
  {
    assert ByteAt(text, 0) == 0 by { assert text[..0] == ""; }
    ranges := [];
    var scannedBytes: nat, scannedCharacters: nat := 0, 0;
    for i := 0 to |found|
      invariant |found| == |starts|
      invariant AtCharacter(text, scannedBytes, scannedCharacters)
      invariant scannedCharacters == if i == 0 then 0 else starts[i - 1]
      invariant |ranges| == i && forall j :: 0 <= j < i ==> ranges[j] == (starts[j], starts[j] + n)
    {
      NextStart(text, starts, found, i, scannedCharacters);
      CountSkipped(text, scannedCharacters, starts[i]);
      var skipped := Slice(text, scannedBytes, found[i]);
      scannedCharacters := scannedCharacters + if skipped.Some? then |skipped.value| else 0;
      scannedBytes := found[i];
      ranges := ranges + [(scannedCharacters, scannedCharacters + n)];
    }
  }

  lemma BytesOfStarts(text: string, q: string)
    requires q != "" && Encode(q) != []
    ensures SameStarts(text, Leftmost(text, q, 0), Leftmost(Encode(text), Encode(q), 0))
    ensures Increasing(Leftmost(text, q, 0))
  {
    assert ByteAt(text, 0) == 0 by { assert text[..0] == ""; }
    BytesFindCharacters(text, q, 0);
    WithinHay(text, q, 0);
  }

  /** The byte scan with its two counters finds the leftmost character ranges. */
  method Occurrences(lower: char -> seq<char>, pattern: Pattern, text: string) returns (ranges: seq<Range>)
    requires pattern.folded != ""
    ensures ranges == RangesAt(Leftmost(Fold(lower, text), pattern.folded, 0), |pattern.folded|)
  {
    var folded := Fold(lower, text);
    EncodedIsNotEmpty(pattern.folded);
    var found := Leftmost(Encode(folded), Encode(pattern.folded), 0);
    BytesOfStarts(folded, pattern.folded);
    ranges := CountCharacters(folded, found, |pattern.folded|, Leftmost(folded, pattern.folded, 0));
  }

  /** A text holds the query exactly when its characters do somewhere. */
  lemma MatchesCharacters(lower: char -> seq<char>, pattern: Pattern, text: string)
    requires pattern.folded != ""
    ensures pattern.Matches(lower, text)
            <==> exists k :: 0 <= k <= |text| && OccursAt(Fold(lower, text), pattern.folded, k)
  {
    var folded := Fold(lower, text);
    if pattern.Matches(lower, text) {
      var p :| 0 <= p <= |Encode(folded)| && OccursAt(Encode(folded), Encode(pattern.folded), p);
      var k := MatchAtCharacter(folded, pattern.folded, p);
    }
    if k :| 0 <= k <= |text| && OccursAt(folded, pattern.folded, k) {
      OccursInBoth(folded, pattern.folded, k);
      assert OccursAt(Encode(folded), Encode(pattern.folded), ByteAt(folded, k));
    }
  }

  /** Bytes of a query are found at a character. */
  lemma MatchAtCharacter(text: string, q: string, p: nat) returns (k: nat)
    requires q != "" && OccursAt(Encode(text), Encode(q), p)
    ensures k <= |text| && ByteAt(text, k) == p && OccursAt(text, q, k)
  {
    EncodedIsNotEmpty(q);
    EncodedLengths(text);
    k := CharacterAround(text, p);
    if ByteAt(text, k) < p {
      NothingInside(text, q, k, p);
    }
    OccursInBoth(text, q, k);
  }

  /** There are occurrences exactly when the text matches. */
  lemma OccurrencesWhenMatching(lower: char -> seq<char>, pattern: Pattern, text: string)
    requires pattern.folded != ""
    ensures Leftmost(Fold(lower, text), pattern.folded, 0) != [] <==> pattern.Matches(lower, text)
  {
    var folded := Fold(lower, text);
    MatchesCharacters(lower, pattern, text);
    LeftmostIsLeftmost(folded, pattern.folded, 0);
    var starts := Leftmost(folded, pattern.folded, 0);
    if starts != [] {
      assert Found(folded, pattern.folded)(starts[0]);
    }
    if k :| 0 <= k <= |text| && OccursAt(folded, pattern.folded, k) {
      assert Found(folded, pattern.folded)(k);
      assert Covered(starts, |pattern.folded|, k);
    }
  }

  // ----- Offsets

  ghost predicate NonDecreasing(positions: seq<nat>) {
    forall i, j :: 0 <= i < j < |positions| ==> positions[i] <= positions[j]
  }

  /** The offset of a character position, past the end that of the end. */
  function OffsetOf(text: string, position: nat, width: char -> nat): nat {
    Units(text[..Min(position, |text|)], width)
  }

  lemma OffsetNext(text: string, k: nat, width: char -> nat)
    requires k < |text|
    ensures Units(text[..k + 1], width) == Units(text[..k], width) + width(text[k])
  {
    assert text[..k + 1][..k] == text[..k];
  }

  /** The offset of each of `positions`, in one pass over the text. */
  method CharacterOffsets(text: string, positions: seq<nat>, width: char -> nat) returns (offsets: seq<nat>)
    requires NonDecreasing(positions)
    ensures |offsets| == |positions|
    ensures forall i :: 0 <= i < |positions| ==> offsets[i] == OffsetOf(text, positions[i], width)
  {
    offsets := [];
    var position, offset := 0, 0;
    assert text[..0] == "";
    for i := 0 to |positions|
      invariant |offsets| == i
      invariant forall j :: 0 <= j < i ==> offsets[j] == OffsetOf(text, positions[j], width)
      invariant position <= |text| && (i < |positions| ==> position <= positions[i])
      invariant offset == Units(text[..position], width)
    {
      while position < positions[i]
        invariant position <= |text| && position <= positions[i]
        invariant offset == Units(text[..position], width)
      {
        if position == |text| {
          break;
        }
        OffsetNext(text, position, width);
        offset := offset + width(text[position]);
        position := position + 1;
      }
      offsets := offsets + [offset];
    }
  }

  /** Sorted, non-overlapping ranges within `n` characters. */
  ghost predicate AreRanges(ranges: seq<Range>, n: nat) {
    && (forall i :: 0 <= i < |ranges| ==> ranges[i].0 <= ranges[i].1 <= n)
    && (forall i, j :: 0 <= i < j < |ranges| ==> ranges[i].1 <= ranges[j].0)
  }

  function Ends(ranges: seq<Range>): (ends: seq<nat>)
    ensures |ends| == 2 * |ranges|
    ensures forall i :: 0 <= i < |ranges| ==> ends[2 * i] == ranges[i].0 && ends[2 * i + 1] == ranges[i].1
  {
    if ranges == [] then [] else Ends(ranges[..|ranges| - 1]) + [ranges[|ranges| - 1].0, ranges[|ranges| - 1].1]
  }

  lemma {:induction false} EndsInOrder(ranges: seq<Range>, n: nat)
    requires AreRanges(ranges, n)
    ensures NonDecreasing(Ends(ranges)) && forall i :: 0 <= i < |Ends(ranges)| ==> Ends(ranges)[i] <= n
    ensures ranges != [] ==> forall i :: 0 <= i < |Ends(ranges)| ==> Ends(ranges)[i] <= ranges[|ranges| - 1].1
  {
    if ranges != [] {
      EndsInOrder(ranges[..|ranges| - 1], n);
    }
  }

  function Pairs(offsets: seq<nat>): (pairs: seq<Range>)
    ensures |pairs| == |offsets| / 2
    ensures forall i :: 0 <= i < |pairs| ==> pairs[i] == (offsets[2 * i], offsets[2 * i + 1])
  {
    seq(|offsets| / 2, i requires 0 <= i < |offsets| / 2 => (offsets[2 * i], offsets[2 * i + 1]))
  }

  /** Both ends of each range, counted in UTF-16 code units. */
  method Utf16Ranges(text: string, ranges: seq<Range>) returns (r: seq<Range>)
    requires AreRanges(ranges, |text|)
    ensures |r| == |ranges|
    ensures forall i :: 0 <= i < |r| ==>
              r[i] == (Units(text[..ranges[i].0], Width16()), Units(text[..ranges[i].1], Width16()))
  {
    EndsInOrder(ranges, |text|);
    var offsets := CharacterOffsets(text, Ends(ranges), Width16());
    r := Pairs(offsets);
    forall i | 0 <= i < |r|
      ensures r[i] == (Units(text[..ranges[i].0], Width16()), Units(text[..ranges[i].1], Width16()))
    {
      assert Ends(ranges)[2 * i] == ranges[i].0 && Ends(ranges)[2 * i + 1] == ranges[i].1;
    }
  }

  /** Those code units are exactly the range's own. */
  lemma RangeCoversItsUnits(text: string, i: nat, j: nat)
    requires i <= j <= |text|
    ensures Units(text[..i], Width16()) <= Units(text[..j], Width16()) <= |Encode16(text)|
    ensures Encode16(text)[Units(text[..i], Width16())..Units(text[..j], Width16())] == Encode16(text[i..j])
  {
    assert text == text[..j] + text[j..] && text[..j] == text[..i] + text[i..j];
    Encode16Append(text[..j], text[j..]);
    Encode16Append(text[..i], text[i..j]);
    EncodedLengths(text[..i]);
    EncodedLengths(text[..j]);
    var units := Encode16(text);
    assert units == Encode16(text[..i]) + Encode16(text[i..j]) + Encode16(text[j..]);
  }

  lemma FoldOfPart(lower: char -> seq<char>, text: string, i: nat, j: nat)
    requires i <= j <= |text|
    ensures Fold(lower, text[i..j]) == Fold(lower, text)[i..j]
  {
  }

  lemma StartsAreRanges(n: nat, starts: seq<nat>, length: nat)
    requires Apart(n, starts) && forall i :: 0 <= i < |starts| ==> starts[i] + n <= length
    ensures AreRanges(RangesAt(starts, n), length)
  {
  }

  lemma OccurrenceFolds(lower: char -> seq<char>, text: string, q: string, k: nat)
    requires OccursAt(Fold(lower, text), q, k)
    ensures k + |q| <= |text| && Fold(lower, text[k..k + |q|]) == q
  {
    FoldOfPart(lower, text, k, k + |q|);
  }

  /** Occurrences are sorted ranges of the text. */
  lemma OccurrencesAreRanges(lower: char -> seq<char>, pattern: Pattern, text: string)
    requires pattern.folded != ""
    ensures AreRanges(RangesAt(Leftmost(Fold(lower, text), pattern.folded, 0), |pattern.folded|), |text|)
  {
    var folded, n := Fold(lower, text), |pattern.folded|;
    LeftmostIsLeftmost(folded, pattern.folded, 0);
    WithinHay(folded, pattern.folded, 0);
    StartsAreRanges(n, Leftmost(folded, pattern.folded, 0), |text|);
  }

  /** Each holds characters that fold to the query. */
  lemma OccurrencesFold(lower: char -> seq<char>, pattern: Pattern, text: string, start: nat)
    requires pattern.folded != "" && start in Leftmost(Fold(lower, text), pattern.folded, 0)
    ensures start + |pattern.folded| <= |text|
    ensures Fold(lower, text[start..start + |pattern.folded|]) == pattern.folded
  {
    StartsAreOccurrences(Fold(lower, text), pattern.folded, start);
    OccurrenceFolds(lower, text, pattern.folded, start);
  }

  lemma StartsAreOccurrences(folded: string, q: string, start: nat)
    requires q != "" && start in Leftmost(folded, q, 0)
    ensures OccursAt(folded, q, start)
  {
    LeftmostIsLeftmost(folded, q, 0);
    assert Found(folded, q)(start);
  }
}
