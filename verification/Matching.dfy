/** Literal matching of folded texts: folding, occurrences, and ranges in
    UTF-16 code units. */
module Matching {
  import opened Collections
  import opened Encodings

  // ----- Folding

  predicate IsAscii(c: char) {
    c < 128 as char
  }

  function AsciiLower(c: char): (r: char)
    ensures IsAscii(c) ==> IsAscii(r)
  {
    if 'A' <= c <= 'Z' then c + 32 as char else c
  }

  /** A character is replaced only by a single one; `lower` is the Unicode table. */
  function FoldChar(lower: char -> seq<char>, c: char): char {
    if IsAscii(c) then AsciiLower(c)
    else if |lower(c)| == 1 then lower(c)[0]
    else c
  }

  /** `text` with every character folded; ASCII texts take a shorter way. */
  function Fold(lower: char -> seq<char>, text: string): (r: string)
    ensures |r| == |text| && forall i :: 0 <= i < |text| ==> r[i] == FoldChar(lower, text[i])
  {
    if forall i :: 0 <= i < |text| ==> IsAscii(text[i]) then
      seq(|text|, i requires 0 <= i < |text| => AsciiLower(text[i]))
    else
      seq(|text|, i requires 0 <= i < |text| => FoldChar(lower, text[i]))
  }

  /** The fold a reader would write, from the table alone. */
  function NaiveFold(lower: char -> seq<char>, text: string): (r: string) {
    seq(|text|, i requires 0 <= i < |text| => if |lower(text[i])| == 1 then lower(text[i])[0] else text[i])
  }

  /** The shorter way changes nothing as long as the table lowers ASCII as
      ASCII does. */
  lemma FoldIsNaive(lower: char -> seq<char>, text: string)
    requires forall c :: c < 128 as char ==> lower(c) == [if 'A' <= c <= 'Z' then c + 32 as char else c]
    ensures Fold(lower, text) == NaiveFold(lower, text)
  {
  }

  // ----- Occurrences

  /** Non-overlapping occurrences of `needle` in `hay` from `from` on, left to right. */
  function Leftmost<T(==)>(hay: seq<T>, needle: seq<T>, from: nat): (starts: seq<nat>)
    requires needle != []
    decreases |hay| - from
  {
    if from + |needle| > |hay| then []
    else if OccursAt(hay, needle, from) then [from] + Leftmost(hay, needle, from + |needle|)
    else Leftmost(hay, needle, from + 1)
  }

  function Found<T(==)>(hay: seq<T>, needle: seq<T>): nat -> bool {
    (p: nat) => OccursAt(hay, needle, p)
  }

  /** Position `k` lies in one of the stretches of length `n` that begin at `starts`. */
  ghost predicate Covered(starts: seq<nat>, n: nat, k: nat) {
    exists i :: 0 <= i < |starts| && starts[i] <= k < starts[i] + n
  }

  ghost predicate AllFound(found: nat -> bool, from: nat, starts: seq<nat>) {
    forall i :: 0 <= i < |starts| ==> from <= starts[i] && found(starts[i])
  }

  ghost predicate Apart(n: nat, starts: seq<nat>) {
    forall i, j :: 0 <= i < j < |starts| ==> starts[i] + n <= starts[j]
  }

  ghost predicate AllCovered(found: nat -> bool, n: nat, from: nat, starts: seq<nat>) {
    forall k: nat :: from <= k && found(k) ==> Covered(starts, n, k)
  }

  /** What makes a list of positions the leftmost choice: occurrences that do
      not overlap, and none left that overlaps no earlier chosen one. */
  ghost predicate IsLeftmost(found: nat -> bool, n: nat, from: nat, starts: seq<nat>) {
    AllFound(found, from, starts) && Apart(n, starts) && AllCovered(found, n, from, starts)
  }

  lemma CoveredBehind(x: nat, rest: seq<nat>, n: nat, k: nat)
    ensures Covered([x] + rest, n, k) <==> x <= k < x + n || Covered(rest, n, k)
  {
    var starts := [x] + rest;
    if Covered(rest, n, k) {
      var i :| 0 <= i < |rest| && rest[i] <= k < rest[i] + n;
      assert starts[i + 1] == rest[i];
    }
    if x <= k < x + n {
      assert starts[0] == x;
    }
    if Covered(starts, n, k) && !(x <= k < x + n) {
      var i :| 0 <= i < |starts| && starts[i] <= k < starts[i] + n;
      assert rest[i - 1] == starts[i];
    }
  }

  lemma OneMoreCovers(found: nat -> bool, n: nat, from: nat, rest: seq<nat>)
    requires AllCovered(found, n, from + n, rest)
    ensures AllCovered(found, n, from, [from] + rest)
  {
    forall k: nat | from <= k && found(k) ensures Covered([from] + rest, n, k) {
      CoveredBehind(from, rest, n, k);
    }
  }

  lemma OneMoreFound(found: nat -> bool, n: nat, from: nat, rest: seq<nat>)
    requires found(from) && AllFound(found, from + n, rest)
    ensures AllFound(found, from, [from] + rest)
  {
    forall i | 0 <= i < |[from] + rest| ensures from <= ([from] + rest)[i] && found(([from] + rest)[i]) {
      if i > 0 {
        assert found(rest[i - 1]);
      }
    }
  }

  lemma OneMoreApart(n: nat, from: nat, rest: seq<nat>)
    requires Apart(n, rest) && forall i :: 0 <= i < |rest| ==> from + n <= rest[i]
    ensures Apart(n, [from] + rest)
  {
  }

  lemma OneMoreIsLeftmost(found: nat -> bool, n: nat, from: nat, rest: seq<nat>)
    requires n > 0 && found(from) && IsLeftmost(found, n, from + n, rest)
    ensures IsLeftmost(found, n, from, [from] + rest)
  {
    OneMoreCovers(found, n, from, rest);
    OneMoreFound(found, n, from, rest);
    OneMoreApart(n, from, rest);
  }

  lemma NoneHereIsLeftmost(found: nat -> bool, n: nat, from: nat, starts: seq<nat>)
    requires n > 0 && !found(from) && IsLeftmost(found, n, from + 1, starts)
    ensures IsLeftmost(found, n, from, starts)
  {
    assert AllFound(found, from, starts);
    assert AllCovered(found, n, from, starts);
  }

  lemma {:induction false} LeftmostIsLeftmost<T(!new)>(hay: seq<T>, needle: seq<T>, from: nat)
    requires needle != []
    ensures IsLeftmost(Found(hay, needle), |needle|, from, Leftmost(hay, needle, from))
    decreases |hay| - from
  {
    if from + |needle| <= |hay| {
      if OccursAt(hay, needle, from) {
        LeftmostIsLeftmost(hay, needle, from + |needle|);
        OneMoreIsLeftmost(Found(hay, needle), |needle|, from, Leftmost(hay, needle, from + |needle|));
      } else {
        LeftmostIsLeftmost(hay, needle, from + 1);
        NoneHereIsLeftmost(Found(hay, needle), |needle|, from, Leftmost(hay, needle, from + 1));
      }
    }
  }

  ghost predicate AgreeUpTo(a: seq<nat>, b: seq<nat>, i: nat) {
    i <= |a| && i <= |b| && forall j :: 0 <= j < i ==> a[j] == b[j]
  }

  /** Where two leftmost choices agree so far, the other goes on no later. */
  lemma GoesOnNoLater(found: nat -> bool, n: nat, from: nat, a: seq<nat>, b: seq<nat>, i: nat)
    requires AllFound(found, from, a) && Apart(n, a) && Apart(n, b) && AllCovered(found, n, from, b)
    requires n > 0 && i < |a| && AgreeUpTo(a, b, i)
    ensures i < |b| && b[i] <= a[i]
  {
    assert found(a[i]);
    assert Covered(b, n, a[i]);
    var j :| 0 <= j < |b| && b[j] <= a[i] < b[j] + n;
  }

  lemma {:induction false} AgreeFrom(found: nat -> bool, n: nat, from: nat, a: seq<nat>, b: seq<nat>, i: nat)
    requires AllFound(found, from, a) && Apart(n, a) && AllCovered(found, n, from, a)
    requires AllFound(found, from, b) && Apart(n, b) && AllCovered(found, n, from, b)
    requires n > 0 && AgreeUpTo(a, b, i)
    ensures |a| == |b| && AgreeUpTo(a, b, |a|)
    decreases |a| - i
  {
    if i < |a| {
      GoesOnNoLater(found, n, from, a, b, i);
      GoesOnNoLater(found, n, from, b, a, i);
      AgreeFrom(found, n, from, a, b, i + 1);
    } else if i < |b| {
      GoesOnNoLater(found, n, from, b, a, i);
    }
  }

  /** There is only one leftmost choice. */
  lemma LeftmostIsUnique(found: nat -> bool, n: nat, from: nat, a: seq<nat>, b: seq<nat>)
    requires n > 0 && IsLeftmost(found, n, from, a) && IsLeftmost(found, n, from, b)
    ensures a == b
  {
    AgreeFrom(found, n, from, a, b, 0);
  }

  /** Positions with nothing to find change nothing. */
  lemma {:induction false} SkipEmpty<T>(hay: seq<T>, needle: seq<T>, from: nat, to: nat)
    requires needle != [] && from <= to
    requires forall p :: from <= p < to ==> !OccursAt(hay, needle, p)
    ensures Leftmost(hay, needle, from) == Leftmost(hay, needle, to)
    decreases if from <= to then to - from else 0
  {
    if from < to {
      assert !OccursAt(hay, needle, from);
      SkipEmpty(hay, needle, from + 1, to);
      if from + |needle| > |hay| {
        assert Leftmost(hay, needle, to) == [];
      }
    }
  }

  /** Byte positions of the characters at `starts`. */
  function BytesAt(text: string, starts: seq<nat>): (r: seq<nat>)
    requires forall i :: 0 <= i < |starts| ==> starts[i] <= |text|
    ensures |r| == |starts| && forall i :: 0 <= i < |starts| ==> r[i] == ByteAt(text, starts[i])
  {
    seq(|starts|, i requires 0 <= i < |starts| => ByteAt(text, starts[i]))
  }

  lemma WithinHay<T(!new)>(hay: seq<T>, needle: seq<T>, from: nat)
    requires needle != []
    ensures forall i :: 0 <= i < |Leftmost(hay, needle, from)| ==>
              from <= Leftmost(hay, needle, from)[i] && Leftmost(hay, needle, from)[i] + |needle| <= |hay|
    ensures Increasing(Leftmost(hay, needle, from))
  {
    LeftmostIsLeftmost(hay, needle, from);
    var starts := Leftmost(hay, needle, from);
    forall i | 0 <= i < |starts| ensures starts[i] + |needle| <= |hay| {
      assert Found(hay, needle)(starts[i]);
    }
  }

  lemma BytesOfOccurrence(text: string, q: string, k: nat)
    requires k <= |text| && OccursAt(text, q, k)
    ensures ByteAt(text, k + |q|) == ByteAt(text, k) + |Encode(q)|
  {
    assert text[..k + |q|] == text[..k] + q;
    UnitsAppend(text[..k], q, Width8());
    EncodedLengths(q);
  }

  lemma NoBytesLeft(text: string, q: string, k: nat)
    requires q != "" && k <= |text| && k + |q| > |text|
    ensures forall p :: ByteAt(text, k) <= p ==> !OccursAt(Encode(text), Encode(q), p)
  {
    EncodedLengths(text);
    EncodedLengths(q);
    forall p | ByteAt(text, k) <= p ensures !OccursAt(Encode(text), Encode(q), p) {
      if p < |Encode(text)| {
        var j := CharacterAround(text, p);
        if ByteAt(text, j) < p {
          NothingInside(text, q, j, p);
        } else {
          OccursInBoth(text, q, j);
          if j < k {
            ByteAtGrows(text, j, k);
          }
        }
      }
    }
  }

  lemma SkipCharacter(text: string, q: string, k: nat)
    requires q != "" && k < |text| && Encode(q) != [] && !OccursAt(text, q, k)
    ensures Leftmost(Encode(text), Encode(q), ByteAt(text, k)) == Leftmost(Encode(text), Encode(q), ByteAt(text, k + 1))
  {
    forall p | ByteAt(text, k) <= p < ByteAt(text, k + 1) ensures !OccursAt(Encode(text), Encode(q), p) {
      if ByteAt(text, k) < p {
        NothingInside(text, q, k, p);
      } else {
        OccursInBoth(text, q, k);
      }
    }
    ByteAtNext(text, k);
    SkipEmpty(Encode(text), Encode(q), ByteAt(text, k), ByteAt(text, k + 1));
  }

  lemma TakeOccurrence(text: string, q: string, k: nat)
    requires q != "" && k <= |text| && Encode(q) != [] && OccursAt(text, q, k)
    ensures Leftmost(Encode(text), Encode(q), ByteAt(text, k))
            == [ByteAt(text, k)] + Leftmost(Encode(text), Encode(q), ByteAt(text, k + |q|))
  {
    OccursInBoth(text, q, k);
    BytesOfOccurrence(text, q, k);
  }

  lemma ScanEnds(text: string, q: string, k: nat)
    requires q != "" && k <= |text| && Encode(q) != [] && k + |q| > |text|
    ensures Leftmost(Encode(text), Encode(q), ByteAt(text, k)) == []
  {
    var hay, at := Encode(text), ByteAt(text, k);
    NoBytesLeft(text, q, k);
    if at <= |hay| {
      SkipEmpty(hay, Encode(q), at, |hay| + 1);
    }
  }

  lemma BytesAtOneMore(text: string, k: nat, rest: seq<nat>, starts: seq<nat>, bytes: seq<nat>, more: seq<nat>)
    requires k <= |text| && forall i :: 0 <= i < |rest| ==> rest[i] <= |text|
    requires starts == [k] + rest
    requires more == BytesAt(text, rest) && bytes == [ByteAt(text, k)] + more
    ensures forall i :: 0 <= i < |starts| ==> starts[i] <= |text|
    ensures bytes == BytesAt(text, starts)
  {
  }

  lemma TakeCharacters(text: string, q: string, k: nat)
    requires q != "" && OccursAt(text, q, k)
    ensures Leftmost(text, q, k) == [k] + Leftmost(text, q, k + |q|)
  {
  }

  /** The bytes from character `k` on are found where its characters are. */
  ghost predicate FoundInBytes(text: string, q: string, k: nat)
    requires q != "" && k <= |text| && Encode(q) != []
  {
    SameStarts(text, Leftmost(text, q, k), Leftmost(Encode(text), Encode(q), ByteAt(text, k)))
  }

  ghost predicate SameStarts(text: string, starts: seq<nat>, bytes: seq<nat>) {
    (forall i :: 0 <= i < |starts| ==> starts[i] <= |text|) && bytes == BytesAt(text, starts)
  }

  lemma OccurrenceInBytes(text: string, q: string, k: nat)
    requires q != "" && k <= |text| && Encode(q) != [] && OccursAt(text, q, k)
    requires FoundInBytes(text, q, k + |q|)
    ensures FoundInBytes(text, q, k)
  {
    TakeOccurrence(text, q, k);
    TakeCharacters(text, q, k);
    BytesAtOneMore(text, k, Leftmost(text, q, k + |q|), Leftmost(text, q, k),
                   Leftmost(Encode(text), Encode(q), ByteAt(text, k)),
                   Leftmost(Encode(text), Encode(q), ByteAt(text, k + |q|)));
  }

  /** Scanning bytes finds what scanning characters finds. */
  lemma {:induction false} BytesFindCharacters(text: string, q: string, k: nat)
    requires q != "" && k <= |text| && Encode(q) != []
    ensures FoundInBytes(text, q, k)
    decreases |text| - k
  {
    if k + |q| > |text| {
      ScanEnds(text, q, k);
    } else if OccursAt(text, q, k) {
      BytesFindCharacters(text, q, k + |q|);
      OccurrenceInBytes(text, q, k);
    } else {
      BytesFindCharacters(text, q, k + 1);
      SkipCharacter(text, q, k);
    }
  }
}
