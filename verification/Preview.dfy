/** Previews: runs of entries are shown, and all that no run covers is counted. */
module Preview {
  import opened Collections
  import opened Intervals
  import opened Sorting

  /** From one index up to another, or so many from the end. */
  datatype Run = Span(from: nat, to: nat) | Last(count: nat)

  // ----- Ranges

  /** Whether a run asks for entry `i` of `total`. */
  ghost predicate Asks(run: Run, total: nat, i: nat) {
    match run
    case Span(from, to) => from <= i <= to
    case Last(count) => total <= i + count
  }

  ghost predicate Asked(runs: seq<Run>, total: nat, i: nat) {
    exists k :: 0 <= k < |runs| && Asks(runs[k], total, i)
  }

  function ClippedRun(run: Run, total: nat): (r: Range)
    ensures r.1 <= total
    ensures forall i: nat :: r.0 <= i < r.1 <==> i < total && Asks(run, total, i)
  {
    match run
    case Span(from, to) => (Min(from, total), Min(to + 1, total))
    case Last(count) => (Less(total, count), total)
  }

  /** The runs that ask for anything, clipped to the entries. */
  function Clipped(runs: seq<Run>, total: nat): (ranges: seq<Range>) {
    if runs == [] then []
    else
      var before, r := Clipped(runs[..|runs| - 1], total), ClippedRun(runs[|runs| - 1], total);
      if r.0 < r.1 then before + [r] else before
  }

  ghost predicate Proper(ranges: seq<Range>, total: nat) {
    forall k :: 0 <= k < |ranges| ==> ranges[k].0 < ranges[k].1 <= total
  }

  lemma {:induction false} ClippedCovers(runs: seq<Run>, total: nat, i: nat)
    ensures Covers(Clipped(runs, total), i) <==> i < total && Asked(runs, total, i)
  {
    if runs != [] {
      var rest, run := runs[..|runs| - 1], runs[|runs| - 1];
      ClippedCovers(rest, total, i);
      CoversNext(Clipped(rest, total), ClippedRun(run, total), i);
      if Asked(rest, total, i) {
        var k :| 0 <= k < |rest| && Asks(rest[k], total, i);
        assert runs[k] == rest[k];
      }
    }
  }

  lemma {:induction false} ClippedIsProper(runs: seq<Run>, total: nat)
    ensures Proper(Clipped(runs, total), total)
  {
    if runs != [] {
      ClippedIsProper(runs[..|runs| - 1], total);
    }
  }

  function ByStart(): (Range, Range) -> bool {
    (a: Range, b: Range) => a.0 <= b.0
  }

  /** Ranges in order with a gap between any two. */
  ghost predicate Separated(ranges: seq<Range>) {
    forall i, j :: 0 <= i < j < |ranges| ==> ranges[i].1 < ranges[j].0
  }

  /** The ranges merged so far, and where the next may begin. */
  ghost predicate Merged(merged: seq<Range>, ranges: seq<Range>, total: nat) {
    && Separated(merged) && Proper(merged, total)
    && (merged == [] <==> ranges == [])
    && forall i: nat :: Covers(merged, i) <==> Covers(ranges, i)
  }

  function MergedWith(merged: seq<Range>, r: Range): seq<Range> {
    if merged != [] && r.0 <= merged[|merged| - 1].1 then
      merged[|merged| - 1 := (merged[|merged| - 1].0, Max(merged[|merged| - 1].1, r.1))]
    else merged + [r]
  }

  lemma MergeCovers(merged: seq<Range>, r: Range, i: nat)
    requires merged != [] ==> merged[|merged| - 1].0 <= r.0 && merged[|merged| - 1].0 < merged[|merged| - 1].1
    ensures Covers(MergedWith(merged, r), i) <==> Covers(merged, i) || r.0 <= i < r.1
  {
    if merged != [] && r.0 <= merged[|merged| - 1].1 {
      var rest, last := merged[..|merged| - 1], merged[|merged| - 1];
      assert merged == rest + [last];
      assert MergedWith(merged, r) == rest + [(last.0, Max(last.1, r.1))];
      CoversNext(rest, last, i);
      CoversNext(rest, (last.0, Max(last.1, r.1)), i);
    } else {
      CoversNext(merged, r, i);
    }
  }

  lemma MergeNext(merged: seq<Range>, ranges: seq<Range>, r: Range, total: nat)
    requires Merged(merged, ranges, total) && r.0 < r.1 <= total
    requires merged != [] ==> merged[|merged| - 1].0 <= r.0
    ensures Merged(MergedWith(merged, r), ranges + [r], total)
    ensures MergedWith(merged, r)[|MergedWith(merged, r)| - 1].0 <= r.0
  {
    forall i: nat ensures Covers(MergedWith(merged, r), i) <==> Covers(ranges + [r], i) {
      MergeCovers(merged, r, i);
      CoversNext(ranges, r, i);
    }
  }

  lemma SameCover(a: seq<Range>, b: seq<Range>)
    requires forall r :: r in a <==> r in b
    ensures forall i :: Covers(a, i) <==> Covers(b, i)
  {
    forall i ensures Covers(a, i) <==> Covers(b, i) {
      if Covers(a, i) {
        var k :| 0 <= k < |a| && a[k].0 <= i < a[k].1;
        assert a[k] in b;
      }
      if Covers(b, i) {
        var k :| 0 <= k < |b| && b[k].0 <= i < b[k].1;
        assert b[k] in a;
      }
    }
  }

  lemma SortedIsProper(ranges: seq<Range>, total: nat)
    requires Proper(ranges, total)
    ensures Proper(StableSort(ranges, ByStart()), total)
  {
    SortMembers(ranges, ByStart());
    var sorted := StableSort(ranges, ByStart());
    forall k | 0 <= k < |sorted| ensures sorted[k].0 < sorted[k].1 <= total {
      assert sorted[k] in sorted;
    }
  }

  method Merge(ranges: seq<Range>, total: nat) returns (merged: seq<Range>)
    requires Proper(ranges, total) && Sorted(ranges, ByStart())
    ensures Merged(merged, ranges, total)
  {
    merged := [];
    for k := 0 to |ranges|
      invariant Merged(merged, ranges[..k], total)
      invariant k > 0 ==> merged[|merged| - 1].0 <= ranges[k - 1].0
    {
      var range := ranges[k];
      assert k > 0 ==> ByStart()(ranges[k - 1], ranges[k]);
      MergeNext(merged, ranges[..k], range, total);
      assert ranges[..k + 1] == ranges[..k] + [range];
      if merged != [] && range.0 <= merged[|merged| - 1].1 {
        var last := merged[|merged| - 1];
        merged := merged[|merged| - 1 := (last.0, Max(last.1, range.1))];
      } else {
        merged := merged + [range];
      }
    }
    assert ranges[..|ranges|] == ranges;
  }

  /** Clips, sorts and merges the runs: no entry is covered that was not asked
      for, and none asked for is left out. */
  method Ranges(runs: Option<seq<Run>>, total: nat) returns (ranges: seq<Range>)
    ensures runs.None? ==> ranges == [(0, total)]
    ensures runs.Some? ==> Proper(ranges, total)
    ensures Separated(ranges)
    ensures forall i: nat :: Covers(ranges, i) <==> i < total && (runs.Some? ==> Asked(runs.value, total, i))
  {
    if runs.None? {
      ranges := [(0, total)];
      forall i: nat ensures Covers(ranges, i) <==> i < total {
        assert ranges == [] + [(0, total)];
        CoversNext([], (0, total), i);
      }
      return;
    }
    var clipped := Clipped(runs.value, total);
    ClippedIsProper(runs.value, total);
    SortedIsProper(clipped, total);
    SortSorted(clipped, ByStart());
    SortMembers(clipped, ByStart());
    SameCover(StableSort(clipped, ByStart()), clipped);
    ranges := Merge(StableSort(clipped, ByStart()), total);
    forall i: nat ensures Covers(ranges, i) <==> i < total && Asked(runs.value, total, i) {
      ClippedCovers(runs.value, total, i);
    }
  }

  lemma BeforeLast(a: seq<Range>, i: nat)
    requires a != [] && Separated(a)
    ensures Covers(a[..|a| - 1], i) ==> i < a[|a| - 1].0
  {
  }

  // ----- What a preview shows

  datatype Chunk<E> = Chunk(from: nat, entries: seq<E>)

  datatype ConversationPreview<E> = ConversationPreview(
    entriesTotal: nat,
    chunks: seq<Chunk<E>>,
    omittedEntries: nat,
    omittedBytes: nat)

  /** The entries among the first `n` a list of ranges covers. */
  ghost function CoveredBelow(ranges: seq<Range>, n: nat): set<nat> {
    set i | 0 <= i < n && Covers(ranges, i)
  }

  function Lengths(ranges: seq<Range>): (n: nat) {
    if ranges == [] then 0
    else Lengths(ranges[..|ranges| - 1]) + Less(ranges[|ranges| - 1].1, ranges[|ranges| - 1].0)
  }

  ghost function Between(a: nat, b: nat): set<nat> {
    set i | i in Below(b) && a <= i
  }

  lemma {:induction false} BetweenCount(a: nat, b: nat)
    requires a <= b
    ensures |Between(a, b)| == b - a
  {
    if a == b {
      assert Between(a, b) == {};
    } else {
      BetweenCount(a, b - 1);
      assert Between(a, b) == Between(a, b - 1) + {b - 1};
    }
  }

  /** Separated ranges are as long as what they cover is large. */
  lemma {:induction false} LengthsCountCovered(ranges: seq<Range>, total: nat)
    requires Separated(ranges)
    requires forall k :: 0 <= k < |ranges| ==> ranges[k].0 <= ranges[k].1 <= total
    ensures Lengths(ranges) == |CoveredBelow(ranges, total)|
  {
    if ranges == [] {
      assert CoveredBelow(ranges, total) == {};
    } else {
      var rest, r := ranges[..|ranges| - 1], ranges[|ranges| - 1];
      LengthsCountCovered(rest, total);
      BetweenCount(r.0, r.1);
      assert ranges == rest + [r];
      forall i: nat ensures Covers(ranges, i) <==> Covers(rest, i) || r.0 <= i < r.1 {
        CoversNext(rest, r, i);
      }
      forall i: nat ensures Covers(rest, i) ==> i < r.0 {
        BeforeLast(ranges, i);
      }
      assert CoveredBelow(ranges, total) == CoveredBelow(rest, total) + Between(r.0, r.1);
      assert CoveredBelow(rest, total) !! Between(r.0, r.1);
    }
  }

  /** The bytes of the first `n` entries no range holds. */
  function BytesOutside(bytes: seq<nat>, ranges: seq<Range>, n: nat): (sum: nat)
    requires n <= |bytes|
  {
    if n == 0 then 0
    else BytesOutside(bytes, ranges, n - 1) + if Covers(ranges, n - 1) then 0 else bytes[n - 1]
  }

  /** Chunk `k` holds exactly the entries of range `k`, each cut. */
  ghost predicate ChunksHold<E(!new)>(entries: seq<E>, cut: E -> E, ranges: seq<Range>, chunks: seq<Chunk<E>>) {
    && |chunks| <= |ranges|
    && forall k :: 0 <= k < |chunks| ==> ChunkHolds(entries, cut, ranges[k], chunks[k])
  }

  ghost predicate ChunkHolds<E(!new)>(entries: seq<E>, cut: E -> E, r: Range, chunk: Chunk<E>) {
    && chunk.from == r.0 <= r.1 <= |entries| && |chunk.entries| == r.1 - r.0
    && forall i :: 0 <= i < |chunk.entries| ==> chunk.entries[i] == cut(entries[chunk.from + i])
  }

  function EntriesIn<E>(chunks: seq<Chunk<E>>): (n: nat) {
    if chunks == [] then 0 else EntriesIn(chunks[..|chunks| - 1]) + |chunks[|chunks| - 1].entries|
  }

  lemma {:induction false} ChunksCount<E(!new)>(entries: seq<E>, cut: E -> E, ranges: seq<Range>, chunks: seq<Chunk<E>>)
    requires ChunksHold(entries, cut, ranges, chunks) && |chunks| == |ranges|
    ensures EntriesIn(chunks) == Lengths(ranges)
  {
    if chunks != [] {
      assert ChunkHolds(entries, cut, ranges[|ranges| - 1], chunks[|chunks| - 1]);
      ChunksCount(entries, cut, ranges[..|ranges| - 1], chunks[..|chunks| - 1]);
    }
  }

  /** Whether a chunk shows entry `i`. */
  ghost predicate Shows<E(!new)>(chunk: Chunk<E>, i: nat) {
    chunk.from <= i < chunk.from + |chunk.entries|
  }

  method ChunksOf<E(!new)>(entries: seq<E>, cut: E -> E, ranges: seq<Range>) returns (chunks: seq<Chunk<E>>)
    requires forall k :: 0 <= k < |ranges| ==> ranges[k].0 <= ranges[k].1 <= |entries|
    ensures |chunks| == |ranges| && ChunksHold(entries, cut, ranges, chunks)
  {
    chunks := [];
    for k := 0 to |ranges|
      invariant |chunks| == k && ChunksHold(entries, cut, ranges, chunks)
    {
      var r := ranges[k];
      var part := seq(r.1 - r.0, i requires 0 <= i < r.1 - r.0 => cut(entries[r.0 + i]));
      assert ChunkHolds(entries, cut, r, Chunk(r.0, part));
      chunks := chunks + [Chunk(r.0, part)];
    }
  }

  ghost predicate Shown<E(!new)>(chunks: seq<Chunk<E>>, i: nat) {
    exists k :: 0 <= k < |chunks| && Shows(chunks[k], i)
  }

  /** No entry is in two chunks. */
  ghost predicate ShownOnce<E(!new)>(chunks: seq<Chunk<E>>) {
    forall k, l :: 0 <= k < l < |chunks| ==> chunks[k].from + |chunks[k].entries| < chunks[l].from
  }

  /** Chunks hold consecutive entries of the conversation, each cut. */
  ghost predicate AreCut<E(!new)>(entries: seq<E>, cut: E -> E, chunks: seq<Chunk<E>>) {
    forall k :: 0 <= k < |chunks| ==> IsCut(entries, cut, chunks[k])
  }

  ghost predicate IsCut<E(!new)>(entries: seq<E>, cut: E -> E, chunk: Chunk<E>) {
    && chunk.from + |chunk.entries| <= |entries|
    && forall i :: 0 <= i < |chunk.entries| ==> chunk.entries[i] == cut(entries[chunk.from + i])
  }

  /** The chosen part of a conversation: what is shown and what is omitted
      make up the whole, and no entry is shown twice. */
  method PreviewOf<E(!new)>(entries: seq<E>, bytes: seq<nat>, runs: Option<seq<Run>>, cut: E -> E)
    returns (p: ConversationPreview<E>)
    requires |bytes| == |entries|
    ensures p.entriesTotal == |entries| == EntriesIn(p.chunks) + p.omittedEntries
    ensures forall i: nat :: Shown(p.chunks, i) <==> i < |entries| && (runs.Some? ==> Asked(runs.value, |entries|, i))
    ensures ShownOnce(p.chunks) && AreCut(entries, cut, p.chunks)
    ensures p.omittedBytes == UnshownBytes(bytes, p.chunks, |entries|)
  {
    var ranges := Ranges(runs, |entries|);
    assert forall k :: 0 <= k < |ranges| ==> ranges[k].0 <= ranges[k].1 <= |entries|;
    var chunks := ChunksOf(entries, cut, ranges);
    LengthsCountCovered(ranges, |entries|);
    ChunksCount(entries, cut, ranges, chunks);
    Fewer(CoveredBelow(ranges, |entries|), Below(|entries|));
    p := ConversationPreview(|entries|, chunks, Less(|entries|, Lengths(ranges)),
                             BytesOutside(bytes, ranges, |entries|));
    ShowsWhatIsCovered(entries, cut, ranges, chunks);
    ChunksAreCut(entries, cut, ranges, chunks);
    SameBytes(bytes, ranges, chunks, |entries|);
  }

  /** The bytes of the first `n` entries no chunk shows. */
  ghost function UnshownBytes<E(!new)>(bytes: seq<nat>, chunks: seq<Chunk<E>>, n: nat): nat
    requires n <= |bytes|
  {
    if n == 0 then 0 else UnshownBytes(bytes, chunks, n - 1) + if Shown(chunks, n - 1) then 0 else bytes[n - 1]
  }

  lemma {:induction false} SameBytes<E(!new)>(bytes: seq<nat>, ranges: seq<Range>, chunks: seq<Chunk<E>>, n: nat)
    requires n <= |bytes| && forall i: nat :: Shown(chunks, i) <==> Covers(ranges, i)
    ensures BytesOutside(bytes, ranges, n) == UnshownBytes(bytes, chunks, n)
  {
    if n > 0 {
      SameBytes(bytes, ranges, chunks, n - 1);
    }
  }

  lemma ChunksAreCut<E(!new)>(entries: seq<E>, cut: E -> E, ranges: seq<Range>, chunks: seq<Chunk<E>>)
    requires |chunks| == |ranges| && ChunksHold(entries, cut, ranges, chunks) && Separated(ranges)
    ensures ShownOnce(chunks) && AreCut(entries, cut, chunks)
  {
    forall k | 0 <= k < |chunks|
      ensures IsCut(entries, cut, chunks[k]) && chunks[k].from == ranges[k].0
              && chunks[k].from + |chunks[k].entries| == ranges[k].1
    {
      assert ChunkHolds(entries, cut, ranges[k], chunks[k]);
    }
  }

  lemma ShowsWhatIsCovered<E(!new)>(entries: seq<E>, cut: E -> E, ranges: seq<Range>, chunks: seq<Chunk<E>>)
    requires |chunks| == |ranges| && ChunksHold(entries, cut, ranges, chunks)
    ensures forall i: nat :: Shown(chunks, i) <==> Covers(ranges, i)
  {
    forall i: nat ensures Shown(chunks, i) <==> Covers(ranges, i) {
      if Covers(ranges, i) {
        var k :| 0 <= k < |ranges| && ranges[k].0 <= i < ranges[k].1;
        assert ChunkHolds(entries, cut, ranges[k], chunks[k]);
        assert Shows(chunks[k], i);
      }
      if Shown(chunks, i) {
        var k :| 0 <= k < |chunks| && Shows(chunks[k], i);
        assert ChunkHolds(entries, cut, ranges[k], chunks[k]);
      }
    }
  }
}
