/** Half-open ranges of positions, and arithmetic that stops at zero. */
module Intervals {

  type Range = (nat, nat)

  function Min(a: int, b: int): int {
    if a < b then a else b
  }

  function Max(a: int, b: int): int {
    if a < b then b else a
  }

  /** `a` less `b`, at least zero. */
  function Less(a: nat, b: nat): nat {
    if a < b then 0 else a - b
  }

  /** Whether some range holds position `i`. */
  predicate Covers(ranges: seq<Range>, i: nat) {
    exists k :: 0 <= k < |ranges| && ranges[k].0 <= i < ranges[k].1
  }

  lemma CoversNext(ranges: seq<Range>, r: Range, i: nat)
    ensures Covers(ranges + [r], i) <==> Covers(ranges, i) || r.0 <= i < r.1
  {
    var more := ranges + [r];
    if Covers(ranges, i) {
      var k :| 0 <= k < |ranges| && ranges[k].0 <= i < ranges[k].1;
      assert more[k] == ranges[k];
    }
    if r.0 <= i < r.1 {
      assert more[|ranges|] == r;
    }
  }
}
