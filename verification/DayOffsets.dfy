/** The UTC offsets a time zone applies over a range of time, so that events
    can be grouped by the zone's calendar days. */
module DayOffsets {
  import opened Collections

  const MICROS_PER_SECOND: int := 1_000_000
  const DAY_SECONDS: int := 86_400
  const I64_MIN: int := -0x8000_0000_0000_0000
  const I64_MAX: int := 0x7fff_ffff_ffff_ffff

  /** One UTC offset and the second it takes effect. */
  datatype Change = Change(start: int, offset: int)

  /** A zone is its offset at every second. */
  type Zone = int -> int

  /** Whether the zone's offset changes at second `t`. */
  ghost predicate ChangesAt(zone: Zone, t: int) {
    zone(t - 1) != zone(t)
  }

  /** No two changes within a day of one another. */
  ghost predicate AtMostOnceADay(zone: Zone) {
    forall a, b :: a < b && ChangesAt(zone, a) && ChangesAt(zone, b) ==> b - a >= DAY_SECONDS
  }

  lemma {:induction false} ChangeBetween(zone: Zone, a: int, b: int) returns (t: int)
    requires a <= b && zone(a) != zone(b)
    ensures a < t <= b && ChangesAt(zone, t)
    decreases b - a
  {
    if ChangesAt(zone, b) {
      t := b;
    } else {
      t := ChangeBetween(zone, a, b - 1);
    }
  }

  /** Equal offsets at most a day apart leave no room for a change. */
  lemma SteadyBetweenEqual(zone: Zone, a: int, b: int, s: int)
    requires AtMostOnceADay(zone) && a <= s <= b <= a + DAY_SECONDS && zone(a) == zone(b)
    ensures zone(s) == zone(a)
  {
    if zone(s) != zone(a) {
      var t := ChangeBetween(zone, a, s);
      var u := ChangeBetween(zone, s, b);
    }
  }

  /** Before a change, the day before it is steady. */
  lemma SteadyBeforeChange(zone: Zone, a: int, high: int, s: int)
    requires AtMostOnceADay(zone) && ChangesAt(zone, high) && a <= s < high <= a + DAY_SECONDS
    ensures zone(s) == zone(a)
  {
    if zone(s) != zone(a) {
      var t := ChangeBetween(zone, a, s);
    }
  }

  /** Changes in order, each to another offset. */
  ghost predicate InOrder(changes: seq<Change>) {
    && (forall i, j :: 0 <= i < j < |changes| ==> changes[i].start < changes[j].start)
    && forall i :: 0 < i < |changes| ==> changes[i - 1].offset != changes[i].offset
  }

  /** Change `k` is the latest that has taken effect at second `s`. */
  ghost predicate InForce(changes: seq<Change>, k: nat, s: int) {
    k < |changes| && changes[k].start <= s && (k + 1 < |changes| ==> s < changes[k + 1].start)
  }

  /** From `from` to `to`, the zone's offset is that of the change in force. */
  ghost predicate Reconstructs(changes: seq<Change>, zone: Zone, from: int, to: int) {
    && changes != [] && changes[0].start == from
    && changes[|changes| - 1].start <= to
    && forall k: nat, s :: InForce(changes, k, s) && s <= to ==> zone(s) == changes[k].offset
  }

  /** The mean, rounded toward zero. */
  function Midpoint(a: int, b: int): (m: int)
    ensures a + 2 <= b ==> a < m < b
    ensures if a + b < 0 then 2 * m - 1 <= a + b <= 2 * m else 2 * m <= a + b <= 2 * m + 1
  {
    var sum := a + b;
    if sum < 0 then -(-sum / 2) else sum / 2
  }

  /** Narrows a change to the second it takes effect. */
  method Bisect(zone: Zone, cursor: int, next: int) returns (high: int)
    requires cursor < next && zone(cursor) != zone(next)
    ensures cursor < high <= next && zone(high - 1) == zone(cursor) && zone(high) != zone(cursor)
  {
    var current := zone(cursor);
    var low;
    low, high := cursor, next;
    while high - low > 1
      invariant cursor <= low < high <= next
      invariant zone(low) == current && zone(high) != current
      decreases high - low
    {
      var middle := Midpoint(low, high);
      if zone(middle) == current {
        low := middle;
      } else {
        high := middle;
      }
    }
  }

  lemma LastInForce(changes: seq<Change>, k: nat, s: int)
    requires InOrder(changes) && InForce(changes, k, s) && changes[|changes| - 1].start <= s
    ensures k == |changes| - 1
  {
  }

  lemma StepsOn(changes: seq<Change>, zone: Zone, from: int, cursor: int, next: int)
    requires AtMostOnceADay(zone) && InOrder(changes) && Reconstructs(changes, zone, from, cursor)
    requires changes[|changes| - 1].offset == zone(cursor) == zone(next)
    requires cursor <= next <= cursor + DAY_SECONDS
    ensures Reconstructs(changes, zone, from, next)
  {
    forall k: nat, s | InForce(changes, k, s) && s <= next ensures zone(s) == changes[k].offset {
      if s > cursor {
        SteadyBetweenEqual(zone, cursor, next, s);
        LastInForce(changes, k, s);
      }
    }
  }

  lemma ChangesHere(changes: seq<Change>, zone: Zone, from: int, cursor: int, high: int)
    requires AtMostOnceADay(zone) && InOrder(changes) && Reconstructs(changes, zone, from, cursor)
    requires changes[|changes| - 1].offset == zone(cursor)
    requires cursor < high <= cursor + DAY_SECONDS && zone(high - 1) == zone(cursor) && zone(high) != zone(cursor)
    ensures InOrder(changes + [Change(high, zone(high))])
    ensures Reconstructs(changes + [Change(high, zone(high))], zone, from, high)
  {
    var more := changes + [Change(high, zone(high))];
    forall k: nat, s | InForce(more, k, s) && s <= high ensures zone(s) == more[k].offset {
      if k < |changes| {
        BeforeChange(changes, zone, from, cursor, high, k, s);
      }
    }
  }

  lemma BeforeChange(changes: seq<Change>, zone: Zone, from: int, cursor: int, high: int, k: nat, s: int)
    requires AtMostOnceADay(zone) && InOrder(changes) && Reconstructs(changes, zone, from, cursor)
    requires changes[|changes| - 1].offset == zone(cursor)
    requires cursor < high <= cursor + DAY_SECONDS && ChangesAt(zone, high)
    requires k < |changes| && InForce(changes + [Change(high, zone(high))], k, s) && s <= high
    ensures zone(s) == changes[k].offset
  {
    var more := changes + [Change(high, zone(high))];
    assert changes[k] == more[k];
    assert k + 1 < |changes| ==> more[k + 1] == changes[k + 1];
    assert InForce(changes, k, s);
    if s > cursor {
      LastInForce(changes, k, s);
      assert more[k + 1].start == high;
      SteadyBeforeChange(zone, cursor, high, s);
    }
  }

  /** The offsets a zone applies from one second up to another: a day at a
      time, each change narrowed to its exact second. */
  method UtcOffsetChanges(zone: Zone, from: int, to: int) returns (changes: seq<Change>)
    requires AtMostOnceADay(zone) && from <= to
    ensures InOrder(changes) && Reconstructs(changes, zone, from, to)
  {
    var current := zone(from);
    changes := [Change(from, current)];
    var cursor := from;
    while cursor < to
      invariant from <= cursor <= to && current == zone(cursor)
      invariant InOrder(changes) && Reconstructs(changes, zone, from, cursor)
      invariant changes[|changes| - 1].offset == current
    {
      var next := if cursor + DAY_SECONDS < to then cursor + DAY_SECONDS else to;
      if zone(next) == current {
        StepsOn(changes, zone, from, cursor, next);
        cursor := next;
      } else {
        var high := Bisect(zone, cursor, next);
        ChangesHere(changes, zone, from, cursor, high);
        current := zone(high);
        changes := changes + [Change(high, current)];
        cursor := high;
      }
    }
  }

  // ----- Days of events

  /** Multiplication that stops at the bounds of a 64-bit integer. */
  function SaturatingMul(a: int, b: int): int {
    if a * b < I64_MIN then I64_MIN else if a * b > I64_MAX then I64_MAX else a * b
  }

  /** The second of an instant, rounding down before 1970 too. */
  function SecondOf(micros: int): int {
    micros / MICROS_PER_SECOND
  }

  /** The last second the calendar has, well before the last a 64-bit count of
      microseconds reaches. */
  type CalendarEnd = s: int | s < SecondOf(I64_MAX) witness 0

  /** A zone's offsets, looked up in the seconds the calendar has. */
  datatype NamedZone = Utc | Named(lookup: Zone, first: int, last: CalendarEnd)
  {
    /** Nothing is looked up beyond the calendar: the offset is none there. */
    function Offsets(): Zone {
      match this
      case Utc => (s: int) => 0
      case Named(lookup, first, last) => (s: int) => if first <= s <= last then lookup(s) else 0
    }
  }

  /** Microseconds in whole seconds, rounding down; seconds in microseconds, as
      far as 64 bits count. */
  lemma SecondsAndMicros(micros: int, seconds: int)
    ensures SecondOf(micros) * 1_000_000 <= micros < SecondOf(micros) * 1_000_000 + 1_000_000
    ensures var product := SaturatingMul(seconds, MICROS_PER_SECOND);
      && -9223372036854775808 <= product <= 9223372036854775807
      && (-9223372036854 <= seconds <= 9223372036854 ==> product == seconds * 1_000_000)
      && (seconds > 9223372036854 ==> product == 9223372036854775807)
      && (seconds < -9223372036854 ==> product == -9223372036854775808)
  {
  }

  type Pair = (int, int)

  function PairsOf(changes: seq<Change>): (pairs: seq<Pair>)
    ensures |pairs| == |changes|
    ensures forall k :: 0 <= k < |pairs| ==>
              && pairs[k].0 == SaturatingMul(changes[k].start, MICROS_PER_SECOND)
              && pairs[k].1 == SaturatingMul(changes[k].offset, MICROS_PER_SECOND)
  {
    seq(|changes|, k requires 0 <= k < |changes| =>
      (SaturatingMul(changes[k].start, MICROS_PER_SECOND), SaturatingMul(changes[k].offset, MICROS_PER_SECOND)))
  }

  /** Pair `k` has the greatest start that is not behind `micros`. */
  ghost predicate Picked(pairs: seq<Pair>, micros: int, k: nat) {
    && k < |pairs| && pairs[k].0 <= micros
    && forall l :: 0 <= l < |pairs| && pairs[l].0 <= micros ==> pairs[l].0 <= pairs[k].0
  }

  /** The offset a query finds for an instant is the one of its own second. */
  ghost predicate OffsetsOf(pairs: seq<Pair>, zone: Zone, micros: int) {
    && (exists k :: Picked(pairs, micros, k))
    && forall k: nat :: Picked(pairs, micros, k) ==>
         pairs[k].1 == SaturatingMul(zone(SecondOf(micros)), MICROS_PER_SECOND)
  }

  /** The pairs of a zone's changes, the first reaching back to the beginning. */
  function Anchored(changes: seq<Change>): (pairs: seq<Pair>) {
    var pairs := PairsOf(changes);
    if pairs == [] then [(I64_MIN, 0)] else pairs[0 := (I64_MIN, pairs[0].1)]
  }

  /** Each later change is one of the zone's. */
  lemma StartsAreChanges(changes: seq<Change>, zone: Zone, from: int, to: int, k: nat)
    requires InOrder(changes) && Reconstructs(changes, zone, from, to) && 0 < k < |changes|
    ensures ChangesAt(zone, changes[k].start) && changes[k].start <= to
  {
    var start := changes[k].start;
    assert start <= changes[|changes| - 1].start;
    assert InForce(changes, k, start) && InForce(changes, k - 1, start - 1);
  }

  /** No change takes effect in the second after the last instant a 64-bit
      integer can count, where a start in microseconds would stop short. */
  ghost predicate Countable(zone: Zone) {
    !ChangesAt(zone, SecondOf(I64_MAX) + 1)
  }

  /** The calendar ends before. */
  lemma EveryZoneIsCountable(zone: NamedZone)
    ensures Countable(zone.Offsets())
  {
  }

  /** A pair starts behind an instant exactly when its change takes effect
      after the instant's second. */
  lemma StartsAgree(start: int, micros: int)
    requires I64_MIN <= micros <= I64_MAX && SecondOf(I64_MIN) < start
    requires micros == I64_MAX ==> start <= SecondOf(micros)
    ensures SaturatingMul(start, MICROS_PER_SECOND) <= micros <==> start <= SecondOf(micros)
  {
  }

  lemma StartsBehind(changes: seq<Change>, zone: Zone, first: int, last: int, micros: int, l: nat)
    requires InOrder(changes) && Reconstructs(changes, zone, SecondOf(first), SecondOf(last) + 1)
    requires I64_MIN <= first <= micros <= last <= I64_MAX && Countable(zone)
    requires l < |changes|
    ensures Anchored(changes)[l].0 <= micros <==> changes[l].start <= SecondOf(micros)
  {
    if l > 0 {
      assert changes[0].start < changes[l].start;
      StartsAreChanges(changes, zone, SecondOf(first), SecondOf(last) + 1, l);
      StartsAgree(changes[l].start, micros);
    }
  }

  lemma StartsRise(changes: seq<Change>, first: int, micros: int, l: nat, k: nat)
    requires InOrder(changes) && l < k < |changes| && changes[0].start == SecondOf(first)
    requires I64_MIN <= first <= micros <= I64_MAX && changes[k].start <= SecondOf(micros)
    ensures Anchored(changes)[l].0 < Anchored(changes)[k].0
  {
    assert changes[l].start < changes[k].start && changes[0].start < changes[k].start;
    if l > 0 {
      assert changes[0].start < changes[l].start;
    }
  }

  /** The pair picked for an instant is that of the change in force. */
  lemma PickedInForce(changes: seq<Change>, zone: Zone, first: int, last: int, micros: int, k: nat)
    requires InOrder(changes) && Reconstructs(changes, zone, SecondOf(first), SecondOf(last) + 1)
    requires I64_MIN <= first <= micros <= last <= I64_MAX && Countable(zone)
    requires InForce(changes, k, SecondOf(micros))
    ensures Picked(Anchored(changes), micros, k)
    ensures forall l: nat :: Picked(Anchored(changes), micros, l) ==> l == k
  {
    PairsUpTo(changes, zone, first, last, micros, k);
    forall l: nat | l < k ensures Anchored(changes)[l].0 < Anchored(changes)[k].0 {
      StartsRise(changes, first, micros, l, k);
    }
    LastIsPicked(Anchored(changes), micros, k);
  }

  /** The pairs that start by an instant are those up to the change in force. */
  lemma PairsUpTo(changes: seq<Change>, zone: Zone, first: int, last: int, micros: int, k: nat)
    requires InOrder(changes) && Reconstructs(changes, zone, SecondOf(first), SecondOf(last) + 1)
    requires I64_MIN <= first <= micros <= last <= I64_MAX && Countable(zone)
    requires InForce(changes, k, SecondOf(micros))
    ensures forall l: nat :: l < |changes| ==> (Anchored(changes)[l].0 <= micros <==> l <= k)
  {
    forall l: nat | l < |changes| ensures Anchored(changes)[l].0 <= micros <==> l <= k {
      StartsBehind(changes, zone, first, last, micros, l);
      if k + 1 < l {
        assert changes[k + 1].start < changes[l].start;
      } else if l < k {
        assert changes[l].start < changes[k].start;
      }
    }
  }

  lemma LastIsPicked(pairs: seq<Pair>, micros: int, k: nat)
    requires k < |pairs| && forall l: nat :: l < |pairs| ==> (pairs[l].0 <= micros <==> l <= k)
    requires forall l: nat :: l < k ==> pairs[l].0 < pairs[k].0
    ensures Picked(pairs, micros, k)
    ensures forall l: nat :: Picked(pairs, micros, l) ==> l == k
  {
  }

  lemma {:induction false} SomeInForce(changes: seq<Change>, s: int, n: nat) returns (k: nat)
    requires 0 < n <= |changes| && changes[0].start <= s && (n < |changes| ==> s < changes[n].start)
    ensures InForce(changes, k, s)
  {
    if changes[n - 1].start <= s {
      k := n - 1;
    } else {
      k := SomeInForce(changes, s, n - 1);
    }
  }

  lemma PairsCarryOffsets(changes: seq<Change>, zone: Zone, first: int, last: int, micros: int)
    requires InOrder(changes) && Reconstructs(changes, zone, SecondOf(first), SecondOf(last) + 1)
    requires I64_MIN <= first <= micros <= last <= I64_MAX && Countable(zone)
    ensures OffsetsOf(Anchored(changes), zone, micros)
  {
    var k := SomeInForce(changes, SecondOf(micros), |changes|);
    PickedInForce(changes, zone, first, last, micros, k);
    assert zone(SecondOf(micros)) == changes[k].offset;
  }

  /** Pairs for a range of events in microseconds: picking by start gives every
      event its own offset, and something is picked however early the instant. */
  method DayOffsets(zone: NamedZone, events: Option<Pair>) returns (pairs: seq<Pair>)
    requires AtMostOnceADay(zone.Offsets())
    requires events.Some? ==> I64_MIN <= events.value.0 <= events.value.1 <= I64_MAX
    ensures pairs != [] && pairs[0].0 == I64_MIN
    ensures events.Some? ==> forall micros :: events.value.0 <= micros <= events.value.1 ==>
              OffsetsOf(pairs, zone.Offsets(), micros)
  {
    var changes: seq<Change> := [];
    if events.Some? && zone.Named? {
      changes := UtcOffsetChanges(zone.Offsets(), SecondOf(events.value.0), SecondOf(events.value.1) + 1);
      EveryZoneIsCountable(zone);
      forall micros | events.value.0 <= micros <= events.value.1
        ensures OffsetsOf(Anchored(changes), zone.Offsets(), micros)
      {
        PairsCarryOffsets(changes, zone.Offsets(), events.value.0, events.value.1, micros);
      }
    }
    pairs := PairsOf(changes);
    if pairs != [] {
      pairs := pairs[0 := (I64_MIN, pairs[0].1)];
    } else {
      pairs := [(I64_MIN, 0)];
    }
    assert pairs == Anchored(changes);
    if zone.Utc? {
      OneOffsetForUtc();
    }
  }

  lemma OneOffsetForUtc()
    ensures forall micros :: I64_MIN <= micros ==> OffsetsOf([(I64_MIN, 0)], Utc.Offsets(), micros)
  {
    forall micros | I64_MIN <= micros ensures OffsetsOf([(I64_MIN, 0)], Utc.Offsets(), micros) {
      assert Picked([(I64_MIN, 0)], micros, 0);
    }
  }
}
