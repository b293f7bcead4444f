/** What readers of a session's structure can rely on. */
module StreamLaws {
  import opened Collections
  import opened Exchanges
  import opened Grouping
  import opened Segmentation
  import opened SegmentLaws
  import opened Sorting
  import opened Streams

  /** Every exchange of a segment has the segment's turn. */
  lemma SegmentsShareTheirTurn(xs: seq<Exchange>, st: SessionStructure, i: nat)
    requires Passed(xs, st) && st.Valid() && i < |xs|
    ensures st.TurnOf(i) == st.TurnOf(st.HeadOf(st.segmentation.segmentOf[i]))
  {
    var c := Session(xs, st.bases, st.turns.of);
    MembersShareTheirKey(c, st.segmentation, st.segmentation.segmentOf[i], i);
  }

  /** `location` is where the exchange `k` stands: in its segment, with the
      segment's own turn. */
  ghost predicate StandsAt(events: seq<StreamEvent>, st: SessionStructure, k: nat, location: EventLocation)
    requires Derived(events, st)
  {
    && k < |Grouped(events)|
    && var s := st.segmentation.segmentOf[k];
       && s < |st.segments| && k in st.segmentation.segments[s].exchanges
       && location == EventLocation(st.segments[s].head, st.segments[s].turn, st.segments[s].kind,
                                    Grouped(events)[k].id)
  }

  /** Exchange `k`, and no other, holds `pk`. */
  ghost predicate HoldsAlone(xs: seq<Exchange>, k: nat, pk: int) {
    && k < |xs| && pk in xs[k].eventPks
    && forall l :: 0 <= l < |xs| && l != k ==> pk !in xs[l].eventPks
  }

  lemma HolderIsIndexed(xs: seq<Exchange>, st: SessionStructure, k: nat, pk: int)
    requires Passed(xs, st) && HoldsAlone(xs, k, pk)
    ensures pk in st.eventToExchange && st.eventToExchange[pk] == k
  {
  }

  lemma PositionOfHolder(events: seq<StreamEvent>, st: SessionStructure, k: nat, pk: int)
    requires Derived(events, st) && HoldsAlone(Grouped(events), k, pk)
    ensures st.EventPosition(pk).Some?
    ensures StandsAt(events, st, k, st.EventPosition(pk).value)
  {
    HolderIsIndexed(Grouped(events), st, k, pk);
    ExchangeHasSegment(events, st, k);
  }

  /** An exchange is listed in its segment, which has the exchange's turn. */
  lemma ExchangeHasSegment(events: seq<StreamEvent>, st: SessionStructure, k: nat)
    requires Derived(events, st) && k < |Grouped(events)|
    ensures var s := st.segmentation.segmentOf[k];
      && k in st.segmentation.segments[s].exchanges
      && st.segments[s].head == st.SegmentHead(s) && st.segments[s].turn == st.TurnOf(k).1
      && st.exchanges[k].id == Grouped(events)[k].id
  {
    var s := st.segmentation.segmentOf[k];
    SegmentsShareTheirTurn(Grouped(events), st, k);
    assert st.segments[s] == st.SegmentAt(s);
  }

  lemma LocatedKeysAreEvents(events: seq<StreamEvent>, st: SessionStructure, pk: int)
    requires Derived(events, st) && pk in st.eventToExchange
    ensures pk in Pks(events)
  {
    var xs := Grouped(events);
    GroupingConservesEvents(events);
    HeldPksAt(xs, st.eventToExchange[pk]);
    assert pk in multiset(HeldPks(xs));
  }

  lemma HolderOf(events: seq<StreamEvent>, pk: int) returns (k: nat)
    requires Distinct(Pks(events)) && pk in Pks(events)
    ensures HoldsAlone(Grouped(events), k, pk)
  {
    var i :| 0 <= i < |events| && Pks(events)[i] == pk;
    EachEventHasOneExchange(events, i);
    k :| 0 <= k < |Grouped(events)| && events[i].pk in Grouped(events)[k].eventPks;
  }

  /** Every event of the session is found, in the one exchange that holds it
      and the one segment that holds the exchange; nothing else is. */
  lemma EventsAreLocated(events: seq<StreamEvent>, st: SessionStructure, pk: int)
    requires Derived(events, st) && Distinct(Pks(events))
    ensures st.EventPosition(pk).Some? <==> pk in Pks(events)
    ensures pk in Pks(events) ==>
              exists k :: 0 <= k < |Grouped(events)| && pk in Grouped(events)[k].eventPks
                          && StandsAt(events, st, k, st.EventPosition(pk).value)
  {
    if pk in Pks(events) {
      var k := HolderOf(events, pk);
      PositionOfHolder(events, st, k, pk);
    } else if pk in st.eventToExchange {
      LocatedKeysAreEvents(events, st, pk);
    }
  }

  /** The segment found for an event is the one its position names; an event
      of no exchange has neither. */
  lemma EventSegmentIsItsPosition(events: seq<StreamEvent>, st: SessionStructure, pk: int)
    requires Derived(events, st)
    ensures st.EventSegment(pk).Some? <==> st.EventPosition(pk).Some?
    ensures st.EventPosition(pk).Some? ==> st.EventSegment(pk) == Some(st.EventPosition(pk).value.segment)
  {
  }

  /** Two events are found in one exchange exactly when they answer one
      response, or are one event. */
  lemma FoundTogether(events: seq<StreamEvent>, st: SessionStructure, i: nat, j: nat)
    requires Derived(events, st) && Distinct(Pks(events)) && i < |events| && j < |events|
    ensures events[i].pk in st.eventToExchange && events[j].pk in st.eventToExchange
    ensures st.eventToExchange[events[i].pk] == st.eventToExchange[events[j].pk]
            <==> i == j || (events[i].responseId.Some? && events[i].responseId == events[j].responseId)
  {
    var a := HolderFound(events, st, i);
    var b := HolderFound(events, st, j);
    HoldersTogether(events, i, j, a, b);
  }

  lemma HolderFound(events: seq<StreamEvent>, st: SessionStructure, i: nat) returns (k: nat)
    requires Derived(events, st) && Distinct(Pks(events)) && i < |events|
    ensures HoldsAlone(Grouped(events), k, events[i].pk)
    ensures events[i].pk in st.eventToExchange && st.eventToExchange[events[i].pk] == k
  {
    assert events[i].pk == Pks(events)[i];
    k := HolderOf(events, events[i].pk);
    HolderIsIndexed(Grouped(events), st, k, events[i].pk);
  }

  lemma HoldersTogether(events: seq<StreamEvent>, i: nat, j: nat, a: nat, b: nat)
    requires Distinct(Pks(events)) && i < |events| && j < |events|
    requires HoldsAlone(Grouped(events), a, events[i].pk) && HoldsAlone(Grouped(events), b, events[j].pk)
    ensures a == b <==> i == j || (events[i].responseId.Some? && events[i].responseId == events[j].responseId)
  {
    var xs := Grouped(events);
    if i != j {
      SharedExchangeMeansSharedResponse(events, i, j);
      assert xs[a] in xs;
    }
  }

  /** The exchanges from `i` on in its segment. */
  ghost predicate Rest(st: SessionStructure, i: nat, members: seq<nat>)
    requires st.Valid() && i < |st.exchanges|
  {
    && Increasing(members)
    && (forall k :: 0 <= k < |members| ==> members[k] < |st.exchanges|)
    && (forall j: int :: j in members <==>
          i <= j < |st.exchanges| && st.segmentation.segmentOf[j] == st.segmentation.segmentOf[i])
  }

  lemma SuffixFrom(st: SessionStructure, i: nat, k: nat)
    requires st.Valid() && i < |st.exchanges|
    requires k < |st.segmentation.segments[st.segmentation.segmentOf[i]].exchanges|
    requires st.segmentation.segments[st.segmentation.segmentOf[i]].exchanges[k] == i
    ensures Rest(st, i, st.segmentation.segments[st.segmentation.segmentOf[i]].exchanges[k..])
  {
    var s := st.segmentation.segmentOf[i];
    var members := st.segmentation.segments[s].exchanges;
    assert AllIn(members, st.segmentation.segmentOf, s);
    forall j | j in members[k..] ensures i <= j < |st.exchanges| && st.segmentation.segmentOf[j] == s {
      var l :| 0 <= l < |members[k..]| && members[k..][l] == j;
      assert members[k + l] == j;
    }
    forall j: nat | i <= j < |st.exchanges| && st.segmentation.segmentOf[j] == s ensures j in members[k..] {
      var l :| 0 <= l < |members| && members[l] == j;
      assert l >= k;
      assert members[k..][l - k] == j;
    }
  }

  ghost predicate FirstNamed(xs: seq<Exchange>, id: string, i: nat) {
    i < |xs| && xs[i].id == id && forall j :: 0 <= j < i ==> xs[j].id != id
  }

  /** `run` is the segment of `i` from `i` on. */
  ghost predicate IsRunFrom(st: SessionStructure, i: nat, members: seq<nat>, run: SegmentRun)
    requires st.Valid() && i < |st.exchanges|
  {
    && Rest(st, i, members)
    && run == SegmentRun(st.SegmentHead(st.segmentation.segmentOf[i]), st.ExchangesAt(members))
  }

  lemma RunFromFirst(xs: seq<Exchange>, st: SessionStructure, from: string)
    requires Passed(xs, st) && st.Valid() && from in st.exchangeById
    ensures st.RunFrom(from).Some?
    ensures exists members :: IsRunFrom(st, st.exchangeById[from], members, st.RunFrom(from).value)
  {
    var i := st.exchangeById[from];
    var members := st.segmentation.segments[st.segmentation.segmentOf[i]].exchanges;
    assert i in members;
    var k := ListedAt(members, i);
    SuffixFrom(st, i, k);
    assert IsRunFrom(st, i, members[k..], st.RunFrom(from).value);
  }

  lemma ListedAt(members: seq<nat>, i: nat) returns (k: nat)
    requires i in members
    ensures k < |members| && members[k] == i && FirstPosition(members, IsExchange(i)) == Some(k)
  {
    assert IsExchange(i)(i);
    k := FirstPosition(members, IsExchange(i)).value;
  }

  /** A run holds exactly the exchanges from the first with the asked id to
      the end of its segment, in order; an id no exchange has gives none. */
  lemma RunsAreSuffixes(xs: seq<Exchange>, st: SessionStructure, from: string)
    requires Passed(xs, st) && st.Valid()
    ensures st.RunFrom(from).None? <==> forall i :: 0 <= i < |xs| ==> xs[i].id != from
    ensures st.RunFrom(from).Some? ==>
              exists i, members :: FirstNamed(xs, from, i) && IsRunFrom(st, i, members, st.RunFrom(from).value)
  {
    if from in st.exchangeById {
      RunFromFirst(xs, st, from);
      assert FirstNamed(xs, from, st.exchangeById[from]);
    }
  }

  /** The exchanges in the first `m` segments. */
  ghost function InFirst(segmentOf: seq<nat>, m: nat): set<nat> {
    set i | 0 <= i < |segmentOf| && segmentOf[i] < m
  }

  function SegmentCounts(segments: seq<Segment>, m: nat): (counts: seq<int>)
    requires m <= |segments|
    ensures |counts| == m
  {
    seq(m, s requires 0 <= s < m => |segments[s].exchanges|)
  }

  lemma OneMoreSegment(segments: seq<Segment>, segmentOf: seq<nat>, n: nat, s: nat)
    requires Partition(segments, segmentOf, n) && s < |segments|
    ensures |InFirst(segmentOf, s + 1)| == |InFirst(segmentOf, s)| + |segments[s].exchanges|
  {
    var members := segments[s].exchanges;
    assert AllIn(members, segmentOf, s);
    DistinctCount(members);
    forall i ensures i in InFirst(segmentOf, s + 1) <==> i in InFirst(segmentOf, s) + Elements(members) {
      if i in InFirst(segmentOf, s + 1) {
        assert i in segments[segmentOf[i]].exchanges;
      }
    }
    assert InFirst(segmentOf, s + 1) == InFirst(segmentOf, s) + Elements(members);
    assert InFirst(segmentOf, s) !! Elements(members);
  }

  lemma {:induction false} CountsUpTo(segments: seq<Segment>, segmentOf: seq<nat>, n: nat, m: nat)
    requires Partition(segments, segmentOf, n) && m <= |segments|
    ensures Sum(SegmentCounts(segments, m)) == |InFirst(segmentOf, m)|
  {
    if m == 0 {
      assert InFirst(segmentOf, m) == {};
    } else {
      CountsUpTo(segments, segmentOf, n, m - 1);
      OneMoreSegment(segments, segmentOf, n, m - 1);
      assert SegmentCounts(segments, m)[..m - 1] == SegmentCounts(segments, m - 1);
    }
  }

  /** The segments hold as many exchanges as there are. */
  lemma SegmentCountsAddUp(segments: seq<Segment>, segmentOf: seq<nat>, n: nat)
    requires Partition(segments, segmentOf, n)
    ensures Sum(SegmentCounts(segments, |segments|)) == n
  {
    CountsUpTo(segments, segmentOf, n, |segments|);
    assert InFirst(segmentOf, |segments|) == Below(n);
  }

  lemma InOrder(xs: seq<Exchange>, i: nat, j: nat)
    requires Sorted(xs, NotLater()) && i <= j < |xs|
    ensures xs[i].at <= xs[j].at
  {
    if i < j {
      assert NotLater()(xs[i], xs[j]);
    }
  }

  lemma EarliestIsFirst(times: seq<int>)
    requires times != [] && forall k :: 0 <= k < |times| ==> times[0] <= times[k]
    ensures Earliest(times) == times[0]
  {
    assert times[0] in times;
  }

  lemma EarliestOfMembers(xs: seq<Exchange>, st: SessionStructure, members: seq<nat>)
    requires st.exchanges == Drained(xs) && Sorted(xs, NotLater()) && members != [] && Increasing(members)
    requires forall k :: 0 <= k < |members| ==> members[k] < |xs|
    ensures Earliest(st.Starts(members)) == xs[members[0]].at
  {
    var times := st.Starts(members);
    forall k | 0 <= k < |members| ensures times[0] <= times[k] {
      InOrder(xs, members[0], members[k]);
    }
    EarliestIsFirst(times);
  }

  lemma StartsAtItsHead(xs: seq<Exchange>, st: SessionStructure, s: nat)
    requires st.Valid() && s < |st.segmentation.segments|
    requires st.exchanges == Drained(xs) && Sorted(xs, NotLater())
    ensures st.SegmentAt(s).start == xs[st.HeadOf(s)].at
  {
    var members := st.segmentation.segments[s].exchanges;
    assert AllIn(members, st.segmentation.segmentOf, s);
    EarliestOfMembers(xs, st, members);
  }

  /** A segment starts with its head, and segments are listed by start. */
  lemma SegmentsStartInOrder(events: seq<StreamEvent>, st: SessionStructure, s: nat, t: nat)
    requires Derived(events, st) && s <= t < |st.segments|
    ensures st.segments[s].start == Grouped(events)[st.HeadOf(s)].at
    ensures st.segments[s].start <= st.segments[t].start
  {
    GroupingConservesEvents(events);
    StartsInOrder(Grouped(events), st, s, t);
    assert st.segments[s] == st.SegmentAt(s) && st.segments[t] == st.SegmentAt(t);
  }

  lemma StartsInOrder(xs: seq<Exchange>, st: SessionStructure, s: nat, t: nat)
    requires st.Valid() && s <= t < |st.segmentation.segments|
    requires st.exchanges == Drained(xs) && Sorted(xs, NotLater())
    ensures st.SegmentAt(s).start == xs[st.HeadOf(s)].at
    ensures st.SegmentAt(s).start <= st.SegmentAt(t).start
  {
    StartsAtItsHead(xs, st, s);
    StartsAtItsHead(xs, st, t);
    assert st.HeadOf(s) <= st.HeadOf(t) by {
      assert s < t ==> st.segmentation.segments[s].Head() < st.segmentation.segments[t].Head();
    }
    InOrder(xs, st.HeadOf(s), st.HeadOf(t));
  }

  /** A segment with a parent forks from an exchange the parent holds, its
      head's base; one without a parent names neither. */
  lemma SegmentsForkFromTheirParents(events: seq<StreamEvent>, st: SessionStructure, s: nat)
    requires Derived(events, st) && s < |st.segments|
    ensures st.segments[s].parent.Some? <==> st.segments[s].forkedFrom.Some?
    ensures st.segments[s].parent.None? <==> st.segments[s].kind == Root
    ensures st.segments[s].parent.Some? ==>
              exists b :: 0 <= b < st.HeadOf(s) && st.BaseOf(st.HeadOf(s)) == Some(b)
                && st.segments[s].forkedFrom == Some(st.exchanges[b].id)
                && st.segmentation.segmentOf[b] < s
                && st.segments[s].parent == Some(st.segments[st.segmentation.segmentOf[b]].head)
  {
    var xs := Grouped(events);
    var c := Session(xs, st.bases, st.turns.of);
    ParentsFormAForest(c, st.segmentation, s);
    assert HangsFromItsBase(c, st.segmentation.segments[s], s, st.segmentation.segmentOf);
    assert st.segments[s] == st.SegmentAt(s);
    if st.segments[s].parent.Some? {
      var b := c.Earlier(st.HeadOf(s)).value;
      var parent := st.segmentation.segmentOf[b];
      assert st.segments[parent] == st.SegmentAt(parent);
      assert st.BaseOf(st.HeadOf(s)) == Some(b);
    }
  }
}
