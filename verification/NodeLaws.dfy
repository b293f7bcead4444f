/** What a node of the turn view says of its turn and its executors, field by
    field, and in which order it lists them. */
module NodeLaws {
  import opened Collections
  import opened Exchanges
  import opened Gatherings
  import opened Segmentation
  import opened SegmentLaws
  import opened SideLaws
  import opened Sorting
  import opened StartLaws
  import opened StartOrder
  import opened Streams
  import opened Timeline
  import opened TimelineLaws

  /** Segment `s` comes before `t` by start, ties by number. */
  ghost predicate StartsBefore(st: SessionStructure, s: nat, t: nat) {
    && s < |st.segments| && t < |st.segments|
    && (st.segments[s].start < st.segments[t].start || (st.segments[s].start == st.segments[t].start && s <= t))
  }

  ghost predicate InStartOrder(st: SessionStructure, segs: seq<nat>) {
    forall k: nat, l: nat :: k < l < |segs| ==> StartsBefore(st, segs[k], segs[l])
  }

  /** `segs` are all segments of one turn and group. */
  ghost predicate AreOfGroup(st: SessionStructure, turn: Option<int>, group: Group, segs: seq<nat>)
    requires |st.segments| == |st.segmentation.segments|
  {
    forall s: int :: s in segs <==>
      0 <= s < |st.segments| && st.segments[s].turn == turn && st.segmentation.segments[s].group == group
  }

  /** An executor holds all segments of one turn and group, each once, its main
      line apart from its side segments, which are by start. */
  ghost predicate Gathers(st: SessionStructure, turn: Option<int>, e: Executor) {
    && |st.segments| == |st.segmentation.segments|
    && e.main + e.side != [] && Distinct(e.main + e.side)
    && (exists group :: AreOfGroup(st, turn, group, e.main + e.side))
    && (forall s :: s in e.main ==> s < |st.segments| && !st.segmentation.segments[s].side)
    && (forall s :: s in e.side ==> s < |st.segments| && st.segmentation.segments[s].side)
    && InStartOrder(st, e.side)
  }

  /** Its earliest segment. */
  ghost predicate IsEarliest(st: SessionStructure, e: Executor, s: nat) {
    s in e.main + e.side && forall t: nat :: t in e.main + e.side ==> StartsBefore(st, s, t)
  }

  /** Its sub-agent is the one its exchanges declare. */
  ghost predicate TellsWho(xs: seq<Exchange>, st: SessionStructure, e: Executor) {
    && |st.segments| == |st.segmentation.segments|
    && (!SomethingDeclared(xs) ==> e.subagentId == None)
    && forall s: nat, i: nat ::
         s in e.main + e.side && s < |st.segments| && i in st.segmentation.segments[s].exchanges ==>
           IsBy(xs, i, e.subagentId)
  }

  /** Exchange `i` declares `who`, or nothing is declared at all. */
  ghost predicate IsBy(xs: seq<Exchange>, i: nat, who: Option<string>) {
    i < |xs| && who == if SomethingDeclared(xs) then xs[i].subagentId else None
  }

  /** Whoever started it is the one that the first exchange of its earliest
      segment declares; nobody is said to have started what is no sub-agent. */
  ghost predicate TellsWhoStarted(xs: seq<Exchange>, st: SessionStructure, e: Executor) {
    && |st.segments| == |st.segmentation.segments|
    && (e.subagentId.None? ==> e.parentSubagentId == None)
    && (e.subagentId.Some? ==>
          exists s: nat :: IsEarliest(st, e, s) && s < |st.segments| && st.segmentation.segments[s].exchanges != []
            && st.segmentation.segments[s].exchanges[0] < |xs|
            && e.parentSubagentId == xs[st.segmentation.segments[s].exchanges[0]].parentSubagentId)
  }

  // ----- Executors as they are read from a group

  lemma GroupMembers(st: SessionStructure, g: ExecutorGroup, x: nat)
    requires Ready(st) && forall y :: y in g.1 ==> y < |st.segments|
    ensures var e := ExecutorOf(st, g);
      && (x in e.main <==> x in g.1 && !st.segmentation.segments[x].side)
      && (x in e.side <==> x in g.1 && st.segmentation.segments[x].side)
      && (x in e.main + e.side <==> x in g.1)
  {
    var e := ExecutorOf(st, g);
    MemberOfSplit(e.main, e.side, x);
    assert x in g.1 ==> (OnSide(st, false)(x) <==> !OnSide(st, true)(x));
  }

  lemma {:induction false} FilterSorted(s: seq<nat>, p: nat -> bool, leq: (nat, nat) -> bool)
    requires Sorted(s, leq)
    ensures Sorted(Filter<nat>(s, p), leq)
  {
    if s != [] {
      var n := |s| - 1;
      FilterSorted(s[..n], p, leq);
      forall k | 0 <= k < |Filter<nat>(s[..n], p)| ensures leq(Filter<nat>(s[..n], p)[k], s[n]) {
        assert Filter<nat>(s[..n], p)[k] in s[..n];
      }
    }
  }

  /** A turn's group is sorted by start. */
  lemma GroupIsSorted(st: SessionStructure, members: seq<nat>, a: nat)
    requires a < |ExecutorGroups(st, members)|
    ensures Sorted(ExecutorGroups(st, members)[a].1, ByStart(st))
  {
    var b := GroupBefore(st, members, a);
    ByStartIsTotal(st);
    SortSorted(Groups(members, GroupKey(st))[b].1, ByStart(st));
  }

  lemma ByStartIsStartsBefore(st: SessionStructure, s: nat, t: nat)
    requires s < |st.segments| && t < |st.segments|
    ensures ByStart(st)(s, t) <==> StartsBefore(st, s, t)
  {
    assert StartKey(st)(s) == st.segments[s].start && StartKey(st)(t) == st.segments[t].start;
  }

  lemma SideInOrder(st: SessionStructure, g: ExecutorGroup)
    requires Ready(st) && Sorted(g.1, ByStart(st)) && forall y :: y in g.1 ==> y < |st.segments|
    ensures InStartOrder(st, ExecutorOf(st, g).side)
  {
    var side := ExecutorOf(st, g).side;
    FilterSorted(g.1, OnSide(st, true), ByStart(st));
    forall k: nat, l: nat | k < l < |side| ensures StartsBefore(st, side[k], side[l]) {
      assert side[k] in g.1 && side[l] in g.1;
      assert ByStart(st)(side[k], side[l]);
      ByStartIsStartsBefore(st, side[k], side[l]);
    }
  }

  /** An executor holds what its group does, apart by side. */
  ghost predicate Holds(st: SessionStructure, e: Executor, segs: seq<nat>)
    requires |st.segments| == |st.segmentation.segments|
  {
    && (forall x: nat :: x in e.main + e.side <==> x in segs)
    && (forall x: nat :: x in e.main <==> x in segs && x < |st.segments| && !st.segmentation.segments[x].side)
    && (forall x: nat :: x in e.side <==> x in segs && x < |st.segments| && st.segmentation.segments[x].side)
  }

  lemma GroupIsHeld(st: SessionStructure, g: ExecutorGroup)
    requires Ready(st) && forall y :: y in g.1 ==> y < |st.segments|
    ensures Holds(st, ExecutorOf(st, g), g.1)
  {
    forall x: nat
      ensures var e := ExecutorOf(st, g);
        && (x in e.main + e.side <==> x in g.1)
        && (x in e.main <==> x in g.1 && x < |st.segments| && !st.segmentation.segments[x].side)
        && (x in e.side <==> x in g.1 && x < |st.segments| && st.segmentation.segments[x].side)
    {
      GroupMembers(st, g, x);
    }
  }

  lemma DistinctParts(main: seq<nat>, side: seq<nat>)
    requires Distinct(main) && Distinct(side) && forall x :: x in main ==> x !in side
    ensures Distinct(main + side)
  {
    forall i, j | 0 <= i < j < |main + side| ensures (main + side)[i] != (main + side)[j] {
      if i < |main| <= j {
        assert main[i] in main && side[j - |main|] in side;
      }
    }
  }

  lemma GroupIsDistinct(st: SessionStructure, g: ExecutorGroup)
    requires Ready(st) && Distinct(g.1) && forall y :: y in g.1 ==> y < |st.segments|
    ensures var e := ExecutorOf(st, g); Distinct(e.main + e.side)
  {
    var e := ExecutorOf(st, g);
    GroupIsHeld(st, g);
    FilterDistinct(g.1, OnSide(st, false));
    FilterDistinct(g.1, OnSide(st, true));
    DistinctParts(e.main, e.side);
  }

  lemma HeldAreOfGroup(st: SessionStructure, turn: Option<int>, g: ExecutorGroup, e: Executor)
    requires Ready(st) && HoldsKey(st, turn, g) && Holds(st, e, g.1)
    ensures AreOfGroup(st, turn, g.0, e.main + e.side)
  {
    forall s: int
      ensures s in e.main + e.side <==>
                0 <= s < |st.segments| && st.segments[s].turn == turn && st.segmentation.segments[s].group == g.0
    {
      assert s in g.1 <==> 0 <= s < |st.segments| && TurnKey(st)(s) == turn && GroupKey(st)(s) == g.0;
    }
  }

  lemma GroupIsGathered(st: SessionStructure, turn: Option<int>, g: ExecutorGroup)
    requires Ready(st) && HoldsKey(st, turn, g) && Sorted(g.1, ByStart(st))
    ensures Gathers(st, turn, ExecutorOf(st, g))
  {
    GroupIsHeld(st, g);
    GroupIsDistinct(st, g);
    SideInOrder(st, g);
    HeldAreOfGroup(st, turn, g, ExecutorOf(st, g));
    assert g.1[0] in g.1;
  }

  /** A segment's exchanges are all of its group. */
  lemma ExchangesOfGroup(xs: seq<Exchange>, st: SessionStructure, s: nat, i: nat)
    requires Passed(xs, st) && Ready(st) && s < |st.segments| && i in st.segmentation.segments[s].exchanges
    ensures i < |xs| && Session(xs, st.bases, st.turns.of).GroupOf(i) == st.segmentation.segments[s].group
  {
    var c := Session(xs, st.bases, st.turns.of);
    assert AllIn(st.segmentation.segments[s].exchanges, st.segmentation.segmentOf, s);
    MembersShareTheirKey(c, st.segmentation, s, i);
    assert HoldsItsGroup(c, st.segmentation.segments[s], |xs|);
  }

  /** With declarations, all exchanges of a group declare its sub-agent. */
  lemma GroupDeclares(xs: seq<Exchange>, st: SessionStructure, s: nat, i: nat)
    requires Passed(xs, st) && Ready(st) && s < |st.segments| && i in st.segmentation.segments[s].exchanges
    ensures i < |xs|
    ensures SomethingDeclared(xs) ==> st.segmentation.segments[s].group == DeclaredBy(xs[i].subagentId)
    ensures !SomethingDeclared(xs) ==> st.segmentation.segments[s].group.Line?
  {
    ExchangesOfGroup(xs, st, s, i);
    var c := Session(xs, st.bases, st.turns.of);
    if SomethingDeclared(xs) {
      GroupsAreDeclared(c, i);
    } else {
      NoDeclaredGroup(c, i);
    }
  }

  /** Every exchange of the segments declares `who`. */
  ghost predicate Declare(xs: seq<Exchange>, st: SessionStructure, segs: seq<nat>, who: Option<string>) {
    forall s: nat, i: nat ::
      s in segs && s < |st.segmentation.segments| && i in st.segmentation.segments[s].exchanges ==>
        IsBy(xs, i, who)
  }

  lemma GroupTellsWho(xs: seq<Exchange>, st: SessionStructure, turn: Option<int>, g: ExecutorGroup)
    requires Passed(xs, st) && Ready(st) && HoldsKey(st, turn, g)
    ensures Declare(xs, st, g.1, ExecutorOf(st, g).subagentId)
  {
    var who := ExecutorOf(st, g).subagentId;
    forall s: nat, i: nat
      | s in g.1 && s < |st.segmentation.segments| && i in st.segmentation.segments[s].exchanges
      ensures IsBy(xs, i, who)
    {
      ExchangeTellsWho(xs, st, turn, g, s, i);
    }
  }

  lemma NobodyTold(xs: seq<Exchange>, st: SessionStructure, turn: Option<int>, g: ExecutorGroup)
    requires Passed(xs, st) && Ready(st) && HoldsKey(st, turn, g)
    ensures !SomethingDeclared(xs) ==> ExecutorOf(st, g).subagentId == None
  {
    var first := g.1[0];
    assert first in g.1;
    ExchangeTellsWho(xs, st, turn, g, first, st.HeadOf(first));
  }

  lemma DeclaredByExecutor(xs: seq<Exchange>, st: SessionStructure, e: Executor, segs: seq<nat>)
    requires |st.segments| == |st.segmentation.segments| && Holds(st, e, segs) && Declare(xs, st, segs, e.subagentId)
    requires !SomethingDeclared(xs) ==> e.subagentId == None
    ensures TellsWho(xs, st, e)
  {
    forall s: nat, i: nat | s in e.main + e.side && s < |st.segments| && i in st.segmentation.segments[s].exchanges
      ensures IsBy(xs, i, e.subagentId)
    {
      assert s in segs;
    }
  }

  lemma ExchangeTellsWho(xs: seq<Exchange>, st: SessionStructure, turn: Option<int>, g: ExecutorGroup, s: nat, i: nat)
    requires Passed(xs, st) && Ready(st) && HoldsKey(st, turn, g) && s in g.1 && s < |st.segments|
    requires i in st.segmentation.segments[s].exchanges
    ensures IsBy(xs, i, ExecutorOf(st, g).subagentId)
  {
    GroupDeclares(xs, st, s, i);
    assert GroupKey(st)(s) == g.0;
  }

  lemma GroupTellsWhoStarted(xs: seq<Exchange>, st: SessionStructure, g: ExecutorGroup)
    requires Passed(xs, st) && Ready(st) && Sorted(g.1, ByStart(st)) && g.1 != []
    requires forall y :: y in g.1 ==> y < |st.segments|
    ensures TellsWhoStarted(xs, st, ExecutorOf(st, g))
  {
    assert g.1[0] in g.1;
    FirstIsEarliest(st, g);
    HeadWithin(xs, st, g.1[0]);
  }

  lemma HeadWithin(xs: seq<Exchange>, st: SessionStructure, s: nat)
    requires Passed(xs, st) && Ready(st) && s < |st.segments|
    ensures st.segmentation.segments[s].exchanges != [] && st.segmentation.segments[s].exchanges[0] < |xs|
    ensures st.exchanges[st.HeadOf(s)].parentSubagentId
            == xs[st.segmentation.segments[s].exchanges[0]].parentSubagentId
  {
    assert AllIn(st.segmentation.segments[s].exchanges, st.segmentation.segmentOf, s);
  }

  lemma FirstOfSorted(st: SessionStructure, s: seq<nat>, t: nat)
    requires Sorted(s, ByStart(st)) && t in s && forall y :: y in s ==> y < |st.segments|
    ensures StartsBefore(st, s[0], t)
  {
    var k :| 0 <= k < |s| && s[k] == t;
    assert s[0] in s;
    if k > 0 {
      assert ByStart(st)(s[0], s[k]);
    }
    ByStartIsStartsBefore(st, s[0], t);
  }

  lemma FirstIsEarliest(st: SessionStructure, g: ExecutorGroup)
    requires Ready(st) && Sorted(g.1, ByStart(st)) && g.1 != [] && forall y :: y in g.1 ==> y < |st.segments|
    ensures IsEarliest(st, ExecutorOf(st, g), g.1[0])
  {
    var e := ExecutorOf(st, g);
    GroupIsHeld(st, g);
    assert g.1[0] in g.1;
    forall t: nat | t in e.main + e.side ensures StartsBefore(st, g.1[0], t) {
      FirstOfSorted(st, g.1, t);
    }
  }

  lemma {:induction false} NoDeclaredGroup(c: Session, i: nat)
    requires c.Valid() && i < |c.xs| && !SomethingDeclared(c.xs)
    ensures c.GroupOf(i).Line?
  {
    assert !c.Declares();
    if c.Earlier(i).Some? && !c.Forks(i) {
      NoDeclaredGroup(c, c.Earlier(i).value);
    }
  }

  // ----- Counting and dating segments

  /** The exchanges that stand in one of `segs`. */
  ghost function InSegments(segmentOf: seq<nat>, segs: seq<nat>): set<nat> {
    set i | 0 <= i < |segmentOf| && segmentOf[i] in segs
  }

  /** `segs` begin with the earliest of them and end with the latest. */
  ghost predicate Span(segments: seq<StreamSegment>, segs: seq<nat>, start: int, end: int) {
    && (forall s :: s in segs && s < |segments| ==> start <= segments[s].start && segments[s].end <= end)
    && (exists s :: s in segs && s < |segments| && segments[s].start == start)
    && exists s :: s in segs && s < |segments| && segments[s].end == end
  }

  lemma SegmentsSpan(st: SessionStructure, segs: seq<nat>)
    requires segs != [] && forall s :: s in segs ==> s < |st.segments|
    ensures Span(st.segments, segs, Earliest(Starts(st, segs)), LatestOf(Ends(st, segs)))
  {
    var starts, ends := Starts(st, segs), Ends(st, segs);
    forall k | 0 <= k < |segs|
      ensures segs[k] < |st.segments|
      ensures starts[k] == st.segments[segs[k]].start && ends[k] == st.segments[segs[k]].end
    {
      assert segs[k] in segs && StartKey(st)(segs[k]) == st.segments[segs[k]].start;
    }
    var a :| 0 <= a < |starts| && starts[a] == Earliest(starts);
    var b :| 0 <= b < |ends| && ends[b] == LatestOf(ends);
    assert segs[a] in segs && segs[b] in segs;
    forall s | s in segs
      ensures Earliest(starts) <= st.segments[s].start && st.segments[s].end <= LatestOf(ends)
    {
      var k :| 0 <= k < |segs| && segs[k] == s;
      assert starts[k] in starts && ends[k] in ends;
    }
  }

  lemma OneMoreSegmentIn(st: SessionStructure, segs: seq<nat>, s: nat)
    requires st.Valid() && s < |st.segmentation.segments| && s !in segs
    ensures |InSegments(st.segmentation.segmentOf, segs + [s])|
            == |InSegments(st.segmentation.segmentOf, segs)| + |st.segmentation.segments[s].exchanges|
  {
    var of, members := st.segmentation.segmentOf, st.segmentation.segments[s].exchanges;
    assert AllIn(members, of, s);
    DistinctCount(members);
    forall i: nat ensures i in InSegments(of, segs + [s]) <==> i in InSegments(of, segs) + Elements(members) {
      if i < |of| {
        MemberOfSplit(segs, [s], of[i]);
        assert i in st.segmentation.segments[of[i]].exchanges;
      }
    }
    assert InSegments(of, segs + [s]) == InSegments(of, segs) + Elements(members);
    assert InSegments(of, segs) !! Elements(members);
  }

  /** Counting segment by segment counts every exchange that stands in one. */
  lemma {:induction false} CountsExchanges(st: SessionStructure, segs: seq<nat>)
    requires Ready(st) && Distinct(segs) && forall k :: 0 <= k < |segs| ==> segs[k] < |st.segments|
    ensures ExchangeCount(st, segs) == |InSegments(st.segmentation.segmentOf, segs)|
  {
    if segs == [] {
      assert InSegments(st.segmentation.segmentOf, segs) == {};
    } else {
      var rest, s := segs[..|segs| - 1], segs[|segs| - 1];
      CountsExchanges(st, rest);
      OneMoreSegmentIn(st, rest, s);
      assert rest + [s] == segs;
      assert CountKey(st)(s) == st.segments[s].exchangeCount && st.segments[s] == st.SegmentAt(s);
    }
  }

  // ----- What the nodes show

  ghost predicate AreHeads(segments: seq<StreamSegment>, segs: seq<nat>, heads: seq<string>) {
    |heads| == |segs| && forall k :: 0 <= k < |segs| ==> segs[k] < |segments| && heads[k] == segments[segs[k]].head
  }

  /** `t` shows the executor `e`. */
  ghost predicate ShowsExecutor(st: SessionStructure, e: Executor, t: TurnExecutor) {
    && t.subagentId == e.subagentId && t.parentSubagentId == e.parentSubagentId
    && AreHeads(st.segments, e.main, t.main) && AreHeads(st.segments, e.side, t.side)
    && t.exchangeCount == |InSegments(st.segmentation.segmentOf, e.main + e.side)|
    && exists end :: Span(st.segments, e.main + e.side, t.start, end)
  }

  lemma ReadShows(st: SessionStructure, turn: Option<int>, e: Executor)
    requires Ready(st) && Gathers(st, turn, e)
    ensures ShowsExecutor(st, e, ReadExecutor(st, e))
  {
    var all := e.main + e.side;
    forall k | 0 <= k < |all| ensures all[k] < |st.segments| {
      assert all[k] in all;
    }
    forall k | 0 <= k < |e.main| ensures e.main[k] < |st.segments| {
      assert e.main[k] in e.main;
    }
    forall k | 0 <= k < |e.side| ensures e.side[k] < |st.segments| {
      assert e.side[k] in e.side;
    }
    SegmentsSpan(st, all);
    CountsExchanges(st, all);
  }

  /** The group an executor of a node is read from. */
  lemma ReadFromGroup(st: SessionStructure, placed: seq<seq<Executor>>, nodes: seq<TurnNode>, k: nat, p: nat)
    returns (g: ExecutorGroup)
    requires Ready(st) && IsView(st, placed, nodes) && k < |nodes| && p < |placed[k]|
    ensures HoldsKey(st, nodes[k].turn, g) && Sorted(g.1, ByStart(st)) && placed[k][p] == ExecutorOf(st, g)
    ensures |nodes[k].executors| == |placed[k]| && nodes[k].executors[p] == ReadExecutor(st, placed[k][p])
  {
    var members := TurnGroups(st)[k].1;
    assert Shows(st, TurnGroups(st)[k], placed[k], nodes[k]);
    var gs := ExecutorGroups(st, members);
    var unordered := ExecutorsOf(st, gs);
    var order :| IsStartOrder(ParentsOf(unordered), order) && Ordered(unordered, order, placed[k]);
    g := gs[order[p]];
    ExecutorGroupsHoldKeys(st, k, order[p]);
    GroupIsSorted(st, members, order[p]);
  }

  /** Every executor of a node holds one group of the node's turn, is shown in
      every field, and tells who it is and who started it. */
  lemma ExecutorsTell(xs: seq<Exchange>, st: SessionStructure, placed: seq<seq<Executor>>, nodes: seq<TurnNode>,
                      k: nat, p: nat)
    requires Passed(xs, st) && Ready(st) && IsView(st, placed, nodes) && k < |nodes| && p < |placed[k]|
    ensures Gathers(st, nodes[k].turn, placed[k][p])
    ensures |nodes[k].executors| == |placed[k]| && ShowsExecutor(st, placed[k][p], nodes[k].executors[p])
    ensures TellsWho(xs, st, placed[k][p]) && TellsWhoStarted(xs, st, placed[k][p])
  {
    var g := ReadFromGroup(st, placed, nodes, k, p);
    GroupIsGathered(st, nodes[k].turn, g);
    ReadShows(st, nodes[k].turn, placed[k][p]);
    GroupTellsBoth(xs, st, nodes[k].turn, g);
  }

  lemma GroupTellsBoth(xs: seq<Exchange>, st: SessionStructure, turn: Option<int>, g: ExecutorGroup)
    requires Passed(xs, st) && Ready(st) && HoldsKey(st, turn, g) && Sorted(g.1, ByStart(st))
    ensures TellsWho(xs, st, ExecutorOf(st, g)) && TellsWhoStarted(xs, st, ExecutorOf(st, g))
  {
    GroupIsHeld(st, g);
    GroupTellsWho(xs, st, turn, g);
    NobodyTold(xs, st, turn, g);
    DeclaredByExecutor(xs, st, ExecutorOf(st, g), g.1);
    GroupTellsWhoStarted(xs, st, g);
  }

  /** A node counts and dates the segments of its turn, all of which share its
      turn's id. */
  lemma NodesTell(st: SessionStructure, placed: seq<seq<Executor>>, nodes: seq<TurnNode>, k: nat)
    returns (segs: seq<nat>)
    requires Ready(st) && IsView(st, placed, nodes) && k < |nodes|
    ensures Increasing(segs) && segs != []
    ensures forall s: int :: s in segs <==> 0 <= s < |st.segments| && st.segments[s].turn == nodes[k].turn
    ensures Span(st.segments, segs, nodes[k].start, nodes[k].end)
    ensures nodes[k].exchangeCount == |InSegments(st.segmentation.segmentOf, segs)|
    ensures forall s :: s in segs ==> nodes[k].turnId == st.segments[s].turnId
  {
    var g := TurnGroups(st)[k];
    assert Shows(st, g, placed[k], nodes[k]);
    segs := g.1;
    TurnMembers(st, k);
    forall j | 0 <= j < |segs| ensures segs[j] < |st.segments| {
      assert segs[j] in segs;
    }
    forall s: int ensures s in segs <==> 0 <= s < |st.segments| && st.segments[s].turn == nodes[k].turn {
      assert 0 <= s < |st.segments| ==> TurnKey(st)(s) == st.segments[s].turn;
    }
    SegmentsSpan(st, segs);
    CountsExchanges(st, segs);
    forall s | s in segs ensures nodes[k].turnId == st.segments[s].turnId {
      assert segs[0] in segs;
      TurnsNameTheirIds(st, segs[0], s);
    }
  }

  /** Segments of one turn name one id. */
  lemma TurnsNameTheirIds(st: SessionStructure, s: nat, t: nat)
    requires Ready(st) && s < |st.segments| && t < |st.segments| && st.segments[s].turn == st.segments[t].turn
    ensures st.segments[s].turnId == st.segments[t].turnId
  {
    assert st.segments[s] == st.SegmentAt(s) && st.segments[t] == st.SegmentAt(t);
  }

  /** A node begins a new context exactly when the first exchange of the main
      line it shows first has no base. */
  lemma NewContexts(xs: seq<Exchange>, st: SessionStructure, placed: seq<seq<Executor>>, nodes: seq<TurnNode>, k: nat)
    requires Passed(xs, st) && Ready(st) && IsView(st, placed, nodes) && k < |nodes|
    ensures placed[k] != [] && placed[k][0].main != [] && placed[k][0].main[0] < |st.segments|
    ensures nodes[k].newContext <==> st.bases[st.segmentation.segments[placed[k][0].main[0]].exchanges[0]].Err?
  {
    FirstHasMain(xs, st, placed, nodes, k);
    HeadWithin(xs, st, placed[k][0].main[0]);
    NewContextOf(st, TurnGroups(st)[k], placed[k], nodes[k]);
  }

  lemma NewContextOf(st: SessionStructure, g: TurnGroup, es: seq<Executor>, node: TurnNode)
    requires Ready(st) && Shows(st, g, es, node)
    requires es != [] && es[0].main != [] && es[0].main[0] < |st.segments|
    ensures st.segmentation.segments[es[0].main[0]].exchanges != []
    ensures node.newContext <==> st.bases[st.segmentation.segments[es[0].main[0]].exchanges[0]].Err?
  {
  }

  lemma FirstHasMain(xs: seq<Exchange>, st: SessionStructure, placed: seq<seq<Executor>>, nodes: seq<TurnNode>, k: nat)
    requires Passed(xs, st) && Ready(st) && IsView(st, placed, nodes) && k < |nodes|
    ensures placed[k] != [] && placed[k][0].main != [] && placed[k][0].main[0] < |st.segments|
  {
    SomebodyIsPlaced(st, placed, nodes, k);
    EveryExecutorHasOneMain(xs, st, placed, nodes, k, 0);
    var g := ReadFromGroup(st, placed, nodes, k, 0);
    MainIsWithin(st, nodes[k].turn, g);
  }

  lemma MainIsWithin(st: SessionStructure, turn: Option<int>, g: ExecutorGroup)
    requires Ready(st) && HoldsKey(st, turn, g)
    ensures |ReadExecutor(st, ExecutorOf(st, g)).main| == |ExecutorOf(st, g).main|
    ensures ExecutorOf(st, g).main != [] ==> ExecutorOf(st, g).main[0] < |st.segments|
  {
    var main := ExecutorOf(st, g).main;
    if main != [] {
      assert main[0] in main;
      GroupMembers(st, g, main[0]);
    }
  }

  lemma SomebodyIsPlaced(st: SessionStructure, placed: seq<seq<Executor>>, nodes: seq<TurnNode>, k: nat)
    requires Ready(st) && IsView(st, placed, nodes) && k < |nodes|
    ensures placed[k] != [] && |nodes[k].executors| == |placed[k]|
  {
    var members := TurnGroups(st)[k].1;
    TurnMembers(st, k);
    assert Shows(st, TurnGroups(st)[k], placed[k], nodes[k]);
    SomebodyGathers(st, members);
  }

  lemma SomebodyGathers(st: SessionStructure, members: seq<nat>)
    requires members != []
    ensures ExecutorGroups(st, members) != []
  {
    GroupsHoldTheirKeys(members, GroupKey(st));
    assert members[0] in members;
    SortMembers(Arranged(st, Groups(members, GroupKey(st))), ExecutorOrder(st));
  }
}
