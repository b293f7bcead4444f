/** The turn view loses and repeats nothing. */
module TimelineLaws {
  import opened Bases
  import opened Collections
  import opened Exchanges
  import opened Gatherings
  import opened Segmentation
  import opened SegmentLaws
  import opened Sorting
  import opened StartOrder
  import opened StreamLaws
  import opened Streams
  import opened Timeline
  import opened Turns

  /** Everything an executor holds. */
  function Segs(e: Executor): seq<nat> {
    e.main + e.side
  }

  function SegsOf(es: seq<Executor>): (ss: seq<seq<nat>>)
    ensures |ss| == |es| && forall k :: 0 <= k < |es| ==> ss[k] == Segs(es[k])
  {
    seq(|es|, k requires 0 <= k < |es| => Segs(es[k]))
  }

  // ----- Nothing lost, nothing twice

  function ItsSegs(): Executor -> seq<nat> {
    (e: Executor) => Segs(e)
  }

  lemma SegsPermuted(es: seq<Executor>, fs: seq<Executor>)
    requires multiset(es) == multiset(fs)
    ensures multiset(SegsOf(es)) == multiset(SegsOf(fs))
  {
    MappedPermuted(es, fs, ItsSegs());
    assert SegsOf(es) == Mapped(es, ItsSegs()) && SegsOf(fs) == Mapped(fs, ItsSegs());
  }

  /** An executor holds what its group does. */
  lemma ExecutorHoldsItsGroup(st: SessionStructure, g: ExecutorGroup)
    requires Ready(st) && forall x :: x in g.1 ==> x < |st.segments|
    ensures multiset(Segs(ExecutorOf(st, g))) == multiset(g.1)
  {
    FilterSplits(g.1, OnSide(st, false), OnSide(st, true));
  }

  lemma ArrangedHold(st: SessionStructure, gs: seq<ExecutorGroup>)
    ensures Held(Arranged(st, gs)) == Held(gs)
  {
    forall a | 0 <= a < |gs| ensures multiset(StableSort(gs[a].1, ByStart(st))) == multiset(gs[a].1) {
      SortMultiset(gs[a].1, ByStart(st));
    }
    FlattenEach(Members(Arranged(st, gs)), Members(gs));
  }

  lemma ExecutorGroupsHold(st: SessionStructure, members: seq<nat>)
    ensures Held(ExecutorGroups(st, members)) == multiset(members)
  {
    var gs := Groups(members, GroupKey(st));
    var arranged := Arranged(st, gs);
    GroupsConserve(members, GroupKey(st));
    ArrangedHold(st, gs);
    SortMultiset(arranged, ExecutorOrder(st));
    MembersPermuted(StableSort(arranged, ExecutorOrder(st)), arranged);
    FlattenPermuted(Members(StableSort(arranged, ExecutorOrder(st))), Members(arranged));
  }

  lemma HeldAreMembers(st: SessionStructure, members: seq<nat>, a: nat)
    requires a < |ExecutorGroups(st, members)|
    ensures forall x :: x in ExecutorGroups(st, members)[a].1 ==> x in members
  {
    var gs := ExecutorGroups(st, members);
    ExecutorGroupsHold(st, members);
    FlattenSplit(Members(gs), a);
    forall x | x in gs[a].1 ensures x in members {
      assert x in multiset(gs[a].1);
      assert x in multiset(members);
    }
  }

  /** A turn's executors hold each of its segments once. */
  lemma ExecutorsConserve(st: SessionStructure, members: seq<nat>, es: seq<Executor>)
    requires Ready(st) && AreExecutors(st, members, es)
    requires forall x :: x in members ==> x < |st.segments|
    ensures multiset(Flatten(SegsOf(es))) == multiset(members)
  {
    var gs := ExecutorGroups(st, members);
    var unordered := ExecutorsOf(st, gs);
    var order :| IsStartOrder(ParentsOf(unordered), order) && Ordered(unordered, order, es);
    StartOrderIsAPermutation(unordered, order, es);
    SegsPermuted(es, unordered);
    FlattenPermuted(SegsOf(es), SegsOf(unordered));
    forall a | 0 <= a < |gs| ensures multiset(SegsOf(unordered)[a]) == multiset(Members(gs)[a]) {
      HeldAreMembers(st, members, a);
      ExecutorHoldsItsGroup(st, gs[a]);
    }
    FlattenEach(SegsOf(unordered), Members(gs));
    ExecutorGroupsHold(st, members);
  }

  function PlacedSegs(placed: seq<seq<Executor>>): (ss: seq<seq<nat>>)
    ensures |ss| == |placed| && forall k :: 0 <= k < |placed| ==> ss[k] == Flatten(SegsOf(placed[k]))
  {
    seq(|placed|, k requires 0 <= k < |placed| => Flatten(SegsOf(placed[k])))
  }

  lemma TurnMembers(st: SessionStructure, k: nat)
    requires k < |TurnGroups(st)|
    ensures TurnGroups(st)[k].1 != []
    ensures Increasing(TurnGroups(st)[k].1)
    ensures forall x: int :: x in TurnGroups(st)[k].1 <==>
              0 <= x < |st.segments| && TurnKey(st)(x) == TurnGroups(st)[k].0
  {
    var all := Indices(|st.segments|);
    SortedGroupsHold(all, TurnKey(st), TurnOrder());
    var g := TurnGroups(st)[k];
    assert g.1 == Filter<nat>(all, HasKey(TurnKey(st), g.0));
    FilterIncreasing(all, HasKey(TurnKey(st), g.0));
    forall x: int ensures x in all <==> 0 <= x < |st.segments| {
      assert 0 <= x < |st.segments| ==> all[x] == x;
    }
  }

  /** Every segment lands in exactly one turn node and one executor, as its
      main segment or as one of its side segments. */
  lemma TurnViewConserves(st: SessionStructure, placed: seq<seq<Executor>>, nodes: seq<TurnNode>)
    requires Ready(st) && IsView(st, placed, nodes)
    ensures multiset(Flatten(PlacedSegs(placed))) == multiset(Indices(|st.segments|))
  {
    var gs := TurnGroups(st);
    forall k | 0 <= k < |gs| ensures multiset(PlacedSegs(placed)[k]) == multiset(Members(gs)[k]) {
      assert Shows(st, gs[k], placed[k], nodes[k]);
      TurnMembers(st, k);
      ExecutorsConserve(st, gs[k].1, placed[k]);
    }
    FlattenEach(PlacedSegs(placed), Members(gs));
    SortedGroupsConserve(Indices(|st.segments|), TurnKey(st), TurnOrder());
  }

  // ----- Counts

  function Totals(ss: seq<seq<nat>>, f: nat -> int): (r: seq<int>)
    ensures |r| == |ss| && forall k :: 0 <= k < |ss| ==> r[k] == SumOf(ss[k], f)
  {
    seq(|ss|, k requires 0 <= k < |ss| => SumOf(ss[k], f))
  }

  lemma {:induction false} SumOfFlatten(ss: seq<seq<nat>>, f: nat -> int)
    ensures SumOf(Flatten(ss), f) == Sum(Totals(ss, f))
  {
    if ss != [] {
      var n := |ss| - 1;
      SumOfFlatten(ss[..n], f);
      SumOfAppend(Flatten(ss[..n]), ss[n], f);
      assert Totals(ss, f)[..n] == Totals(ss[..n], f);
    }
  }

  function ExecutorCounts(es: seq<TurnExecutor>): (r: seq<int>)
    ensures |r| == |es| && forall k :: 0 <= k < |es| ==> r[k] == es[k].exchangeCount
  {
    seq(|es|, k requires 0 <= k < |es| => es[k].exchangeCount)
  }

  function NodeCounts(nodes: seq<TurnNode>): (r: seq<int>)
    ensures |r| == |nodes| && forall k :: 0 <= k < |nodes| ==> r[k] == nodes[k].exchangeCount
  {
    seq(|nodes|, k requires 0 <= k < |nodes| => nodes[k].exchangeCount)
  }

  /** A node counts what its executors do. */
  lemma NodeCountsItsExecutors(st: SessionStructure, placed: seq<seq<Executor>>, nodes: seq<TurnNode>, k: nat)
    requires Ready(st) && IsView(st, placed, nodes) && k < |nodes|
    ensures nodes[k].exchangeCount == Sum(ExecutorCounts(nodes[k].executors))
  {
    var g, es := TurnGroups(st)[k], placed[k];
    assert Shows(st, g, es, nodes[k]);
    TurnMembers(st, k);
    ExecutorsConserve(st, g.1, es);
    SumOfPermuted(Flatten(SegsOf(es)), g.1, CountKey(st));
    SumOfFlatten(SegsOf(es), CountKey(st));
    assert ExecutorCounts(nodes[k].executors) == Totals(SegsOf(es), CountKey(st));
  }

  lemma {:induction false} AllCounts(st: SessionStructure, n: nat)
    requires Ready(st) && n <= |st.segments|
    ensures SumOf(Indices(n), CountKey(st)) == Sum(SegmentCounts(st.segmentation.segments, n))
  {
    if n > 0 {
      AllCounts(st, n - 1);
      assert Indices(n)[..n - 1] == Indices(n - 1);
      assert SegmentCounts(st.segmentation.segments, n)[..n - 1] == SegmentCounts(st.segmentation.segments, n - 1);
    }
  }

  /** The nodes count every exchange once. */
  lemma NodeCountsAddUp(st: SessionStructure, placed: seq<seq<Executor>>, nodes: seq<TurnNode>)
    requires Ready(st) && IsView(st, placed, nodes)
    ensures Sum(NodeCounts(nodes)) == |st.exchanges|
  {
    var gs := TurnGroups(st);
    SortedGroupsConserve(Indices(|st.segments|), TurnKey(st), TurnOrder());
    SumOfPermuted(Flatten(Members(gs)), Indices(|st.segments|), CountKey(st));
    SumOfFlatten(Members(gs), CountKey(st));
    forall k | 0 <= k < |nodes| ensures NodeCounts(nodes)[k] == Totals(Members(gs), CountKey(st))[k] {
      assert Shows(st, gs[k], placed[k], nodes[k]);
    }
    assert NodeCounts(nodes) == Totals(Members(gs), CountKey(st));
    AllCounts(st, |st.segments|);
    SegmentCountsAddUp(st.segmentation.segments, st.segmentation.segmentOf, |st.exchanges|);
  }

  // ----- One main line each

  /** The segments of one turn and group, each once. */
  ghost predicate HoldsKey(st: SessionStructure, turn: Option<int>, g: ExecutorGroup) {
    && g.1 != [] && Distinct(g.1)
    && forall x: int :: x in g.1 <==>
         0 <= x < |st.segments| && TurnKey(st)(x) == turn && GroupKey(st)(x) == g.0
  }

  lemma ArrangedHoldsKey(st: SessionStructure, turn: Option<int>, members: seq<nat>, group: Group, segs: seq<nat>)
    requires Increasing(members)
    requires forall x: int :: x in members <==> 0 <= x < |st.segments| && TurnKey(st)(x) == turn
    requires segs == Filter<nat>(members, HasKey(GroupKey(st), group)) && segs != []
    ensures HoldsKey(st, turn, (group, StableSort(segs, ByStart(st))))
  {
    FilterIncreasing(members, HasKey(GroupKey(st), group));
    SortDistinct(segs, ByStart(st));
    SortMembers(segs, ByStart(st));
    SortMultiset(segs, ByStart(st));
  }

  /** Every group of a turn is an arranged one. */
  lemma GroupBefore(st: SessionStructure, members: seq<nat>, a: nat) returns (b: nat)
    requires a < |ExecutorGroups(st, members)|
    ensures b < |Groups(members, GroupKey(st))|
    ensures ExecutorGroups(st, members)[a]
            == (Groups(members, GroupKey(st))[b].0, StableSort(Groups(members, GroupKey(st))[b].1, ByStart(st)))
  {
    var arranged := Arranged(st, Groups(members, GroupKey(st)));
    SortMembers(arranged, ExecutorOrder(st));
    var g := StableSort(arranged, ExecutorOrder(st))[a];
    assert g in StableSort(arranged, ExecutorOrder(st));
    b :| 0 <= b < |arranged| && arranged[b] == g;
  }

  lemma ExecutorGroupsHoldKeys(st: SessionStructure, k: nat, a: nat)
    requires k < |TurnGroups(st)| && a < |ExecutorGroups(st, TurnGroups(st)[k].1)|
    ensures HoldsKey(st, TurnGroups(st)[k].0, ExecutorGroups(st, TurnGroups(st)[k].1)[a])
  {
    var members := TurnGroups(st)[k].1;
    TurnMembers(st, k);
    var b := GroupBefore(st, members, a);
    var gs := Groups(members, GroupKey(st));
    GroupsHoldTheirKeys(members, GroupKey(st));
    ArrangedHoldsKey(st, TurnGroups(st)[k].0, members, gs[b].0, gs[b].1);
  }

  /** A segment's turn and group are its head's. */
  lemma KeyOfSegment(xs: seq<Exchange>, st: SessionStructure, s: nat)
    requires Passed(xs, st) && Ready(st) && s < |st.segments|
    ensures TurnKey(st)(s) == st.TurnOf(st.HeadOf(s)).1
    ensures GroupKey(st)(s) == Session(xs, st.bases, st.turns.of).GroupOf(st.HeadOf(s))
  {
    assert HoldsItsGroup(Session(xs, st.bases, st.turns.of), st.segmentation.segments[s], |xs|);
    assert st.segments[s] == st.SegmentAt(s);
  }

  lemma SameTurn(st: SessionStructure, i: nat, j: nat)
    requires st.Valid() && i < |st.exchanges| && j < |st.exchanges|
    ensures st.TurnOf(i).1 == st.TurnOf(j).1 <==> st.turns.of[i] == st.turns.of[j]
  {
  }

  /** Segments of one turn and group are segments of one key. */
  lemma SameKey(xs: seq<Exchange>, st: SessionStructure, a: nat, b: nat)
    requires Passed(xs, st) && Ready(st) && a < |st.segments| && b < |st.segments|
    ensures TurnKey(st)(a) == TurnKey(st)(b) && GroupKey(st)(a) == GroupKey(st)(b)
            <==> Session(xs, st.bases, st.turns.of).KeyOf(st.HeadOf(a))
                 == Session(xs, st.bases, st.turns.of).KeyOf(st.HeadOf(b))
  {
    KeyOfSegment(xs, st, a);
    KeyOfSegment(xs, st, b);
    SameTurn(st, st.HeadOf(a), st.HeadOf(b));
  }

  lemma Single(s: seq<nat>, x: nat)
    requires Distinct(s) && forall y :: y in s <==> y == x
    ensures s == [x]
  {
    DistinctCount(s);
    assert Elements(s) == {x};
    assert s[0] in s;
  }

  lemma {:induction false} FilterDistinct(s: seq<nat>, p: nat -> bool)
    requires Distinct(s)
    ensures Distinct(Filter<nat>(s, p))
  {
    if s != [] {
      var rest := s[..|s| - 1];
      FilterDistinct(rest, p);
      forall i | 0 <= i < |Filter<nat>(rest, p)| ensures Filter<nat>(rest, p)[i] != s[|s| - 1] {
        assert Filter<nat>(rest, p)[i] in rest;
      }
    }
  }

  lemma MainOfKey(xs: seq<Exchange>, st: SessionStructure, turn: Option<int>, g: ExecutorGroup) returns (main: nat)
    requires Passed(xs, st) && Ready(st) && HoldsKey(st, turn, g)
    ensures main in g.1 && OnSide(st, false)(main)
    ensures forall x :: x in g.1 && OnSide(st, false)(x) ==> x == main
  {
    var c := Session(xs, st.bases, st.turns.of);
    var first := g.1[0];
    assert first in g.1;
    main := EveryKeyHasOneMainSegment(c, st.segmentation, st.HeadOf(first));
    MainHasKey(xs, st, first, main);
    assert TurnKey(st)(main) == turn && GroupKey(st)(main) == g.0;
    forall x | x in g.1 && OnSide(st, false)(x) ensures x == main {
      SameKey(xs, st, x, first);
    }
  }

  lemma MainHasKey(xs: seq<Exchange>, st: SessionStructure, first: nat, main: nat)
    requires Passed(xs, st) && Ready(st) && first < |st.segments| && main < |st.segments|
    requires var c := Session(xs, st.bases, st.turns.of);
      forall j :: 0 <= j < |xs| ==>
        (j in st.segmentation.segments[main].exchanges <==> !c.Side(j) && c.KeyOf(j) == c.KeyOf(st.HeadOf(first)))
    ensures TurnKey(st)(main) == TurnKey(st)(first) && GroupKey(st)(main) == GroupKey(st)(first)
  {
    assert st.HeadOf(main) in st.segmentation.segments[main].exchanges;
    SameKey(xs, st, main, first);
  }

  lemma OneMain(xs: seq<Exchange>, st: SessionStructure, turn: Option<int>, g: ExecutorGroup)
    requires Passed(xs, st) && Ready(st) && HoldsKey(st, turn, g)
    ensures |ExecutorOf(st, g).main| == 1
  {
    var main := MainOfKey(xs, st, turn, g);
    FilterDistinct(g.1, OnSide(st, false));
    Single(Filter<nat>(g.1, OnSide(st, false)), main);
  }

  /** Every executor of the view has exactly one main segment, and its side
      segments are the side ones. */
  lemma EveryExecutorHasOneMain(xs: seq<Exchange>, st: SessionStructure, placed: seq<seq<Executor>>,
                                nodes: seq<TurnNode>, k: nat, e: nat)
    requires Passed(xs, st) && Ready(st) && IsView(st, placed, nodes)
    requires k < |nodes| && e < |nodes[k].executors|
    ensures |nodes[k].executors[e].main| == 1
    ensures e < |placed[k]| && forall x :: x in placed[k][e].side ==>
              x < |st.segmentation.segments| && st.segmentation.segments[x].side
  {
    var members := TurnGroups(st)[k].1;
    assert Shows(st, TurnGroups(st)[k], placed[k], nodes[k]);
    var gs := ExecutorGroups(st, members);
    var unordered := ExecutorsOf(st, gs);
    var order :| IsStartOrder(ParentsOf(unordered), order) && Ordered(unordered, order, placed[k]);
    var a := order[e];
    assert placed[k][e] == ExecutorOf(st, gs[a]);
    ExecutorGroupsHoldKeys(st, k, a);
    OneMain(xs, st, TurnGroups(st)[k].0, gs[a]);
  }

  // ----- Order within a turn

  lemma ByStartIsTotal(st: SessionStructure)
    ensures TotalPreorder(ByStart(st))
  {
  }

  lemma ExecutorOrderIsTotal(st: SessionStructure)
    ensures TotalPreorder(ExecutorOrder(st))
  {
    var leq := ExecutorOrder(st);
    forall a, b ensures leq(a, b) || leq(b, a) {
    }
    forall a, b, c | leq(a, b) && leq(b, c) ensures leq(a, c) {
    }
  }

  /** A group's segments are by start, its first the earliest. */
  lemma GroupsByStart(st: SessionStructure, members: seq<nat>, a: nat, k: nat)
    requires a < |ExecutorGroups(st, members)|
    ensures var g := ExecutorGroups(st, members)[a];
      && g.1 != []
      && (k < |g.1| ==> StartKey(st)(g.1[0]) <= StartKey(st)(g.1[k]))
      && (0 < k < |g.1| ==> ByStart(st)(g.1[k - 1], g.1[k]))
  {
    var b := GroupBefore(st, members, a);
    var segs := Groups(members, GroupKey(st))[b].1;
    GroupsHoldTheirKeys(members, GroupKey(st));
    ByStartIsTotal(st);
    SortSorted(segs, ByStart(st));
    SortMultiset(segs, ByStart(st));
    var sorted := StableSort(segs, ByStart(st));
    assert 0 < k < |sorted| ==> ByStart(st)(sorted[0], sorted[k]) && ByStart(st)(sorted[k - 1], sorted[k]);
  }

  /** The main agent and the lines come before the sub-agents, each kind by
      the start of its earliest segment. */
  lemma MainComesFirst(st: SessionStructure, members: seq<nat>, a: nat, b: nat)
    requires a < b < |ExecutorGroups(st, members)|
    ensures var g, h := ExecutorGroups(st, members)[a], ExecutorGroups(st, members)[b];
      && g.1 != [] && h.1 != []
      && (IsSubagent(g.0) ==> IsSubagent(h.0))
      && (IsSubagent(g.0) == IsSubagent(h.0) ==> StartKey(st)(g.1[0]) <= StartKey(st)(h.1[0]))
  {
    GroupsByStart(st, members, a, 0);
    GroupsByStart(st, members, b, 0);
    var arranged := Arranged(st, Groups(members, GroupKey(st)));
    ExecutorOrderIsTotal(st);
    SortSorted(arranged, ExecutorOrder(st));
    var gs := StableSort(arranged, ExecutorOrder(st));
    assert ExecutorOrder(st)(gs[a], gs[b]);
  }

  // ----- The numbered nodes

  /** Every turn has an exchange. */
  lemma EveryTurnOccurs(xs: seq<Exchange>, bases: seq<Base>, turns: Turns, turn: nat) returns (i: nat)
    requires |bases| == |xs| == |turns.of| && turns.ids == TurnIds(xs, |xs|) && turn < |turns.ids|
    requires FollowsChains(xs, bases, turns.ids, turns.of)
    ensures i < |xs| && turns.of[i] == Some(turn)
  {
    EachTurnIsOpened(xs, |xs|, turn);
    i :| 0 <= i < |xs| && OpenedId(xs, i) == Some(turns.ids[turn]);
    OpenersHaveTheirTurn(xs, bases, turns, i);
    TurnIdsAreDistinct(xs, |xs|);
  }

  /** Whoever opens a turn belongs to it. */
  lemma OpenersHaveTheirTurn(xs: seq<Exchange>, bases: seq<Base>, turns: Turns, i: nat)
    requires |bases| == |xs| == |turns.of| && i < |xs| && OpenedId(xs, i).Some?
    requires FollowsChains(xs, bases, turns.ids, turns.of)
    ensures turns.of[i].Some? && turns.of[i].value < |turns.ids|
    ensures turns.ids[turns.of[i].value] == OpenedId(xs, i).value
  {
    var chain := [i];
    assert IsChain(xs, bases, i, chain);
    assert SettledBy(xs, chain[|chain| - 1], turns.ids, turns.of[i]);
  }

  /** The turns of the first `n` segments. */
  ghost function TurnsHad(key: nat -> Option<int>, n: nat): set<Option<int>> {
    if n == 0 then {} else TurnsHad(key, n - 1) + {key(n - 1)}
  }

  lemma {:induction false} HadBySome(key: nat -> Option<int>, n: nat, t: Option<int>)
    ensures t in TurnsHad(key, n) <==> exists s :: 0 <= s < n && key(s) == t
  {
    if n > 0 {
      HadBySome(key, n - 1, t);
    }
  }

  /** Some segment belongs to the turn `t`, or to none. */
  ghost predicate HasTurn(st: SessionStructure, t: Option<int>) {
    t in TurnsHad(TurnKey(st), |st.segments|)
  }

  lemma KeyOfHead(st: SessionStructure, s: nat)
    requires Ready(st) && s < |st.segments|
    ensures TurnKey(st)(s) == st.TurnOf(st.HeadOf(s)).1
  {
    assert st.segments[s] == st.SegmentAt(s);
  }

  ghost predicate Occurs(turns: Turns, turn: nat) {
    exists i :: 0 <= i < |turns.of| && turns.of[i] == Some(turn)
  }

  lemma AllTurnsOccur(xs: seq<Exchange>, bases: seq<Base>, turns: Turns)
    requires |bases| == |xs| == |turns.of| && turns.ids == TurnIds(xs, |xs|)
    requires FollowsChains(xs, bases, turns.ids, turns.of)
    ensures forall turn: nat :: turn < |turns.ids| ==> Occurs(turns, turn)
  {
    forall turn: nat | turn < |turns.ids| ensures Occurs(turns, turn) {
      var i := EveryTurnOccurs(xs, bases, turns, turn);
    }
  }

  ghost function HeadsOf(st: SessionStructure): (heads: seq<nat>)
    requires st.Valid()
    ensures |heads| == |st.segmentation.segments|
    ensures forall s :: 0 <= s < |heads| ==> heads[s] == st.HeadOf(s) < |st.exchanges|
  {
    seq(|st.segmentation.segments|, s requires 0 <= s < |st.segmentation.segments| => st.HeadOf(s))
  }

  function NumberOf(turn: Option<nat>): Option<int> {
    if turn.Some? then Some(turn.value + 1) else None
  }

  /** Every exchange has the turn of its segment's head. */
  ghost predicate SharedTurns(of: seq<Option<nat>>, segmentOf: seq<nat>, heads: seq<nat>) {
    && |segmentOf| == |of|
    && (forall s :: 0 <= s < |heads| ==> heads[s] < |of|)
    && forall i :: 0 <= i < |of| ==> segmentOf[i] < |heads| && of[i] == of[heads[segmentOf[i]]]
  }

  /** Every segment's key is the number of its head's turn. */
  ghost predicate KeysOfHeads(of: seq<Option<nat>>, heads: seq<nat>, key: nat -> Option<int>) {
    forall s :: 0 <= s < |heads| ==> heads[s] < |of| && key(s) == NumberOf(of[heads[s]])
  }

  lemma PassedSharesTurn(xs: seq<Exchange>, st: SessionStructure, i: nat)
    requires Passed(xs, st) && st.Valid() && i < |xs|
    ensures st.turns.of[i] == st.turns.of[st.HeadOf(st.segmentation.segmentOf[i])]
  {
    SegmentsShareTheirTurn(xs, st, i);
    SameTurn(st, i, st.HeadOf(st.segmentation.segmentOf[i]));
  }

  lemma PassedShareTurns(xs: seq<Exchange>, st: SessionStructure)
    requires Passed(xs, st) && st.Valid()
    ensures SharedTurns(st.turns.of, st.segmentation.segmentOf, HeadsOf(st))
  {
    forall i: nat | i < |xs| ensures st.turns.of[i] == st.turns.of[st.HeadOf(st.segmentation.segmentOf[i])] {
      PassedSharesTurn(xs, st, i);
    }
  }

  lemma KeysAreOfHeads(st: SessionStructure)
    requires Ready(st)
    ensures KeysOfHeads(st.turns.of, HeadsOf(st), TurnKey(st))
  {
    forall s: nat | s < |st.segments| ensures TurnKey(st)(s) == NumberOf(st.turns.of[st.HeadOf(s)]) {
      KeyOfHead(st, s);
    }
  }

  /** A segment's number is that of a turn, and every turn's number has a segment. */
  lemma SharedTurnsHaveSegments(turns: Turns, m: nat, segmentOf: seq<nat>, heads: seq<nat>, key: nat -> Option<int>)
    requires SharedTurns(turns.of, segmentOf, heads) && KeysOfHeads(turns.of, heads, key)
    requires forall turn: nat :: turn < m ==> Occurs(turns, turn)
    requires forall i :: 0 <= i < |turns.of| && turns.of[i].Some? ==> turns.of[i].value < m
    ensures forall t: int :: Some(t) in TurnsHad(key, |heads|) <==> 1 <= t <= m
  {
    forall t: int ensures Some(t) in TurnsHad(key, |heads|) <==> 1 <= t <= m {
      HadBySome(key, |heads|, Some(t));
      if 1 <= t <= m {
        var s := TurnHasSegment(turns, segmentOf, heads, key, t);
      }
    }
  }

  lemma TurnHasSegment(turns: Turns, segmentOf: seq<nat>, heads: seq<nat>, key: nat -> Option<int>, t: int)
    returns (s: nat)
    requires SharedTurns(turns.of, segmentOf, heads) && KeysOfHeads(turns.of, heads, key)
    requires t > 0 && Occurs(turns, t - 1)
    ensures s < |heads| && key(s) == Some(t)
  {
    var i :| 0 <= i < |turns.of| && turns.of[i] == Some(t - 1);
    s := segmentOf[i];
  }

  function NodeTurns(nodes: seq<TurnNode>): (r: seq<Option<int>>)
    ensures |r| == |nodes| && forall k :: 0 <= k < |nodes| ==> r[k] == nodes[k].turn
  {
    seq(|nodes|, k requires 0 <= k < |nodes| => nodes[k].turn)
  }

  function Numbered(m: nat): (r: seq<Option<int>>)
    ensures |r| == m && forall k :: 0 <= k < m ==> r[k] == Some(k + 1)
  {
    seq(m, k => Some(k + 1))
  }

  /** Increasing numbers that are exactly 1 to `m`. */
  lemma CountFrom1(s: seq<int>, m: nat)
    requires Increasing(s) && forall x :: x in s <==> 1 <= x <= m
    ensures |s| == m && forall k :: 0 <= k < m ==> s[k] == k + 1
  {
    if |s| > 0 {
      Climbs(s, |s| - 1);
      assert s[|s| - 1] in s;
    }
    if m > 0 {
      assert m in s;
      var at :| 0 <= at < |s| && s[at] == m;
      assert s[|s| - 1] in s;
      assert at == |s| - 1;
      Fills(s, m, |s| - 1);
    }
  }

  lemma {:induction false} Climbs(s: seq<int>, k: nat)
    requires Increasing(s) && k < |s| && forall x :: x in s ==> 1 <= x
    ensures s[k] >= k + 1
  {
    assert s[k] in s;
    if k > 0 {
      Climbs(s, k - 1);
    }
  }

  lemma {:induction false} Fills(s: seq<int>, m: nat, k: nat)
    requires Increasing(s) && k < |s| && forall x :: x in s <==> 1 <= x <= m
    ensures s[k] == k + 1
    ensures forall l :: 0 <= l < k ==> s[l] == l + 1
  {
    assert s[k] in s;
    if k > 0 {
      Fills(s, m, k - 1);
    }
    assert 1 <= s[k] <= m;
    if s[k] > k + 1 {
      assert k + 1 in s;
      var at :| 0 <= at < |s| && s[at] == k + 1;
    }
  }

  lemma TurnGroupsAreTurns(st: SessionStructure, t: Option<int>)
    ensures t in Keys(TurnGroups(st)) <==> HasTurn(st, t)
  {
    var gs, all := TurnGroups(st), Indices(|st.segments|);
    SortedGroupsHold(all, TurnKey(st), TurnOrder());
    HadBySome(TurnKey(st), |st.segments|, t);
    if HasTurn(st, t) {
      var s :| 0 <= s < |st.segments| && TurnKey(st)(s) == t;
      assert all[s] == s;
    }
    if t in Keys(gs) {
      var k :| 0 <= k < |gs| && gs[k].0 == t;
      TurnMembers(st, k);
      assert gs[k].1[0] in gs[k].1;
      assert TurnKey(st)(gs[k].1[0]) == t;
    }
  }

  /** Ordered turn keys, as numbers. */
  ghost function Values(ts: seq<Option<int>>): (r: seq<int>)
    requires forall k :: 0 <= k < |ts| ==> ts[k].Some?
    ensures |r| == |ts| && forall k :: 0 <= k < |ts| ==> r[k] == ts[k].value
  {
    seq(|ts|, k requires 0 <= k < |ts| => ts[k].value)
  }

  lemma AreNumbered(ts: seq<Option<int>>, m: nat)
    requires forall k :: 0 <= k < |ts| ==> ts[k].Some?
    requires forall a, b :: 0 <= a < b < |ts| ==> ts[a].value < ts[b].value
    requires forall t: int :: Some(t) in ts <==> 1 <= t <= m
    ensures ts == Numbered(m)
  {
    var values := Values(ts);
    forall t ensures t in values <==> 1 <= t <= m {
      if t in values {
        var k :| 0 <= k < |values| && values[k] == t;
        assert ts[k] == Some(t);
        assert Some(t) in ts;
      }
      if 1 <= t <= m {
        assert Some(t) in ts;
        var k :| 0 <= k < |ts| && ts[k] == Some(t);
        assert values[k] == t;
      }
    }
    CountFrom1(values, m);
    assert ts == Numbered(m);
  }

  /** No turn first, then turns by number. */
  ghost predicate InTurnOrder(ts: seq<Option<int>>) {
    forall a, b :: 0 <= a < b < |ts| ==> Precedes(ts[a], ts[b])
  }

  ghost predicate Precedes(x: Option<int>, y: Option<int>) {
    y.Some? && (x.Some? ==> x.value < y.value)
  }

  /** What a sorted list of turns without repeats looks like. */
  lemma TurnsLookLike(ts: seq<Option<int>>, m: nat)
    requires InTurnOrder(ts)
    requires forall t: int :: Some(t) in ts <==> 1 <= t <= m
    ensures ts == (if None in ts then [None] else []) + Numbered(m)
  {
    if ts != [] && ts[0].None? {
      assert ts == [None] + ts[1..];
      AreNumbered(ts[1..], m);
    } else {
      AreNumbered(ts, m);
    }
  }

  lemma SameKeys<K(!new)>(gs: seq<Batch<K>>, ks: seq<K>)
    requires |ks| == |gs| && forall k :: 0 <= k < |gs| ==> ks[k] == gs[k].0
    ensures forall t :: t in ks <==> t in Keys(gs)
  {
    forall t ensures t in ks <==> t in Keys(gs) {
      if t in ks {
        var k :| 0 <= k < |ks| && ks[k] == t;
        assert gs[k] in gs;
      }
      if t in Keys(gs) {
        var k :| 0 <= k < |gs| && gs[k].0 == t;
        assert ks[k] == t;
      }
    }
  }

  /** The turns of the groups, in order. */
  ghost function GroupTurns(gs: seq<TurnGroup>): (ts: seq<Option<int>>)
    ensures |ts| == |gs| && forall k :: 0 <= k < |gs| ==> ts[k] == gs[k].0
  {
    seq(|gs|, k requires 0 <= k < |gs| => gs[k].0)
  }

  lemma TwoKeysInOrder(gs: seq<TurnGroup>, a: nat, b: nat)
    requires KeysDiffer(gs) && Sorted(gs, TurnOrder()) && a < b < |gs|
    ensures Precedes(gs[a].0, gs[b].0)
  {
    var x, y := gs[a].0, gs[b].0;
    assert x != y && TurnOrder()(gs[a], gs[b]);
    assert (x.None? || x.Some?) && (y.None? || y.Some?);
  }

  lemma SortedKeysInOrder(gs: seq<TurnGroup>, ts: seq<Option<int>>)
    requires KeysDiffer(gs) && Sorted(gs, TurnOrder())
    requires |ts| == |gs| && forall k :: 0 <= k < |gs| ==> ts[k] == gs[k].0
    ensures InTurnOrder(ts)
  {
    forall a, b | 0 <= a < b < |ts| ensures Precedes(ts[a], ts[b]) {
      TwoKeysInOrder(gs, a, b);
    }
  }

  lemma TurnGroupsInOrder(st: SessionStructure)
    ensures KeysDiffer(TurnGroups(st)) && Sorted(TurnGroups(st), TurnOrder())
  {
    SortedGroupsHold(Indices(|st.segments|), TurnKey(st), TurnOrder());
    TurnOrderIsTotal();
    SortSorted(Groups(Indices(|st.segments|), TurnKey(st)), TurnOrder());
  }

  lemma TurnOrderIsTotal()
    ensures TotalPreorder(TurnOrder())
  {
    var leq := TurnOrder();
    forall a, b ensures leq(a, b) || leq(b, a) {
      assert (a.0.None? || a.0.Some?) && (b.0.None? || b.0.Some?);
    }
    forall a, b, c | leq(a, b) && leq(b, c) ensures leq(a, c) {
    }
  }

  lemma NumberedGroups(gs: seq<TurnGroup>, m: nat)
    requires InTurnOrder(GroupTurns(gs))
    requires forall t: int :: Some(t) in Keys(gs) <==> 1 <= t <= m
    ensures GroupTurns(gs) == (if None in Keys(gs) then [None] else []) + Numbered(m)
  {
    SameKeys(gs, GroupTurns(gs));
    TurnsLookLike(GroupTurns(gs), m);
  }

  lemma GroupKeysAreTurns(st: SessionStructure)
    ensures forall t :: t in Keys(TurnGroups(st)) <==> HasTurn(st, t)
  {
    forall t ensures t in Keys(TurnGroups(st)) <==> HasTurn(st, t) {
      TurnGroupsAreTurns(st, t);
    }
  }

  lemma NodesShowGroupTurns(st: SessionStructure, placed: seq<seq<Executor>>, nodes: seq<TurnNode>)
    requires Ready(st) && IsView(st, placed, nodes)
    ensures NodeTurns(nodes) == GroupTurns(TurnGroups(st))
  {
    var gs := TurnGroups(st);
    forall k | 0 <= k < |nodes| ensures nodes[k].turn == gs[k].0 {
      assert Shows(st, gs[k], placed[k], nodes[k]);
    }
  }

  /** The turns with segments are exactly the session's. */
  ghost predicate AllNumbersHad(st: SessionStructure, m: nat) {
    forall t: int :: HasTurn(st, Some(t)) <==> 1 <= t <= m
  }

  /** What is known of the turns of exchanges and of segments' heads. */
  ghost predicate TurnData(st: SessionStructure, heads: seq<nat>) {
    && |heads| == |st.segments|
    && SharedTurns(st.turns.of, st.segmentation.segmentOf, heads)
    && KeysOfHeads(st.turns.of, heads, TurnKey(st))
    && (forall turn: nat :: turn < |st.turns.ids| ==> Occurs(st.turns, turn))
    && (forall i :: 0 <= i < |st.turns.of| && st.turns.of[i].Some? ==> st.turns.of[i].value < |st.turns.ids|)
  }

  lemma TurnDataHolds(xs: seq<Exchange>, st: SessionStructure)
    requires Passed(xs, st) && Ready(st)
    ensures TurnData(st, HeadsOf(st))
  {
    PassedShareTurns(xs, st);
    KeysAreOfHeads(st);
    AllTurnsOccur(xs, st.bases, st.turns);
  }

  lemma TurnsAreHad(st: SessionStructure, heads: seq<nat>)
    requires TurnData(st, heads)
    ensures AllNumbersHad(st, |st.turns.ids|)
  {
    SharedTurnsHaveSegments(st.turns, |st.turns.ids|, st.segmentation.segmentOf, heads, TurnKey(st));
  }

  lemma TurnGroupsAreNumbered(st: SessionStructure, m: nat)
    requires AllNumbersHad(st, m)
    ensures GroupTurns(TurnGroups(st)) == (if HasTurn(st, None) then [None] else []) + Numbered(m)
  {
    GroupKeysAreTurns(st);
    TurnGroupsInOrder(st);
    SortedKeysInOrder(TurnGroups(st), GroupTurns(TurnGroups(st)));
    NumberedGroups(TurnGroups(st), m);
  }

  /** The nodes: one for no turn when some segment has none, then every turn
      of the session by number. */
  lemma NodesAreNumbered(events: seq<StreamEvent>, st: SessionStructure, placed: seq<seq<Executor>>,
                         nodes: seq<TurnNode>)
    requires Derived(events, st) && IsView(st, placed, nodes)
    ensures NodeTurns(nodes) == (if HasTurn(st, None) then [None] else []) + Numbered(st.summary.turns)
  {
    NodesShowGroupTurns(st, placed, nodes);
    TurnDataHolds(Grouped(events), st);
    TurnsAreHad(st, HeadsOf(st));
    TurnGroupsAreNumbered(st, |st.turns.ids|);
  }
}
