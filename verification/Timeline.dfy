/** The turn view of one session: a node per turn, holding the turn's segments
    by executor. */
module Timeline {
  import opened Collections
  import opened Gatherings
  import opened Segmentation
  import opened Sorting
  import opened StartOrder
  import opened Streams

  /** An executor under its node: heads in place of numbers, and its totals. */
  datatype TurnExecutor = TurnExecutor(
    subagentId: Option<string>,
    parentSubagentId: Option<string>,
    main: seq<string>,
    side: seq<string>,
    exchangeCount: int,
    start: int)

  datatype TurnNode = TurnNode(
    turn: Option<int>,
    turnId: Option<string>,
    start: int,
    end: int,
    exchangeCount: int,
    newContext: bool,
    executors: seq<TurnExecutor>)

  /** Whether every segment of a structure has been described. */
  ghost predicate Ready(st: SessionStructure) {
    && st.Valid() && |st.segments| == |st.segmentation.segments|
    && forall s :: 0 <= s < |st.segments| ==> st.segments[s] == st.SegmentAt(s)
  }

  // Keys of a segment; those past the end are never looked at.

  function TurnKey(st: SessionStructure): nat -> Option<int> {
    (s: nat) => if s < |st.segments| then st.segments[s].turn else None
  }

  function GroupKey(st: SessionStructure): nat -> Group {
    (s: nat) => if s < |st.segmentation.segments| then st.segmentation.segments[s].group else Line(0)
  }

  function StartKey(st: SessionStructure): nat -> int {
    (s: nat) => if s < |st.segments| then st.segments[s].start else 0
  }

  function CountKey(st: SessionStructure): nat -> int {
    (s: nat) => if s < |st.segments| then st.segments[s].exchangeCount else 0
  }

  function OnSide(st: SessionStructure, side: bool): nat -> bool {
    (s: nat) => if s < |st.segmentation.segments| then st.segmentation.segments[s].side == side else !side
  }

  type TurnGroup = Batch<Option<int>>

  /** No turn before every number. */
  function TurnOrder(): (TurnGroup, TurnGroup) -> bool {
    (a: TurnGroup, b: TurnGroup) => a.0.None? || (b.0.Some? && a.0.value <= b.0.value)
  }

  /** A group for every turn some segment has, lowest turn first. */
  function TurnGroups(st: SessionStructure): (gs: seq<TurnGroup>) {
    StableSort(Groups(Indices(|st.segments|), TurnKey(st)), TurnOrder())
  }

  type ExecutorGroup = Batch<Group>

  function ByStart(st: SessionStructure): (nat, nat) -> bool {
    (a: nat, b: nat) => StartKey(st)(a) < StartKey(st)(b) || (StartKey(st)(a) == StartKey(st)(b) && a <= b)
  }

  function IsSubagent(group: Group): bool {
    group.DeclaredBy? && group.subagent.Some?
  }

  /** The main agent's and the lines first, then the sub-agents, each by the
      start of its first segment. */
  function ExecutorOrder(st: SessionStructure): (ExecutorGroup, ExecutorGroup) -> bool {
    (a: ExecutorGroup, b: ExecutorGroup) =>
      if IsSubagent(a.0) != IsSubagent(b.0) then !IsSubagent(a.0)
      else if a.1 == [] || b.1 == [] then a.1 == []
      else StartKey(st)(a.1[0]) <= StartKey(st)(b.1[0])
  }

  function Arranged(st: SessionStructure, gs: seq<ExecutorGroup>): (r: seq<ExecutorGroup>)
    ensures |r| == |gs|
    ensures forall a :: 0 <= a < |gs| ==> r[a] == (gs[a].0, StableSort(gs[a].1, ByStart(st)))
  {
    seq(|gs|, a requires 0 <= a < |gs| => (gs[a].0, StableSort(gs[a].1, ByStart(st))))
  }

  /** One turn's segments by group, each group's by start. */
  function ExecutorGroups(st: SessionStructure, members: seq<nat>): (gs: seq<ExecutorGroup>) {
    StableSort(Arranged(st, Groups(members, GroupKey(st))), ExecutorOrder(st))
  }

  /** The sub-agent that started a group's executor, as the first exchange of
      its earliest segment declares it. */
  function DeclaredParent(st: SessionStructure, segments: seq<nat>): Option<string>
    requires Ready(st)
  {
    if segments == [] || segments[0] >= |st.segments| then None
    else st.exchanges[st.HeadOf(segments[0])].parentSubagentId
  }

  function ExecutorOf(st: SessionStructure, g: ExecutorGroup): Executor
    requires Ready(st)
  {
    var subagentId := match g.0 case DeclaredBy(subagent) => subagent case Line(_) => None;
    Executor(
      subagentId,
      if subagentId.Some? then DeclaredParent(st, g.1) else None,
      Filter<nat>(g.1, OnSide(st, false)),
      Filter<nat>(g.1, OnSide(st, true)))
  }

  function ExecutorsOf(st: SessionStructure, gs: seq<ExecutorGroup>): (es: seq<Executor>)
    requires Ready(st)
    ensures |es| == |gs| && forall a :: 0 <= a < |gs| ==> es[a] == ExecutorOf(st, gs[a])
  {
    seq(|gs|, a requires 0 <= a < |gs| => ExecutorOf(st, gs[a]))
  }

  /** `es` are the executors of one turn's segments, parents before those they
      started. */
  ghost predicate AreExecutors(st: SessionStructure, members: seq<nat>, es: seq<Executor>)
    requires Ready(st)
  {
    var unordered := ExecutorsOf(st, ExecutorGroups(st, members));
    exists order :: IsStartOrder(ParentsOf(unordered), order) && Ordered(unordered, order, es)
  }

  method Executors(st: SessionStructure, members: seq<nat>) returns (es: seq<Executor>)
    requires Ready(st)
    ensures AreExecutors(st, members, es)
  {
    var groups := Gather(members, GroupKey(st));
    var arranged := StableSort(Arranged(st, groups), ExecutorOrder(st));
    es := StartedFirst(ExecutorsOf(st, arranged));
  }

  /** The heads of segments. */
  function Heads(st: SessionStructure, segments: seq<nat>): (heads: seq<string>)
    ensures |heads| == |segments|
    ensures forall k :: 0 <= k < |segments| && segments[k] < |st.segments| ==> heads[k] == st.segments[segments[k]].head
  {
    seq(|segments|, k requires 0 <= k < |segments| =>
      if segments[k] < |st.segments| then st.segments[segments[k]].head else "")
  }

  function Starts(st: SessionStructure, segments: seq<nat>): seq<int> {
    seq(|segments|, k requires 0 <= k < |segments| => StartKey(st)(segments[k]))
  }

  function Ends(st: SessionStructure, segments: seq<nat>): seq<int> {
    seq(|segments|, k requires 0 <= k < |segments| =>
      if segments[k] < |st.segments| then st.segments[segments[k]].end else 0)
  }

  function ExchangeCount(st: SessionStructure, segments: seq<nat>): int {
    SumOf(segments, CountKey(st))
  }

  /** The main line shown first builds on no other exchange. */
  function NewContext(st: SessionStructure, es: seq<Executor>): bool
    requires Ready(st)
  {
    if es == [] || es[0].main == [] || es[0].main[0] >= |st.segments| then true
    else st.BaseOf(st.HeadOf(es[0].main[0])).None?
  }

  function ReadExecutor(st: SessionStructure, e: Executor): TurnExecutor {
    var all := e.main + e.side;
    TurnExecutor(e.subagentId, e.parentSubagentId, Heads(st, e.main), Heads(st, e.side), ExchangeCount(st, all),
                 Earliest(Starts(st, all)))
  }

  function ReadExecutors(st: SessionStructure, es: seq<Executor>): (r: seq<TurnExecutor>)
    ensures |r| == |es| && forall k :: 0 <= k < |es| ==> r[k] == ReadExecutor(st, es[k])
  {
    seq(|es|, k requires 0 <= k < |es| => ReadExecutor(st, es[k]))
  }

  /** The node of one turn's segments under their executors. */
  function TurnNodeOf(st: SessionStructure, g: TurnGroup, es: seq<Executor>): TurnNode
    requires Ready(st)
  {
    TurnNode(
      g.0,
      if g.1 != [] && g.1[0] < |st.segments| then st.segments[g.1[0]].turnId else None,
      Earliest(Starts(st, g.1)),
      LatestOf(Ends(st, g.1)),
      ExchangeCount(st, g.1),
      NewContext(st, es),
      ReadExecutors(st, es))
  }

  /** Node `k` shows turn `k` under the executors `es`. */
  ghost predicate Shows(st: SessionStructure, g: TurnGroup, es: seq<Executor>, node: TurnNode)
    requires Ready(st)
  {
    AreExecutors(st, g.1, es) && node == TurnNodeOf(st, g, es)
  }

  /** `placed[k]` are the executors of turn `k`, and `nodes[k]` shows them. */
  ghost predicate ViewUpTo(st: SessionStructure, gs: seq<TurnGroup>, placed: seq<seq<Executor>>, nodes: seq<TurnNode>)
    requires Ready(st)
  {
    && |nodes| == |placed| <= |gs|
    && forall k :: 0 <= k < |placed| ==> Shows(st, gs[k], placed[k], nodes[k])
  }

  /** The whole turn view. */
  ghost predicate IsView(st: SessionStructure, placed: seq<seq<Executor>>, nodes: seq<TurnNode>)
    requires Ready(st)
  {
    ViewUpTo(st, TurnGroups(st), placed, nodes) && |nodes| == |TurnGroups(st)|
  }

  ghost predicate ShownBySome(st: SessionStructure, g: TurnGroup, node: TurnNode)
    requires Ready(st)
  {
    exists es :: Shows(st, g, es, node)
  }

  ghost function ShownBy(st: SessionStructure): (TurnGroup, TurnNode) -> bool
    requires Ready(st)
  {
    (g: TurnGroup, node: TurnNode) => ShownBySome(st, g, node)
  }

  ghost function ExecutorsShown(st: SessionStructure, g: TurnGroup, node: TurnNode): (es: seq<Executor>)
    requires Ready(st) && ShownBySome(st, g, node)
    ensures Shows(st, g, es, node)
  {
    var es :| Shows(st, g, es, node);
    es
  }

  lemma AllShown(st: SessionStructure, gs: seq<TurnGroup>, nodes: seq<TurnNode>) returns (placed: seq<seq<Executor>>)
    requires Ready(st) && Paired(gs, nodes, ShownBy(st))
    ensures ViewUpTo(st, gs, placed, nodes)
  {
    forall k | 0 <= k < |nodes| ensures ShownBySome(st, gs[k], nodes[k]) {
      assert ShownBy(st)(gs[k], nodes[k]);
    }
    placed := seq(|nodes|, k requires 0 <= k < |nodes| => ExecutorsShown(st, gs[k], nodes[k]));
  }

  method ShowTurn(st: SessionStructure, g: TurnGroup) returns (node: TurnNode)
    requires Ready(st)
    ensures ShownBySome(st, g, node)
  {
    var es := Executors(st, g.1);
    node := TurnNodeOf(st, g, es);
    assert Shows(st, g, es, node);
  }

  method ShowTurns(st: SessionStructure, gs: seq<TurnGroup>) returns (nodes: seq<TurnNode>)
    requires Ready(st)
    ensures |nodes| == |gs| && exists placed :: ViewUpTo(st, gs, placed, nodes)
  {
    nodes := [];
    for k := 0 to |gs|
      invariant |nodes| == k && Paired(gs, nodes, ShownBy(st))
    {
      var node := ShowTurn(st, gs[k]);
      PairedNext(gs, nodes, node, ShownBy(st));
      nodes := nodes + [node];
    }
    ghost var placed := AllShown(st, gs, nodes);
  }

  /** A node for every group of `TurnGroups`. */
  method SessionTurns(st: SessionStructure) returns (nodes: seq<TurnNode>)
    requires Ready(st)
    ensures exists placed :: IsView(st, placed, nodes)
  {
    var gathered := Gather(Indices(|st.segments|), TurnKey(st));
    nodes := ShowTurns(st, StableSort(gathered, TurnOrder()));
    ghost var placed :| ViewUpTo(st, TurnGroups(st), placed, nodes);
    assert IsView(st, placed, nodes);
  }
}
