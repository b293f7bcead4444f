/** In which order a node lists its executors. */
module NodeOrder {
  import opened Collections
  import opened DepthFirst
  import opened Gatherings
  import opened NodeLaws
  import opened StartLaws
  import opened StartOrder
  import opened Streams
  import opened Timeline
  import opened TimelineLaws

  /** The executor shown at `y` declares that at `x` as who started it. */
  ghost predicate StartedBy(es: seq<TurnExecutor>, y: nat, x: nat) {
    x < |es| && y < |es| && x != y && es[y].parentSubagentId.Some? && es[y].parentSubagentId == es[x].subagentId
  }

  /** Nobody shown is said to have started the executor at `x`. */
  ghost predicate IsTop(es: seq<TurnExecutor>, x: nat) {
    x < |es| && forall y: nat :: !StartedBy(es, x, y)
  }

  /** `path` leads from `path[0]` by whoever started it up to the top. */
  ghost predicate HangsFromTop(es: seq<TurnExecutor>, path: seq<nat>) {
    && path != [] && (forall k :: 0 <= k < |path| - 1 ==> StartedBy(es, path[k], path[k + 1]))
    && IsTop(es, path[|path| - 1])
  }

  /** `shown` are the executors of `unordered`, in a start order. */
  ghost predicate Arrange(unordered: seq<Executor>, order: seq<nat>, shown: seq<TurnExecutor>) {
    && IsStartOrder(ParentsOf(unordered), order) && |shown| == |order| == |unordered|
    && forall k :: 0 <= k < |order| ==>
         && order[k] < |unordered| && shown[k].subagentId == unordered[order[k]].subagentId
         && shown[k].parentSubagentId == unordered[order[k]].parentSubagentId
  }

  /** No two sub-agents have one id. */
  ghost predicate SubagentsDiffer(es: seq<Executor>) {
    forall a, b :: 0 <= a < b < |es| && es[a].subagentId.Some? ==> es[a].subagentId != es[b].subagentId
  }

  lemma GroupsDiffer(st: SessionStructure, members: seq<nat>)
    ensures KeysDiffer(ExecutorGroups(st, members))
  {
    var gs := Groups(members, GroupKey(st));
    GroupsHoldTheirKeys(members, GroupKey(st));
    var arranged := Arranged(st, gs);
    forall a, b | 0 <= a < b < |arranged| ensures arranged[a].0 != arranged[b].0 {
      assert gs[a].0 != gs[b].0;
    }
    SortedKeysDiffer(arranged, ExecutorOrder(st));
  }

  lemma ExecutorsDiffer(st: SessionStructure, members: seq<nat>)
    requires Ready(st)
    ensures SubagentsDiffer(ExecutorsOf(st, ExecutorGroups(st, members)))
  {
    var gs := ExecutorGroups(st, members);
    GroupsDiffer(st, members);
    forall a, b | 0 <= a < b < |gs| && ExecutorOf(st, gs[a]).subagentId.Some?
      ensures ExecutorOf(st, gs[a]).subagentId != ExecutorOf(st, gs[b]).subagentId
    {
      assert gs[a].0 != gs[b].0;
    }
  }

  lemma ParentIsFound(es: seq<Executor>, b: nat, a: nat)
    requires SubagentsDiffer(es) && a < |es| && b < |es|
    ensures ParentsOf(es)[b] == Some(a) <==>
              a != b && es[b].parentSubagentId.Some? && es[b].parentSubagentId == es[a].subagentId
  {
    var p := ParentOf(es, b);
    if a != b && es[b].parentSubagentId.Some? && es[b].parentSubagentId == es[a].subagentId {
      assert p.Some?;
      assert es[p.value].subagentId == es[a].subagentId;
    }
  }

  lemma PlaceOf(order: seq<nat>, n: nat, q: nat) returns (x: nat)
    requires Distinct(order) && |order| == n && q < n && forall k :: 0 <= k < n ==> order[k] < n
    ensures x < n && order[x] == q
  {
    if q !in order {
      DistinctCount(order);
      Fewer(Elements(order), Below(n) - {q});
      assert false;
    }
    x :| 0 <= x < n && order[x] == q;
  }

  lemma ShownParent(unordered: seq<Executor>, order: seq<nat>, shown: seq<TurnExecutor>, y: nat, x: nat)
    requires Arrange(unordered, order, shown) && SubagentsDiffer(unordered) && x < |order| && y < |order|
    ensures StartedBy(shown, y, x) <==> ParentsOf(unordered)[order[y]] == Some(order[x])
  {
    ParentIsFound(unordered, order[y], order[x]);
    if x != y {
      assert order[x] != order[y];
    }
  }

  lemma ShownTop(unordered: seq<Executor>, order: seq<nat>, shown: seq<TurnExecutor>, x: nat)
    requires Arrange(unordered, order, shown) && SubagentsDiffer(unordered) && x < |order|
    ensures IsTop(shown, x) <==> ParentsOf(unordered)[order[x]].None?
  {
    var parents := ParentsOf(unordered);
    forall y: nat | y < |order| ensures StartedBy(shown, x, y) <==> parents[order[x]] == Some(order[y]) {
      ShownParent(unordered, order, shown, x, y);
    }
    if parents[order[x]].Some? {
      var y := PlaceOf(order, |parents|, parents[order[x]].value);
      assert StartedBy(shown, x, y);
    }
  }

  function Numbers(order: seq<nat>, path: seq<nat>): (r: seq<nat>)
    requires forall k :: 0 <= k < |path| ==> path[k] < |order|
    ensures |r| == |path| && forall k :: 0 <= k < |path| ==> r[k] == order[path[k]]
  {
    seq(|path|, k requires 0 <= k < |path| => order[path[k]])
  }

  lemma ShownPath(unordered: seq<Executor>, order: seq<nat>, shown: seq<TurnExecutor>, path: seq<nat>)
    requires Arrange(unordered, order, shown) && SubagentsDiffer(unordered) && HangsFromTop(shown, path)
    ensures forall k :: 0 <= k < |path| ==> path[k] < |order|
    ensures ClimbsToTop(ParentsOf(unordered), Numbers(order, path))
  {
    forall k | 0 <= k < |path| ensures path[k] < |order| {
      assert k < |path| - 1 ==> StartedBy(shown, path[k], path[k + 1]);
    }
    var up := Numbers(order, path);
    forall k | 0 <= k < |path| - 1 ensures ParentsOf(unordered)[up[k]] == Some(up[k + 1]) {
      assert StartedBy(shown, path[k], path[k + 1]);
      ShownParent(unordered, order, shown, path[k], path[k + 1]);
    }
    ShownTop(unordered, order, shown, path[|path| - 1]);
  }

  /** What a node shows is arranged. */
  lemma NodeIsArranged(st: SessionStructure, placed: seq<seq<Executor>>, nodes: seq<TurnNode>, k: nat)
    returns (unordered: seq<Executor>, order: seq<nat>)
    requires Ready(st) && IsView(st, placed, nodes) && k < |nodes|
    ensures unordered == ExecutorsOf(st, ExecutorGroups(st, TurnGroups(st)[k].1))
    ensures Arrange(unordered, order, nodes[k].executors) && SubagentsDiffer(unordered)
    ensures Ordered(unordered, order, placed[k]) && nodes[k].executors == ReadExecutors(st, placed[k])
  {
    var members := TurnGroups(st)[k].1;
    assert Shows(st, TurnGroups(st)[k], placed[k], nodes[k]);
    unordered := ExecutorsOf(st, ExecutorGroups(st, members));
    order :| IsStartOrder(ParentsOf(unordered), order) && Ordered(unordered, order, placed[k]);
    ExecutorsDiffer(st, members);
  }

  /** Whoever started an executor and hangs from the top of its node stands
      before it. */
  lemma StartersStandBefore(st: SessionStructure, placed: seq<seq<Executor>>, nodes: seq<TurnNode>, k: nat,
                            path: seq<nat>, y: nat)
    requires Ready(st) && IsView(st, placed, nodes) && k < |nodes|
    requires HangsFromTop(nodes[k].executors, path) && StartedBy(nodes[k].executors, y, path[0])
    ensures path[0] < y
  {
    var unordered, order := NodeIsArranged(st, placed, nodes, k);
    var shown := nodes[k].executors;
    ShownPath(unordered, order, shown, path);
    ShownParent(unordered, order, shown, y, path[0]);
    StartedStandsBehind(ParentsOf(unordered), order, Numbers(order, path), path[0], y);
  }

  /** At the top, the main agent and the lines stand before the sub-agents,
      each kind by start. */
  lemma TopsStandByStart(st: SessionStructure, placed: seq<seq<Executor>>, nodes: seq<TurnNode>, k: nat, x: nat, y: nat)
    requires Ready(st) && IsView(st, placed, nodes) && k < |nodes| && x < y
    requires IsTop(nodes[k].executors, x) && IsTop(nodes[k].executors, y)
    ensures StandsByStart(nodes[k].executors, x, y)
  {
    var unordered, order := NodeIsArranged(st, placed, nodes, k);
    var shown := nodes[k].executors;
    ShownTop(unordered, order, shown, x);
    ShownTop(unordered, order, shown, y);
    assert order[x] != order[y];
    if order[y] < order[x] {
      TopsKeepTheirOrder(ParentsOf(unordered), order, y, x);
    }
    EarlierNumbers(st, placed, nodes, k, unordered, order, x, y);
  }

  /** The main agent and the lines before sub-agents, each kind by start. */
  ghost predicate StandsByStart(es: seq<TurnExecutor>, x: nat, y: nat)
    requires x < |es| && y < |es|
  {
    && (es[x].subagentId.Some? ==> es[y].subagentId.Some?)
    && (es[x].subagentId.Some? == es[y].subagentId.Some? ==> es[x].start <= es[y].start)
  }

  lemma EarlierNumbers(st: SessionStructure, placed: seq<seq<Executor>>, nodes: seq<TurnNode>, k: nat,
                       unordered: seq<Executor>, order: seq<nat>, x: nat, y: nat)
    requires Ready(st) && IsView(st, placed, nodes) && k < |nodes|
    requires unordered == ExecutorsOf(st, ExecutorGroups(st, TurnGroups(st)[k].1))
    requires Arrange(unordered, order, nodes[k].executors) && Ordered(unordered, order, placed[k])
    requires nodes[k].executors == ReadExecutors(st, placed[k])
    requires x < |order| && y < |order| && order[x] < order[y]
    ensures StandsByStart(nodes[k].executors, x, y)
  {
    MainComesFirst(st, TurnGroups(st)[k].1, order[x], order[y]);
    StartOfGroup(st, k, order[x]);
    StartOfGroup(st, k, order[y]);
  }

  /** Sub-agents that one executor before them started stand by start. */
  lemma SiblingsStandByStart(st: SessionStructure, placed: seq<seq<Executor>>, nodes: seq<TurnNode>, k: nat, x: nat,
                             y: nat, z: nat)
    requires Ready(st) && IsView(st, placed, nodes) && k < |nodes| && x < y < z
    requires StartedBy(nodes[k].executors, y, x) && StartedBy(nodes[k].executors, z, x)
    ensures StandsByStart(nodes[k].executors, y, z)
  {
    var unordered, order := NodeIsArranged(st, placed, nodes, k);
    ShownParent(unordered, order, nodes[k].executors, y, x);
    ShownParent(unordered, order, nodes[k].executors, z, x);
    SiblingsKeepTheirOrder(ParentsOf(unordered), order, x, y, z);
    EarlierNumbers(st, placed, nodes, k, unordered, order, y, z);
  }

  /** Whoever those shown from `x` up to `y` started stands before `y`. */
  ghost predicate NobodyLeft(es: seq<TurnExecutor>, x: nat, y: nat) {
    forall m: nat, c: nat :: x <= m < y && StartedBy(es, c, m) ==> c < y
  }

  /** `y` is started by the last shown before it that has somebody left. */
  ghost predicate GoesDeeper(es: seq<TurnExecutor>, y: nat) {
    exists x: nat :: x < y && StartedBy(es, y, x) && NobodyLeft(es, x + 1, y)
  }

  /** Nobody shown before `y` has anybody left, and `y` is at the top or, when
      all of the top stand before it, starts no later than all that follow. */
  ghost predicate StartsOver(es: seq<TurnExecutor>, y: nat) {
    && y < |es| && NobodyLeft(es, 0, y)
    && (!IsTop(es, y) ==>
          && (forall t: nat :: IsTop(es, t) ==> t < y)
          && forall z: nat :: y < z < |es| ==> StandsByStart(es, y, z))
  }

  lemma ListedMeansBefore(order: seq<nat>, y: nat, c: nat)
    requires Distinct(order) && y <= |order| && c < |order|
    ensures Listed(order, y, order[c]) <==> c < y
  {
    if Listed(order, y, order[c]) {
      var m :| 0 <= m < y && order[m] == order[c];
      SamePlace(order, m, c);
    }
  }

  lemma ShownClosed(unordered: seq<Executor>, order: seq<nat>, shown: seq<TurnExecutor>, x: nat, y: nat)
    requires Arrange(unordered, order, shown) && SubagentsDiffer(unordered) && y < |order|
    requires Closed(ParentsOf(unordered), order, x, y)
    ensures NobodyLeft(shown, x, y)
  {
    forall m: nat, c: nat | x <= m < y && StartedBy(shown, c, m) ensures c < y {
      ShownParent(unordered, order, shown, c, m);
      ListedMeansBefore(order, y, c);
      assert IsChild(ParentsOf(unordered), order[c], order[m]);
    }
  }

  /** A node lists its executors depth first. */
  lemma NodesListDepthFirst(st: SessionStructure, placed: seq<seq<Executor>>, nodes: seq<TurnNode>, k: nat, y: nat)
    requires Ready(st) && IsView(st, placed, nodes) && k < |nodes| && y < |nodes[k].executors|
    ensures GoesDeeper(nodes[k].executors, y) || StartsOver(nodes[k].executors, y)
  {
    var unordered, order := NodeIsArranged(st, placed, nodes, k);
    if BeginsAnew(ParentsOf(unordered), order, y) && ParentsOf(unordered)[order[y]].Some? {
      EarliestStartsOver(st, placed, nodes, k, unordered, order, y);
    }
    IsDepthFirst(unordered, order, nodes[k].executors, y);
  }

  lemma IsDepthFirst(unordered: seq<Executor>, order: seq<nat>, shown: seq<TurnExecutor>, y: nat)
    requires Arrange(unordered, order, shown) && SubagentsDiffer(unordered) && y < |order|
    requires BeginsAnew(ParentsOf(unordered), order, y) && ParentsOf(unordered)[order[y]].Some? ==>
               forall z: nat :: y < z < |order| ==> StandsByStart(shown, y, z)
    ensures GoesDeeper(shown, y) || StartsOver(shown, y)
  {
    NextIsDetermined(ParentsOf(unordered), order, y);
    if x: nat :| ContinuesAt(ParentsOf(unordered), order, x, y) {
      Deepens(unordered, order, shown, x, y);
    } else {
      ShownClosed(unordered, order, shown, 0, y);
      ShownTop(unordered, order, shown, y);
      if !IsTop(shown, y) {
        TopsAreBefore(unordered, order, shown, y);
      }
    }
  }

  lemma Deepens(unordered: seq<Executor>, order: seq<nat>, shown: seq<TurnExecutor>, x: nat, y: nat)
    requires Arrange(unordered, order, shown) && SubagentsDiffer(unordered) && y < |order|
    requires ContinuesAt(ParentsOf(unordered), order, x, y)
    ensures GoesDeeper(shown, y)
  {
    ShownParent(unordered, order, shown, y, x);
    ShownClosed(unordered, order, shown, x + 1, y);
  }

  lemma EarliestStartsOver(st: SessionStructure, placed: seq<seq<Executor>>, nodes: seq<TurnNode>, k: nat,
                           unordered: seq<Executor>, order: seq<nat>, y: nat)
    requires Ready(st) && IsView(st, placed, nodes) && k < |nodes|
    requires unordered == ExecutorsOf(st, ExecutorGroups(st, TurnGroups(st)[k].1))
    requires Arrange(unordered, order, nodes[k].executors) && Ordered(unordered, order, placed[k])
    requires nodes[k].executors == ReadExecutors(st, placed[k])
    requires y < |order| && BeginsAnew(ParentsOf(unordered), order, y) && ParentsOf(unordered)[order[y]].Some?
    ensures forall z: nat :: y < z < |order| ==> StandsByStart(nodes[k].executors, y, z)
  {
    forall z: nat | y < z < |order| ensures StandsByStart(nodes[k].executors, y, z) {
      FirstLeftIsSmaller(unordered, order, nodes[k].executors, y, z);
      EarlierNumbers(st, placed, nodes, k, unordered, order, y, z);
    }
  }

  lemma FirstLeftIsSmaller(unordered: seq<Executor>, order: seq<nat>, shown: seq<TurnExecutor>, y: nat, z: nat)
    requires Arrange(unordered, order, shown) && y < z < |order|
    requires BeginsAnew(ParentsOf(unordered), order, y) && ParentsOf(unordered)[order[y]].Some?
    ensures order[y] < order[z]
  {
    ListedMeansBefore(order, y, z);
    assert order[y] != order[z];
  }

  lemma TopsAreBefore(unordered: seq<Executor>, order: seq<nat>, shown: seq<TurnExecutor>, y: nat)
    requires Arrange(unordered, order, shown) && SubagentsDiffer(unordered) && y < |order|
    requires BeginsAnew(ParentsOf(unordered), order, y) && ParentsOf(unordered)[order[y]].Some?
    ensures forall t: nat :: IsTop(shown, t) ==> t < y
  {
    forall t: nat | IsTop(shown, t) ensures t < y {
      ShownTop(unordered, order, shown, t);
      ListedMeansBefore(order, y, t);
    }
  }

  /** An executor starts with the first segment of its group. */
  lemma StartOfGroup(st: SessionStructure, k: nat, a: nat)
    requires Ready(st) && k < |TurnGroups(st)| && a < |ExecutorGroups(st, TurnGroups(st)[k].1)|
    ensures var g := ExecutorGroups(st, TurnGroups(st)[k].1)[a];
      && g.1 != [] && ReadExecutor(st, ExecutorOf(st, g)).start == StartKey(st)(g.1[0])
      && (ExecutorOf(st, g).subagentId.Some? <==> IsSubagent(g.0))
  {
    var g := ExecutorGroups(st, TurnGroups(st)[k].1)[a];
    ExecutorGroupsHoldKeys(st, k, a);
    GroupIsSorted(st, TurnGroups(st)[k].1, a);
    FirstIsEarliest(st, g);
    EarliestStarts(st, ExecutorOf(st, g), g.1[0]);
  }

  lemma EarliestStarts(st: SessionStructure, e: Executor, s: nat)
    requires IsEarliest(st, e, s)
    ensures ReadExecutor(st, e).start == StartKey(st)(s)
  {
    var all := e.main + e.side;
    var starts := Timeline.Starts(st, all);
    var k :| 0 <= k < |all| && all[k] == s;
    assert starts[k] in starts;
    assert StartsBefore(st, s, s);
    forall l | 0 <= l < |all| ensures starts[k] <= starts[l] {
      assert all[l] in all && StartsBefore(st, s, all[l]);
      assert StartKey(st)(all[l]) == st.segments[all[l]].start && StartKey(st)(s) == st.segments[s].start;
    }
  }
}
