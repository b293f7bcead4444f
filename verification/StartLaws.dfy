/** What a start order means for who stands before whom. */
module StartLaws {
  import opened Collections
  import opened StartOrder
  import opened StartRecursion

  /** `path` climbs from `path[0]` by declared parents to one that has none. */
  ghost predicate ClimbsToTop(parents: seq<Option<nat>>, path: seq<nat>) {
    && path != [] && (forall k :: 0 <= k < |path| ==> path[k] < |parents|)
    && (forall k :: 0 <= k < |path| - 1 ==> parents[path[k]] == Some(path[k + 1]))
    && parents[path[|path| - 1]].None?
  }

  lemma MemberOfSplit(a: seq<nat>, b: seq<nat>, x: nat)
    ensures x in a + b <==> x in a || x in b
  {
    if x in a {
      var k :| 0 <= k < |a| && a[k] == x;
      assert (a + b)[k] == x;
    }
    if x in b {
      var k :| 0 <= k < |b| && b[k] == x;
      assert (a + b)[|a| + k] == x;
    }
  }

  /** Whoever's tree is among `ts` stands in their preorder. */
  lemma {:induction false} RootsAreListed(ts: seq<Tree>, k: nat)
    requires k < |ts|
    ensures ts[k].index in PreorderAll(ts)
  {
    if k > 0 {
      RootsAreListed(ts[1..], k - 1);
    }
  }

  /** With an executor, a tree holds its children. */
  lemma {:induction false} TreeIsClosed(parents: seq<Option<nat>>, t: Tree, x: nat, c: nat)
    requires Faithful(parents, t) && x in Preorder(t) && c < |parents| && parents[c] == Some(x)
    ensures c in Preorder(t)
  {
    if x == t.index {
      assert c in ChildrenOf(parents, x);
      var k :| 0 <= k < |ChildrenOf(parents, x)| && ChildrenOf(parents, x)[k] == c;
      RootsAreListed(t.children, k);
    } else {
      MemberOfSplit([t.index], PreorderAll(t.children), x);
      TreesAreClosed(parents, t.children, x, c);
    }
  }

  lemma {:induction false} TreesAreClosed(parents: seq<Option<nat>>, ts: seq<Tree>, x: nat, c: nat)
    requires forall k :: 0 <= k < |ts| ==> Faithful(parents, ts[k])
    requires x in PreorderAll(ts) && c < |parents| && parents[c] == Some(x)
    ensures c in PreorderAll(ts)
  {
    MemberOfSplit(Preorder(ts[0]), PreorderAll(ts[1..]), x);
    if x in Preorder(ts[0]) {
      TreeIsClosed(parents, ts[0], x, c);
    } else {
      TreesAreClosed(parents, ts[1..], x, c);
    }
  }

  /** All that hangs from the top stands in the preorder. */
  lemma {:induction false} ClimbersAreListed(parents: seq<Option<nat>>, forest: seq<Tree>, path: seq<nat>)
    requires IsForest(parents, forest, |parents|) && ClimbsToTop(parents, path)
    ensures path[0] in PreorderAll(forest)
  {
    if |path| == 1 {
      TopsAreListed(parents, path[0], |parents|);
      var k :| 0 <= k < |forest| && TopsBelow(parents, |parents|)[k] == path[0];
      RootsAreListed(forest, k);
    } else {
      ClimbersAreListed(parents, forest, path[1..]);
      TreesAreClosed(parents, forest, path[1], path[0]);
    }
  }

  lemma {:induction false} TopsAreListed(parents: seq<Option<nat>>, i: nat, n: nat)
    requires i < n <= |parents| && parents[i].None?
    ensures i in TopsBelow(parents, n)
  {
    if i < n - 1 {
      TopsAreListed(parents, i, n - 1);
    }
  }

  /** In the preorder, the executor at place `k` has no parent, or comes behind it. */
  ghost predicate TopOrStarted(parents: seq<Option<nat>>, order: seq<nat>, k: nat)
    requires k < |order|
  {
    order[k] < |parents| && (parents[order[k]].None? || parents[order[k]].value in order[..k])
  }

  lemma StaysStarted(parents: seq<Option<nat>>, before: seq<nat>, order: seq<nat>, k: nat)
    requires k < |order| && order[k] < |parents| && parents[order[k]].Some?
    requires parents[order[k]].value in before || parents[order[k]].value in order[..k]
    ensures TopOrStarted(parents, before + order, |before| + k)
  {
    assert (before + order)[..|before| + k] == before + order[..k];
    MemberOfSplit(before, order[..k], parents[order[k]].value);
  }

  /** Everyone below a tree's root comes behind its parent. */
  lemma {:induction false} TreeStarts(parents: seq<Option<nat>>, t: Tree, k: nat)
    requires Faithful(parents, t) && k < |Preorder(t)|
    ensures Preorder(t)[k] < |parents|
    ensures k > 0 ==> parents[Preorder(t)[k]].Some? && parents[Preorder(t)[k]].value in Preorder(t)[..k]
    decreases t, 0
  {
    if k > 0 {
      ChildrenHaveParents(parents, t);
      TreesStart(parents, t.index, t.children, k - 1);
      var below := PreorderAll(t.children);
      assert Preorder(t)[..k] == [t.index] + below[..k - 1];
      MemberOfSplit([t.index], below[..k - 1], parents[below[k - 1]].value);
    }
  }

  lemma {:induction false} TreesStart(parents: seq<Option<nat>>, root: nat, ts: seq<Tree>, k: nat)
    requires forall j :: 0 <= j < |ts| ==> Faithful(parents, ts[j]) && parents[ts[j].index] == Some(root)
    requires k < |PreorderAll(ts)|
    ensures var below := PreorderAll(ts);
      below[k] < |parents| && parents[below[k]].Some?
      && (parents[below[k]].value == root || parents[below[k]].value in below[..k])
    decreases ts, 1
  {
    var first, rest := Preorder(ts[0]), PreorderAll(ts[1..]);
    if k < |first| {
      TreeStarts(parents, ts[0], k);
      assert (first + rest)[..k] == first[..k];
    } else {
      TreesStart(parents, root, ts[1..], k - |first|);
      assert (first + rest)[..k] == first + rest[..k - |first|];
      MemberOfSplit(first, rest[..k - |first|], parents[rest[k - |first|]].value);
    }
  }

  lemma {:induction false} ForestStarts(parents: seq<Option<nat>>, forest: seq<Tree>, k: nat)
    requires forall j :: 0 <= j < |forest| ==> Faithful(parents, forest[j]) && parents[forest[j].index].None?
    requires k < |PreorderAll(forest)|
    ensures TopOrStarted(parents, PreorderAll(forest), k)
  {
    var first, rest := Preorder(forest[0]), PreorderAll(forest[1..]);
    if k < |first| {
      TreeStarts(parents, forest[0], k);
      assert (first + rest)[..k] == first[..k];
    } else {
      ForestStarts(parents, forest[1..], k - |first|);
      if parents[rest[k - |first|]].Some? {
        StaysStarted(parents, first, rest, k - |first|);
      }
    }
  }

  lemma {:induction false} TopsHaveNoParent(parents: seq<Option<nat>>, n: nat, k: nat)
    requires n <= |parents| && k < |TopsBelow(parents, n)|
    ensures TopsBelow(parents, n)[k] < n && parents[TopsBelow(parents, n)[k]].None?
  {
    if k < |TopsBelow(parents, n - 1)| {
      TopsHaveNoParent(parents, n - 1, k);
    }
  }

  lemma SamePlace(order: seq<nat>, a: nat, b: nat)
    requires Distinct(order) && a < |order| && b < |order| && order[a] == order[b]
    ensures a == b
  {
  }

  /** Whoever's parent hangs from the top stands behind it. */
  lemma StartedStandsBehind(parents: seq<Option<nat>>, order: seq<nat>, path: seq<nat>, x: nat, y: nat)
    requires IsStartOrder(parents, order) && ClimbsToTop(parents, path)
    requires x < |order| && order[x] == path[0] && y < |order| && parents[order[y]] == Some(path[0])
    ensures x < y
  {
    var forest: seq<Tree> :| IsForest(parents, forest, |parents|) && PreorderAll(forest) <= order
                  && EnteredEarly(parents, order, |PreorderAll(forest)|);
    var k := StartedInForest(parents, forest, [order[y]] + path);
    StandsBehind(PreorderAll(forest), order, k, x, y);
  }

  lemma StandsBehind(listed: seq<nat>, order: seq<nat>, k: nat, x: nat, y: nat)
    requires listed <= order && Distinct(order) && k < |listed| && x < |order| && y < |order|
    requires listed[k] == order[y] && order[x] in listed[..k]
    ensures x < y
  {
    SamePlace(order, k, y);
    var m :| 0 <= m < k && listed[..k][m] == order[x];
    SamePlace(order, m, x);
  }

  /** Where the first of a path stands in the preorder: behind the second. */
  lemma StartedInForest(parents: seq<Option<nat>>, forest: seq<Tree>, path: seq<nat>) returns (k: nat)
    requires IsForest(parents, forest, |parents|) && ClimbsToTop(parents, path) && |path| > 1
    ensures k < |PreorderAll(forest)| && PreorderAll(forest)[k] == path[0]
    ensures path[1] in PreorderAll(forest)[..k]
  {
    ClimbersAreListed(parents, forest, path);
    k :| 0 <= k < |PreorderAll(forest)| && PreorderAll(forest)[k] == path[0];
    forall j | 0 <= j < |forest| ensures Faithful(parents, forest[j]) && parents[forest[j].index].None? {
      TopsHaveNoParent(parents, |parents|, j);
    }
    ForestStarts(parents, forest, k);
  }

  /** Of two without a parent the smaller number stands before the greater. */
  lemma TopsKeepTheirOrder(parents: seq<Option<nat>>, order: seq<nat>, x: nat, y: nat)
    requires IsStartOrder(parents, order) && x < |order| && y < |order|
    requires parents[order[x]].None? && parents[order[y]].None? && order[x] < order[y]
    ensures x < y
  {
    var forest: seq<Tree> :| IsForest(parents, forest, |parents|) && PreorderAll(forest) <= order
                  && EnteredEarly(parents, order, |PreorderAll(forest)|);
    var tops := TopsBelow(parents, |parents|);
    TopsAreListed(parents, order[x], |parents|);
    TopsAreListed(parents, order[y], |parents|);
    var a: nat :| a < |tops| && tops[a] == order[x];
    var b: nat :| b < |tops| && tops[b] == order[y];
    TopsIncrease(parents, |parents|, a, b);
    var p := RootBefore(forest, a, b);
    var q := RootAt(forest, b);
    SamePlace(order, p, x);
    SamePlace(order, q, y);
  }

  lemma {:induction false} TopsIncrease(parents: seq<Option<nat>>, n: nat, a: nat, b: nat)
    requires n <= |parents| && a < |TopsBelow(parents, n)| && b < |TopsBelow(parents, n)|
    requires TopsBelow(parents, n)[a] < TopsBelow(parents, n)[b]
    ensures a < b
  {
    TopsHaveNoParent(parents, n, b);
    if a < |TopsBelow(parents, n - 1)| && b < |TopsBelow(parents, n - 1)| {
      TopsIncrease(parents, n - 1, a, b);
    }
  }

  /** Where the root of tree `b` stands. */
  lemma RootAt(forest: seq<Tree>, b: nat) returns (q: nat)
    requires b < |forest|
    ensures q == |PreorderAll(forest[..b])| < |PreorderAll(forest)|
    ensures PreorderAll(forest)[q] == forest[b].index
  {
    q := |PreorderAll(forest[..b])|;
    assert forest == forest[..b] + forest[b..];
    PreorderAllAppend(forest[..b], forest[b..]);
    assert PreorderAll(forest[b..])[0] == forest[b].index;
  }

  lemma RootBefore(forest: seq<Tree>, a: nat, b: nat) returns (p: nat)
    requires a < b < |forest|
    ensures p < |PreorderAll(forest[..b])| <= |PreorderAll(forest)| && PreorderAll(forest)[p] == forest[a].index
  {
    assert forest == forest[..b] + forest[b..];
    PreorderAllAppend(forest[..b], forest[b..]);
    p := RootAt(forest[..b], a);
  }
}
