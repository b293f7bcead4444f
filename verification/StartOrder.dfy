/** Executors by who started whom: an explicit stack walks declarations that
    may name anyone, themselves in a circle included. */
module StartOrder {
  import opened Collections
  import opened StartRecursion

  /** Who started whom, below one executor. */
  datatype Tree = Node(index: nat, children: seq<Tree>)

  /** The tree holds exactly the children each of its executors has, in order. */
  ghost predicate Faithful(parents: seq<Option<nat>>, t: Tree) {
    && t.index < |parents|
    && |t.children| == |ChildrenOf(parents, t.index)|
    && forall k :: 0 <= k < |t.children| ==>
         t.children[k].index == ChildrenOf(parents, t.index)[k] && Faithful(parents, t.children[k])
  }

  /** Parent first, then each child's subtree. */
  function Preorder(t: Tree): (order: seq<nat>) {
    [t.index] + PreorderAll(t.children)
  }

  function PreorderAll(ts: seq<Tree>): (order: seq<nat>) {
    if ts == [] then [] else Preorder(ts[0]) + PreorderAll(ts[1..])
  }

  ghost predicate IsForest(parents: seq<Option<nat>>, forest: seq<Tree>, n: nat)
    requires n <= |parents|
  {
    && |forest| == |TopsBelow(parents, n)|
    && forall k :: 0 <= k < |forest| ==>
         forest[k].index == TopsBelow(parents, n)[k] && Faithful(parents, forest[k])
  }

  /** The executor at place `k` comes behind its parent. */
  ghost predicate Started(parents: seq<Option<nat>>, order: seq<nat>, k: nat)
    requires k < |order|
  {
    order[k] < |parents| && parents[order[k]].Some? && parents[order[k]].value in order[..k]
  }

  /** The executor at place `k` is the earliest one left. */
  ghost predicate EarliestLeft(order: seq<nat>, k: nat)
    requires k < |order|
  {
    forall i: nat :: i < order[k] ==> i in order[..k]
  }

  /** From place `n` on, an executor comes behind its parent or is the earliest left. */
  ghost predicate EnteredEarly(parents: seq<Option<nat>>, order: seq<nat>, n: nat) {
    forall k :: n <= k < |order| ==> Started(parents, order, k) || EarliestLeft(order, k)
  }

  /** `order` lists every executor once, as the recursion does: first the
      preorder of everything that hangs from a top-level executor, then each
      circle of declarations from its earliest member. */
  ghost predicate IsStartOrder(parents: seq<Option<nat>>, order: seq<nat>) {
    && |order| == |parents| && Distinct(order)
    && (forall k :: 0 <= k < |order| ==> order[k] < |parents|)
    && order == RecursiveOrder(parents)
    && exists forest :: IsForest(parents, forest, |parents|) && PreorderAll(forest) <= order
         && EnteredEarly(parents, order, |PreorderAll(forest)|)
  }

  // ----- Every top-level executor has a tree

  /** `path` leads down from a top-level executor, each the parent of the next. */
  ghost predicate IsPath(parents: seq<Option<nat>>, path: seq<nat>) {
    && path != []
    && (forall k :: 0 <= k < |path| ==> path[k] < |parents|)
    && parents[path[0]].None?
    && forall k :: 0 < k < |path| ==> parents[path[k]] == Some(path[k - 1])
  }

  lemma {:induction false} PathsDoNotMeet(parents: seq<Option<nat>>, path: seq<nat>, a: nat, b: nat)
    requires IsPath(parents, path) && a < b < |path|
    ensures path[a] != path[b]
  {
    assert parents[path[b]] == Some(path[b - 1]);
    if a > 0 {
      assert parents[path[a]] == Some(path[a - 1]);
      PathsDoNotMeet(parents, path, a - 1, b - 1);
    }
  }

  lemma PathsAreShort(parents: seq<Option<nat>>, path: seq<nat>)
    requires IsPath(parents, path)
    ensures |path| <= |parents|
  {
    forall a, b | 0 <= a < b < |path| ensures path[a] != path[b] {
      PathsDoNotMeet(parents, path, a, b);
    }
    DistinctCount(path);
    Fewer(Elements(path), Below(|parents|));
  }

  /** The tree below the end of a path from the top. */
  lemma {:induction false} TreeBelow(parents: seq<Option<nat>>, path: seq<nat>) returns (t: Tree)
    requires IsPath(parents, path)
    ensures t.index == path[|path| - 1] && Faithful(parents, t)
    decreases |parents| - |path|, 1, 0
  {
    PathsAreShort(parents, path);
    var i := path[|path| - 1];
    var children := TreesBelow(parents, path, |ChildrenOf(parents, i)|);
    t := Node(i, children);
  }

  /** The trees of the first `n` children of a path's end. */
  lemma {:induction false} TreesBelow(parents: seq<Option<nat>>, path: seq<nat>, n: nat) returns (ts: seq<Tree>)
    requires IsPath(parents, path) && n <= |ChildrenOf(parents, path[|path| - 1])|
    ensures |ts| == n
    ensures forall k :: 0 <= k < n ==>
              ts[k].index == ChildrenOf(parents, path[|path| - 1])[k] && Faithful(parents, ts[k])
    decreases |parents| - |path|, 0, n
  {
    if n == 0 {
      ts := [];
    } else {
      var before := TreesBelow(parents, path, n - 1);
      var child := ChildrenOf(parents, path[|path| - 1])[n - 1];
      assert child in ChildrenOf(parents, path[|path| - 1]);
      PathsAreShort(parents, path + [child]);
      var t := TreeBelow(parents, path + [child]);
      ts := before + [t];
    }
  }

  lemma {:induction false} ForestOfTops(parents: seq<Option<nat>>, n: nat) returns (forest: seq<Tree>)
    requires n <= |parents|
    ensures IsForest(parents, forest, n)
  {
    if n == 0 {
      forest := [];
    } else {
      forest := ForestOfTops(parents, n - 1);
      if parents[n - 1].None? {
        var t := TreeBelow(parents, [n - 1]);
        forest := forest + [t];
      }
    }
  }

  // ----- The walk

  /** `placed` flags exactly the executors `order` lists, each once. */
  ghost predicate Lists(parents: seq<Option<nat>>, placed: seq<bool>, order: seq<nat>) {
    && |placed| == |parents|
    && Distinct(order)
    && (forall k :: 0 <= k < |order| ==> order[k] < |parents|)
    && forall i :: 0 <= i < |parents| ==> (placed[i] <==> i in order)
  }

  lemma ListsAreShort(parents: seq<Option<nat>>, placed: seq<bool>, order: seq<nat>)
    requires Lists(parents, placed, order)
    ensures |order| <= |parents|
    ensures (forall i :: 0 <= i < |parents| ==> placed[i]) ==> |order| == |parents|
  {
    DistinctCount(order);
    Fewer(Elements(order), Below(|parents|));
    if forall i :: 0 <= i < |parents| ==> placed[i] {
      Fewer(Below(|parents|), Elements(order));
    }
  }

  /** Only executors whose parent is placed, if they have one, are placed. */
  ghost predicate ParentsFirst(parents: seq<Option<nat>>, placed: seq<bool>) {
    |placed| == |parents| && forall i :: 0 <= i < |parents| && placed[i] && parents[i].Some? ==>
      parents[i].value < |parents| && placed[parents[i].value]
  }

  lemma {:induction false} AllChildrenOpen(parents: seq<Option<nat>>, placed: seq<bool>, p: nat, n: nat)
    requires n <= |parents| == |placed|
    requires forall i :: 0 <= i < n && parents[i] == Some(p) ==> !placed[i]
    ensures OpenChildren(parents, placed, p, n) == ChildrenBelow(parents, p, n)
  {
    if n > 0 {
      AllChildrenOpen(parents, placed, p, n - 1);
    }
  }

  lemma {:induction false} ChildrenIncrease(parents: seq<Option<nat>>, p: nat, n: nat)
    requires n <= |parents|
    ensures Increasing(ChildrenBelow(parents, p, n))
  {
    if n > 0 {
      ChildrenIncrease(parents, p, n - 1);
      var before := ChildrenBelow(parents, p, n - 1);
      assert forall k :: 0 <= k < |before| ==> before[k] in before;
    }
  }

  /** The trees of a stack, its top first. */
  ghost function FromTop(trees: seq<Tree>): seq<nat> {
    if trees == [] then [] else Preorder(trees[|trees| - 1]) + FromTop(trees[..|trees| - 1])
  }

  lemma PushedTree(trees: seq<Tree>, t: Tree)
    ensures FromTop(trees + [t]) == Preorder(t) + FromTop(trees)
  {
    assert (trees + [t])[..|trees|] == trees;
  }

  lemma {:induction false} PushedTrees(trees: seq<Tree>, more: seq<Tree>)
    ensures FromTop(trees + Reversed(more)) == PreorderAll(more) + FromTop(trees)
  {
    if more == [] {
      assert trees + Reversed(more) == trees;
    } else {
      PushedTrees(trees, more[1..]);
      ReversedLast(trees, more);
      PushedTree(trees + Reversed(more[1..]), more[0]);
      Regrouped(Preorder(more[0]), PreorderAll(more[1..]), FromTop(trees));
    }
  }

  /** Below a placed executor, or a top-level one, and not placed itself. */
  ghost predicate Due(parents: seq<Option<nat>>, placed: seq<bool>, i: nat) {
    && i < |parents| == |placed| && !placed[i]
    && (parents[i].Some? ==> parents[i].value < |parents| && placed[parents[i].value])
  }

  /** On the way down from the top, the stack holds distinct executors that
      are due, with the trees still to come. */
  ghost predicate Descends(parents: seq<Option<nat>>, placed: seq<bool>, stack: seq<nat>, trees: seq<Tree>) {
    && ParentsFirst(parents, placed)
    && Distinct(stack)
    && |trees| == |stack|
    && (forall k :: 0 <= k < |stack| ==> Due(parents, placed, stack[k]))
    && (forall k :: 0 <= k < |stack| ==> trees[k].index == stack[k] && Faithful(parents, trees[k]))
  }

  /** The children of `next` are open once it is placed, and become due. */
  lemma ChildrenBecomeDue(parents: seq<Option<nat>>, placed: seq<bool>, next: nat)
    requires ParentsFirst(parents, placed) && Due(parents, placed, next)
    requires forall i :: 0 <= i < |parents| ==> parents[i] != Some(i)
    ensures OpenChildren(parents, placed[next := true], next, |parents|) == ChildrenOf(parents, next)
    ensures Increasing(ChildrenOf(parents, next))
    ensures forall c :: c in ChildrenOf(parents, next) ==> Due(parents, placed[next := true], c)
    ensures ParentsFirst(parents, placed[next := true])
  {
    AllChildrenOpen(parents, placed[next := true], next, |parents|);
    ChildrenIncrease(parents, next, |parents|);
  }

  lemma RestIsDue(parents: seq<Option<nat>>, placed: seq<bool>, stack: seq<nat>, children: seq<nat>, next: nat)
    requires stack != [] && next == stack[|stack| - 1] && Distinct(stack) && Increasing(children)
    requires next < |parents| == |placed|
    requires forall k :: 0 <= k < |stack| ==> Due(parents, placed, stack[k])
    requires forall c :: c in children ==>
      c < |parents| && parents[c] == Some(next) && Due(parents, placed[next := true], c)
    ensures Distinct(Rest(stack, children))
    ensures forall k :: 0 <= k < |Rest(stack, children)| ==>
      Due(parents, placed[next := true], Rest(stack, children)[k])
  {
    var rest := Rest(stack, children);
    forall k | 0 <= k < |rest| ensures Due(parents, placed[next := true], rest[k]) {
      if k < |stack| - 1 {
        assert Due(parents, placed, stack[k]) && stack[k] != next;
      } else {
        assert rest[k] in children;
      }
    }
    forall k, l | 0 <= k < l < |rest| ensures rest[k] != rest[l] {
      if k < |stack| - 1 <= l {
        assert rest[l] in children && Due(parents, placed, stack[k]) && Due(parents, placed, next);
      }
    }
  }

  lemma RestHasTrees(parents: seq<Option<nat>>, stack: seq<nat>, trees: seq<Tree>)
    requires stack != [] && |trees| == |stack|
    requires forall k :: 0 <= k < |stack| ==> trees[k].index == stack[k] && Faithful(parents, trees[k])
    ensures
      var rest := Rest(stack, ChildrenOf(parents, stack[|stack| - 1]));
      var left := trees[..|trees| - 1] + Reversed(trees[|trees| - 1].children);
      && |left| == |rest|
      && (forall k :: 0 <= k < |rest| ==> left[k].index == rest[k] && Faithful(parents, left[k]))
      && [stack[|stack| - 1]] + FromTop(left) == FromTop(trees)
  {
    var tree := trees[|trees| - 1];
    assert Faithful(parents, tree);
    PushedTrees(trees[..|trees| - 1], tree.children);
    assert FromTop(trees) == Preorder(tree) + FromTop(trees[..|trees| - 1]);
  }

  /** One executor placed and its children pushed, on the way down. */
  lemma DescendsNext(parents: seq<Option<nat>>, placed: seq<bool>, stack: seq<nat>, trees: seq<Tree>)
    requires Descends(parents, placed, stack, trees) && stack != []
    requires forall i :: 0 <= i < |parents| ==> parents[i] != Some(i)
    ensures
      var next, tree := stack[|stack| - 1], trees[|trees| - 1];
      var after := placed[next := true];
      var rest := Rest(stack, OpenChildren(parents, after, next, |parents|));
      var left := trees[..|trees| - 1] + Reversed(tree.children);
      && Descends(parents, after, rest, left)
      && [next] + FromTop(left) == FromTop(trees)
  {
    var next := stack[|stack| - 1];
    assert Due(parents, placed, next);
    ChildrenBecomeDue(parents, placed, next);
    RestIsDue(parents, placed, stack, ChildrenOf(parents, next), next);
    RestHasTrees(parents, stack, trees);
  }

  lemma ListsNext(parents: seq<Option<nat>>, placed: seq<bool>, order: seq<nat>, next: nat)
    requires Lists(parents, placed, order) && next < |parents| && !placed[next]
    ensures Lists(parents, placed[next := true], order + [next])
    ensures |order| < |parents|
  {
    ListsAreShort(parents, placed[next := true], order + [next]);
  }

  /** What a walk from `index` has done so far. */
  ghost predicate Walked(parents: seq<Option<nat>>, placed0: seq<bool>, order0: seq<nat>, placed: seq<bool>,
                         order: seq<nat>, stack: seq<nat>, index: nat)
  {
    && |placed0| == |parents| && index < |parents|
    && Lists(parents, placed, order) && order0 <= order
    && (forall k :: 0 <= k < |stack| ==> stack[k] < |parents|)
    && (stack == [index] || placed[index])
    && (forall i :: 0 <= i < |parents| && placed0[i] ==> placed[i])
  }

  lemma WalkedNext(parents: seq<Option<nat>>, placed0: seq<bool>, order0: seq<nat>, placed: seq<bool>,
                   order: seq<nat>, stack: seq<nat>, index: nat, children: seq<nat>)
    requires Walked(parents, placed0, order0, placed, order, stack, index)
    requires stack != [] && !placed[stack[|stack| - 1]]
    requires forall k :: 0 <= k < |children| ==> children[k] < |parents|
    ensures
      var next := stack[|stack| - 1];
      && Walked(parents, placed0, order0, placed[next := true], order + [next], Rest(stack, children), index)
      && |order| < |parents|
  {
    var next := stack[|stack| - 1];
    ListsNext(parents, placed, order, next);
    var rest := Rest(stack, children);
    forall k | 0 <= k < |rest| ensures rest[k] < |parents| {
    }
  }

  /** What a walk from `index` adds comes behind its parent, `index` aside. */
  ghost predicate Led(parents: seq<Option<nat>>, order0: seq<nat>, order: seq<nat>, stack: seq<nat>, index: nat) {
    && order0 <= order
    && (order == order0 ==> stack == [index])
    && (forall k :: 0 <= k < |stack| ==> IsLed(parents, order, stack[k]) || (order == order0 && stack[k] == index))
    && (forall k :: |order0| <= k < |order| ==> Started(parents, order, k) || (k == |order0| && order[k] == index))
  }

  ghost predicate IsLed(parents: seq<Option<nat>>, order: seq<nat>, i: nat) {
    i < |parents| && parents[i].Some? && parents[i].value in order
  }

  lemma LedNext(parents: seq<Option<nat>>, order0: seq<nat>, order: seq<nat>, stack: seq<nat>, index: nat,
                children: seq<nat>)
    requires Led(parents, order0, order, stack, index) && stack != []
    requires forall c :: c in children ==> c < |parents| && parents[c] == Some(stack[|stack| - 1])
    ensures Led(parents, order0, order + [stack[|stack| - 1]], Rest(stack, children), index)
  {
    var next := stack[|stack| - 1];
    var more, rest := order + [next], Rest(stack, children);
    forall k | 0 <= k < |rest| ensures IsLed(parents, more, rest[k]) {
      if k < |stack| - 1 {
        assert IsLed(parents, order, stack[k]);
      } else {
        assert rest[k] in children;
      }
    }
    forall k | |order0| <= k < |more| ensures Started(parents, more, k) || (k == |order0| && more[k] == index) {
      if k < |order| {
        assert more[..k] == order[..k];
      } else {
        assert more[..k] == order;
      }
    }
  }

  lemma OpenChildrenAreWithin(parents: seq<Option<nat>>, placed: seq<bool>, p: nat)
    requires |parents| == |placed|
    ensures forall k :: 0 <= k < |OpenChildren(parents, placed, p, |parents|)| ==>
              OpenChildren(parents, placed, p, |parents|)[k] < |parents|
    ensures forall c :: c in OpenChildren(parents, placed, p, |parents|) ==>
              c < |parents| && parents[c] == Some(p)
  {
    var children := OpenChildren(parents, placed, p, |parents|);
    forall k | 0 <= k < |children| ensures children[k] < |parents| {
      assert children[k] in children;
    }
  }

  /** What a walk with a tree below it still owes. */
  ghost predicate Owes(parents: seq<Option<nat>>, placed: seq<bool>, order: seq<nat>, stack: seq<nat>,
                       trees: seq<Tree>, goal: seq<nat>)
  {
    Descends(parents, placed, stack, trees) && order + FromTop(trees) == goal
  }

  lemma OwesOne(parents: seq<Option<nat>>, placed: seq<bool>, order: seq<nat>, index: nat, t: Tree)
    requires Descends(parents, placed, [index], [t])
    ensures Owes(parents, placed, order, [index], [t], order + Preorder(t))
  {
    assert [t][..0] == [];
    assert FromTop([t]) == Preorder(t) + FromTop([]);
  }

  lemma OwesNothing(parents: seq<Option<nat>>, placed: seq<bool>, order: seq<nat>, trees: seq<Tree>, goal: seq<nat>)
    requires Owes(parents, placed, order, [], trees, goal)
    ensures ParentsFirst(parents, placed) && order == goal
  {
    assert trees == [] && FromTop(trees) == [];
  }

  lemma OwesNext(parents: seq<Option<nat>>, placed: seq<bool>, order: seq<nat>, stack: seq<nat>, trees: seq<Tree>,
                 goal: seq<nat>) returns (left: seq<Tree>)
    requires Owes(parents, placed, order, stack, trees, goal) && stack != []
    requires forall i :: 0 <= i < |parents| ==> parents[i] != Some(i)
    ensures stack[|stack| - 1] < |parents| == |placed|
    ensures
      var next := stack[|stack| - 1];
      Owes(parents, placed[next := true], order + [next],
           Rest(stack, OpenChildren(parents, placed[next := true], next, |parents|)), left, goal)
  {
    var next := stack[|stack| - 1];
    assert Due(parents, placed, next);
    DescendsNext(parents, placed, stack, trees);
    left := trees[..|trees| - 1] + Reversed(trees[|trees| - 1].children);
    assert order + [next] + FromTop(left) == order + FromTop(trees);
  }

  /** What is left on the stack leads where the recursion from `index` does. */
  ghost predicate Recurs(parents: seq<Option<nat>>, order0: seq<nat>, index: nat, order: seq<nat>, stack: seq<nat>) {
    && Part(parents, order0) && Part(parents, order) && index < |parents|
    && Within(parents, stack) && Within(parents, Reversed(stack))
    && Visited(parents, order, Reversed(stack)) == Visited(parents, order0, [index])
  }

  lemma RecursFromStart(parents: seq<Option<nat>>, order0: seq<nat>, index: nat)
    requires Part(parents, order0) && index < |parents|
    ensures Recurs(parents, order0, index, order0, [index])
  {
    assert Reversed([index]) == [index];
  }

  lemma RecursDropping(parents: seq<Option<nat>>, order0: seq<nat>, index: nat, order: seq<nat>, stack: seq<nat>)
    requires Recurs(parents, order0, index, order, stack) && stack != [] && stack[|stack| - 1] in order
    ensures Recurs(parents, order0, index, order, stack[..|stack| - 1])
  {
    DroppingVisits(parents, order, stack);
  }

  lemma RecursPushing(parents: seq<Option<nat>>, order0: seq<nat>, index: nat, placed: seq<bool>, order: seq<nat>,
                      stack: seq<nat>)
    requires Recurs(parents, order0, index, order, stack) && stack != [] && stack[|stack| - 1] !in order
    requires Flags(parents, placed, order + [stack[|stack| - 1]])
    ensures var next := stack[|stack| - 1];
      Recurs(parents, order0, index, order + [next], Rest(stack, OpenChildren(parents, placed, next, |parents|)))
  {
    PushingVisits(parents, placed, order, stack);
    RestIsWithin(parents, placed, stack);
  }

  lemma RestIsWithin(parents: seq<Option<nat>>, placed: seq<bool>, stack: seq<nat>)
    requires Within(parents, stack) && stack != [] && |placed| == |parents|
    ensures Within(parents, Rest(stack, OpenChildren(parents, placed, stack[|stack| - 1], |parents|)))
  {
    var children := OpenChildren(parents, placed, stack[|stack| - 1], |parents|);
    var rest := Rest(stack, children);
    forall k | 0 <= k < |rest| ensures rest[k] < |parents| {
      if k >= |stack| - 1 {
        assert rest[k] in children;
      }
    }
  }

  lemma RecursToEnd(parents: seq<Option<nat>>, order0: seq<nat>, index: nat, order: seq<nat>)
    requires Recurs(parents, order0, index, order, [])
    ensures order == Visited(parents, order0, [index])
  {
    assert Reversed<nat>([]) == [];
  }

  lemma ListedIsPart(parents: seq<Option<nat>>, placed: seq<bool>, order: seq<nat>)
    requires Lists(parents, placed, order)
    ensures Part(parents, order) && Flags(parents, placed, order)
  {
  }

  /** Walks down from executor `index`, as the recursion from it does. With a
      tree below it, what the walk adds is the tree's preorder. */
  method Walk(parents: seq<Option<nat>>, index: nat, placed0: seq<bool>, order0: seq<nat>, ghost down: Option<Tree>)
    returns (placed: seq<bool>, order: seq<nat>)
    requires index < |parents|
    requires forall i :: 0 <= i < |parents| ==> parents[i] != Some(i)
    requires Lists(parents, placed0, order0) && !placed0[index]
    requires down.Some? ==> Descends(parents, placed0, [index], [down.value])
    ensures Walked(parents, placed0, order0, placed, order, [], index) && placed[index]
    ensures Led(parents, order0, order, [], index)
    ensures Part(parents, order0) && order == Visited(parents, order0, [index])
    ensures down.Some? ==> ParentsFirst(parents, placed) && order == order0 + Preorder(down.value)
  {
    placed, order := placed0, order0;
    var stack: seq<nat> := [index];
    ghost var goal := if down.Some? then order0 + Preorder(down.value) else [];
    ghost var trees: seq<Tree> := if down.Some? then [down.value] else [];
    if down.Some? {
      OwesOne(parents, placed, order, index, down.value);
    }
    ListedIsPart(parents, placed, order);
    RecursFromStart(parents, order0, index);
    while stack != []
      invariant Walked(parents, placed0, order0, placed, order, stack, index)
      invariant Led(parents, order0, order, stack, index)
      invariant Recurs(parents, order0, index, order, stack)
      invariant down.Some? ==> Owes(parents, placed, order, stack, trees, goal)
      decreases |parents| - |order|, |stack|
    {
      var next := stack[|stack| - 1];
      if placed[next] {
        assert down.Some? ==> Due(parents, placed, next);
        RecursDropping(parents, order0, index, order, stack);
        stack := stack[..|stack| - 1];
        continue;
      }
      if down.Some? {
        trees := OwesNext(parents, placed, order, stack, trees, goal);
      }
      OpenChildrenAreWithin(parents, placed[next := true], next);
      WalkedNext(parents, placed0, order0, placed, order, stack, index,
                 OpenChildren(parents, placed[next := true], next, |parents|));
      LedNext(parents, order0, order, stack, index, OpenChildren(parents, placed[next := true], next, |parents|));
      placed := placed[next := true];
      ListedIsPart(parents, placed, order + [next]);
      RecursPushing(parents, order0, index, placed, order, stack);
      order := order + [next];
      stack := Rest(stack, OpenChildren(parents, placed, next, |parents|));
    }
    RecursToEnd(parents, order0, index, order);
    if down.Some? {
      OwesNothing(parents, placed, order, trees, goal);
    }
  }

  // ----- Both passes

  lemma {:induction false} PreorderAllAppend(ts: seq<Tree>, us: seq<Tree>)
    ensures PreorderAll(ts + us) == PreorderAll(ts) + PreorderAll(us)
  {
    if ts == [] {
      assert ts + us == us;
    } else {
      assert (ts + us)[1..] == ts[1..] + us;
      PreorderAllAppend(ts[1..], us);
    }
  }

  /** Below its root, a tree holds no top-level executor. */
  lemma {:induction false} OnlyRootsAreTop(parents: seq<Option<nat>>, ts: seq<Tree>, x: nat)
    requires forall k :: 0 <= k < |ts| ==> Faithful(parents, ts[k]) && parents[ts[k].index].Some?
    requires x in PreorderAll(ts)
    ensures x < |parents| && parents[x].Some?
  {
    var t := ts[0];
    assert x in Preorder(t) || x in PreorderAll(ts[1..]);
    if x in PreorderAll(ts[1..]) {
      OnlyRootsAreTop(parents, ts[1..], x);
    } else if x != t.index {
      assert x in PreorderAll(t.children);
      ChildrenHaveParents(parents, t);
      OnlyRootsAreTop(parents, t.children, x);
    }
  }

  lemma ChildrenHaveParents(parents: seq<Option<nat>>, t: Tree)
    requires Faithful(parents, t)
    ensures forall k :: 0 <= k < |t.children| ==>
              Faithful(parents, t.children[k]) && parents[t.children[k].index] == Some(t.index)
  {
    forall k | 0 <= k < |t.children| ensures parents[t.children[k].index] == Some(t.index) {
      assert ChildrenOf(parents, t.index)[k] in ChildrenOf(parents, t.index);
    }
  }

  /** What the first pass has done once every executor below `i` is visited. */
  ghost predicate TopsDone(parents: seq<Option<nat>>, placed: seq<bool>, order: seq<nat>, forest: seq<Tree>, i: nat) {
    && i <= |parents|
    && Lists(parents, placed, order)
    && ParentsFirst(parents, placed)
    && IsForest(parents, forest, |parents|)
    && |TopsBelow(parents, i)| <= |forest|
    && order == PreorderAll(forest[..|TopsBelow(parents, i)|])
    && forall j :: i <= j < |parents| && parents[j].None? ==> !placed[j]
  }

  lemma {:induction false} TopsGrow(parents: seq<Option<nat>>, i: nat, n: nat)
    requires i <= n <= |parents|
    ensures TopsBelow(parents, i) <= TopsBelow(parents, n)
  {
    if i < n {
      TopsGrow(parents, i, n - 1);
    }
  }

  /** The tree of the top-level executor `i`. */
  lemma TreeOfTop(parents: seq<Option<nat>>, forest: seq<Tree>, i: nat)
    requires IsForest(parents, forest, |parents|) && i < |parents| && parents[i].None?
    ensures var k := |TopsBelow(parents, i)|;
      && |TopsBelow(parents, i + 1)| == k + 1 <= |forest|
      && forest[k].index == i && Faithful(parents, forest[k])
  {
    TopsGrow(parents, i + 1, |parents|);
  }

  /** The first pass after walking down from the top-level executor `i`. */
  lemma TopDone(parents: seq<Option<nat>>, placed: seq<bool>, order: seq<nat>, forest: seq<Tree>, i: nat,
                after: seq<bool>, more: seq<nat>)
    requires TopsDone(parents, placed, order, forest, i) && i < |parents| && parents[i].None?
    requires |TopsBelow(parents, i)| < |forest|
    requires Lists(parents, after, more) && ParentsFirst(parents, after)
    requires more == order + Preorder(forest[|TopsBelow(parents, i)|])
    ensures TopsDone(parents, after, more, forest, i + 1)
  {
    var k := |TopsBelow(parents, i)|;
    TreeOfTop(parents, forest, i);
    OneMoreTree(forest, k);
    LaterTopsLeft(parents, placed, order, i, after, more, forest[k]);
  }

  lemma LaterTopsLeft(parents: seq<Option<nat>>, placed: seq<bool>, order: seq<nat>, i: nat, after: seq<bool>,
                      more: seq<nat>, t: Tree)
    requires Lists(parents, placed, order) && Lists(parents, after, more) && more == order + Preorder(t)
    requires Faithful(parents, t) && t.index == i
    requires forall j :: i <= j < |parents| && parents[j].None? ==> !placed[j]
    ensures forall j :: i + 1 <= j < |parents| && parents[j].None? ==> !after[j]
  {
    forall j | i + 1 <= j < |parents| && parents[j].None? ensures !after[j] {
      if j in Preorder(t) {
        OnlyItsRootIsTop(parents, t, j);
      }
      assert !placed[j];
    }
  }

  lemma OneMoreTree(forest: seq<Tree>, k: nat)
    requires k < |forest|
    ensures PreorderAll(forest[..k + 1]) == PreorderAll(forest[..k]) + Preorder(forest[k])
  {
    var t := forest[k];
    assert forest[..k + 1] == forest[..k] + [t];
    PreorderAllAppend(forest[..k], [t]);
    assert [t][1..] == [] && PreorderAll([t]) == Preorder(t) + PreorderAll([]);
  }

  lemma OnlyItsRootIsTop(parents: seq<Option<nat>>, t: Tree, j: nat)
    requires Faithful(parents, t) && j < |parents| && parents[j].None? && j in Preorder(t)
    ensures j == t.index
  {
    ChildrenHaveParents(parents, t);
    if j in PreorderAll(t.children) {
      OnlyRootsAreTop(parents, t.children, j);
    }
  }

  lemma TopIsDue(parents: seq<Option<nat>>, placed: seq<bool>, order: seq<nat>, forest: seq<Tree>, i: nat)
    requires TopsDone(parents, placed, order, forest, i) && i < |parents| && parents[i].None?
    ensures |TopsBelow(parents, i)| < |forest| && !placed[i]
    ensures Descends(parents, placed, [i], [forest[|TopsBelow(parents, i)|]])
  {
    TreeOfTop(parents, forest, i);
    assert Due(parents, placed, i);
  }

  /** One executor of the first pass. */
  method VisitTop(parents: seq<Option<nat>>, ghost forest: seq<Tree>, placed0: seq<bool>, order0: seq<nat>, index: nat)
    returns (placed: seq<bool>, order: seq<nat>)
    requires forall i :: 0 <= i < |parents| ==> parents[i] != Some(i)
    requires index < |parents|
    requires TopsDone(parents, placed0, order0, forest, index) && VisitsTops(parents, order0, index)
    ensures TopsDone(parents, placed, order, forest, index + 1) && VisitsTops(parents, order, index + 1)
  {
    placed, order := placed0, order0;
    if placed[index] || parents[index].Some? {
      TopSkipped(parents, placed, order, forest, index);
      assert TopsBelow(parents, index + 1) == TopsBelow(parents, index);
    } else {
      TopIsDue(parents, placed, order, forest, index);
      placed, order := Walk(parents, index, placed, order, Some(forest[|TopsBelow(parents, index)|]));
      TopWalked(parents, placed0, order0, forest, index, placed, order);
      OneMoreTop(parents, order0, order, index);
    }
  }

  lemma NoTopsYet(parents: seq<Option<nat>>, placed: seq<bool>, forest: seq<Tree>)
    requires |placed| == |parents| && forall i :: 0 <= i < |placed| ==> !placed[i]
    requires IsForest(parents, forest, |parents|)
    ensures TopsDone(parents, placed, [], forest, 0) && VisitsTops(parents, [], 0)
  {
    assert forest[..0] == [];
  }

  /** The top-level executors first, each with everything below it. */
  method VisitTops(parents: seq<Option<nat>>, ghost forest: seq<Tree>) returns (placed: seq<bool>, order: seq<nat>)
    requires forall i :: 0 <= i < |parents| ==> parents[i] != Some(i)
    requires IsForest(parents, forest, |parents|)
    ensures TopsDone(parents, placed, order, forest, |parents|)
    ensures VisitsTops(parents, order, |parents|)
  {
    placed, order := seq(|parents|, _ => false), [];
    NoTopsYet(parents, placed, forest);
    for index := 0 to |parents|
      invariant TopsDone(parents, placed, order, forest, index) && VisitsTops(parents, order, index)
    {
      placed, order := VisitTop(parents, forest, placed, order, index);
    }
  }

  /** The recursion over the top-level executors below `i`. */
  ghost predicate VisitsTops(parents: seq<Option<nat>>, order: seq<nat>, i: nat) {
    && i <= |parents| && Part(parents, []) && Within(parents, TopsBelow(parents, i))
    && order == Visited(parents, [], TopsBelow(parents, i))
  }

  lemma OneMoreTop(parents: seq<Option<nat>>, before: seq<nat>, order: seq<nat>, i: nat)
    requires VisitsTops(parents, before, i) && i < |parents| && parents[i].None?
    requires Part(parents, before) && order == Visited(parents, before, [i])
    ensures VisitsTops(parents, order, i + 1)
  {
    VisitedInTurn(parents, [], TopsBelow(parents, i), [i]);
  }

  /** The recursion over all executors below `i`, behind `tops`. */
  ghost predicate VisitsAll(parents: seq<Option<nat>>, tops: seq<nat>, order: seq<nat>, i: nat) {
    && i <= |parents| && Part(parents, tops) && Within(parents, Indices(i))
    && order == Visited(parents, tops, Indices(i))
  }

  lemma OneMoreVisit(parents: seq<Option<nat>>, tops: seq<nat>, before: seq<nat>, order: seq<nat>, i: nat)
    requires VisitsAll(parents, tops, before, i) && i < |parents| && Part(parents, before)
    requires if i in before then order == before else order == Visited(parents, before, [i])
    ensures VisitsAll(parents, tops, order, i + 1)
  {
    assert Indices(i + 1) == Indices(i) + [i];
    VisitedInTurn(parents, tops, Indices(i), [i]);
    if i in before {
      VisitedAlready(parents, before, i);
    }
  }

  lemma TopSkipped(parents: seq<Option<nat>>, placed: seq<bool>, order: seq<nat>, forest: seq<Tree>, i: nat)
    requires TopsDone(parents, placed, order, forest, i) && i < |parents|
    requires placed[i] || parents[i].Some?
    ensures TopsDone(parents, placed, order, forest, i + 1)
  {
  }

  lemma TopWalked(parents: seq<Option<nat>>, placed: seq<bool>, order: seq<nat>, forest: seq<Tree>, i: nat,
                  after: seq<bool>, more: seq<nat>)
    requires TopsDone(parents, placed, order, forest, i) && i < |parents| && parents[i].None?
    requires |TopsBelow(parents, i)| < |forest|
    requires Walked(parents, placed, order, after, more, [], i) && ParentsFirst(parents, after)
    requires more == order + Preorder(forest[|TopsBelow(parents, i)|])
    ensures TopsDone(parents, after, more, forest, i + 1)
  {
    TopDone(parents, placed, order, forest, i, after, more);
  }

  lemma StillEnteredEarly(parents: seq<Option<nat>>, tops: seq<nat>, before: seq<nat>, order: seq<nat>, index: nat)
    requires |tops| <= |before| && EnteredEarly(parents, before, |tops|)
    requires Led(parents, before, order, [], index)
    requires forall i: nat :: i < index ==> i in before
    ensures EnteredEarly(parents, order, |tops|)
  {
    forall k | |tops| <= k < |order| ensures Started(parents, order, k) || EarliestLeft(order, k) {
      if k < |before| {
        assert order[..k] == before[..k];
        assert Started(parents, before, k) || EarliestLeft(before, k);
      } else if k == |before| {
        assert order[..k] == before;
      }
    }
  }

  /** What the second pass has done once every executor below `i` is visited. */
  ghost predicate LeftDone(parents: seq<Option<nat>>, tops: seq<nat>, placed: seq<bool>, order: seq<nat>, i: nat) {
    && Lists(parents, placed, order) && tops <= order && i <= |parents|
    && (forall k :: 0 <= k < i ==> placed[k])
    && EnteredEarly(parents, order, |tops|)
    && VisitsAll(parents, tops, order, i)
  }

  /** One executor of the second pass. */
  method VisitLeft(parents: seq<Option<nat>>, ghost tops: seq<nat>, placed0: seq<bool>, order0: seq<nat>, index: nat)
    returns (placed: seq<bool>, order: seq<nat>)
    requires forall i :: 0 <= i < |parents| ==> parents[i] != Some(i)
    requires index < |parents| && LeftDone(parents, tops, placed0, order0, index)
    ensures LeftDone(parents, tops, placed, order, index + 1)
  {
    placed, order := placed0, order0;
    ListedIsPart(parents, placed, order);
    if !placed[index] {
      placed, order := Walk(parents, index, placed, order, None);
      StillEnteredEarly(parents, tops, order0, order, index);
    }
    OneMoreVisit(parents, tops, order0, order, index);
  }

  lemma LeftAllDone(parents: seq<Option<nat>>, forest: seq<Tree>, tops: seq<nat>, placed: seq<bool>, order: seq<nat>)
    requires IsForest(parents, forest, |parents|) && tops == PreorderAll(forest)
    requires VisitsTops(parents, tops, |parents|) && LeftDone(parents, tops, placed, order, |parents|)
    ensures IsStartOrder(parents, order)
  {
    ListsAreShort(parents, placed, order);
    assert order == RecursiveOrder(parents);
  }

  /** Orders executors depth first by who started whom; a circle of
      declarations is entered at its earliest member. */
  method OrderByStart(parents: seq<Option<nat>>) returns (order: seq<nat>)
    requires forall i :: 0 <= i < |parents| ==> parents[i] != Some(i)
    ensures IsStartOrder(parents, order)
  {
    ghost var forest := ForestOfTops(parents, |parents|);
    var placed;
    placed, order := VisitTops(parents, forest);
    ghost var tops := order;
    assert tops == PreorderAll(forest) by { assert forest[..|forest|] == forest; }
    ListedIsPart(parents, placed, order);
    for index := 0 to |parents|
      invariant LeftDone(parents, tops, placed, order, index)
    {
      placed, order := VisitLeft(parents, tops, placed, order, index);
    }
    LeftAllDone(parents, forest, tops, placed, order);
  }

  // ----- Executors

  /** Its segments by number, the main line apart from the side ones. */
  datatype Executor = Executor(
    subagentId: Option<string>,
    parentSubagentId: Option<string>,
    main: seq<nat>,
    side: seq<nat>)

  function Named(subagent: string): Executor -> bool {
    (e: Executor) => e.subagentId == Some(subagent)
  }

  /** Executor `p` is the first declared as `subagent`. */
  ghost predicate IsFirstNamed(executors: seq<Executor>, subagent: Option<string>, p: nat) {
    && p < |executors| && subagent.Some? && executors[p].subagentId == subagent
    && forall k :: 0 <= k < p ==> executors[k].subagentId != subagent
  }

  /** The first executor that is the declared parent of `i`, unless it is `i`. */
  function ParentOf(executors: seq<Executor>, i: nat): (p: Option<nat>)
    requires i < |executors|
    ensures p.Some? ==> p.value != i && IsFirstNamed(executors, executors[i].parentSubagentId, p.value)
    ensures p.None? ==> executors[i].parentSubagentId.None? || IsFirstNamed(executors, executors[i].parentSubagentId, i)
                        || forall k :: 0 <= k < |executors| ==> executors[k].subagentId != executors[i].parentSubagentId
  {
    if executors[i].parentSubagentId.None? then None
    else
      match FirstPosition(executors, Named(executors[i].parentSubagentId.value))
      case Some(p) => if p == i then None else Some(p)
      case None => None
  }

  function ParentsOf(executors: seq<Executor>): (parents: seq<Option<nat>>)
    ensures |parents| == |executors| && forall i :: 0 <= i < |executors| ==> parents[i] == ParentOf(executors, i)
  {
    seq(|executors|, i requires 0 <= i < |executors| => ParentOf(executors, i))
  }

  /** `r` holds the members of `s` in `order`. */
  ghost predicate Ordered<T>(s: seq<T>, order: seq<nat>, r: seq<T>) {
    && |r| == |order| == |s|
    && forall k :: 0 <= k < |order| ==> order[k] < |s| && r[k] == s[order[k]]
  }

  /** The executors `order` names, each taken from its slot. */
  method TakeSlots(executors: seq<Executor>, order: seq<nat>) returns (r: seq<Executor>)
    requires |order| == |executors| && Distinct(order)
    requires forall k :: 0 <= k < |order| ==> order[k] < |executors|
    ensures Ordered(executors, order, r)
  {
    var slots := seq(|executors|, i requires 0 <= i < |executors| => Some(executors[i]));
    r := [];
    for k := 0 to |order|
      invariant |slots| == |executors|
      invariant forall l :: k <= l < |order| ==> slots[order[l]] == Some(executors[order[l]])
      invariant |r| == k && forall l :: 0 <= l < k ==> r[l] == executors[order[l]]
    {
      match slots[order[k]] {
        case Some(executor) =>
          slots := slots[order[k] := None];
          r := r + [executor];
        case None =>
      }
    }
  }

  /** Orders executors by who started whom. */
  method StartedFirst(executors: seq<Executor>) returns (r: seq<Executor>)
    ensures exists order :: IsStartOrder(ParentsOf(executors), order) && Ordered(executors, order, r)
  {
    var order := OrderByStart(ParentsOf(executors));
    r := TakeSlots(executors, order);
  }

  lemma StartOrderIsAPermutation(executors: seq<Executor>, order: seq<nat>, r: seq<Executor>)
    requires IsStartOrder(ParentsOf(executors), order) && Ordered(executors, order, r)
    ensures multiset(r) == multiset(executors)
  {
    Reordered(executors, order, r);
  }

  function Without<T>(s: seq<T>, k: nat): (r: seq<T>)
    requires k < |s|
    ensures |r| == |s| - 1 && forall i :: 0 <= i < |r| ==> r[i] == if i < k then s[i] else s[i + 1]
  {
    s[..k] + s[k + 1..]
  }

  lemma WithoutMultiset<T>(s: seq<T>, k: nat)
    requires k < |s|
    ensures multiset(s) == multiset(Without(s, k)) + multiset{s[k]}
  {
    assert s == s[..k] + [s[k]] + s[k + 1..];
  }

  /** Some place names the last position. */
  lemma Reached(order: seq<nat>, n: nat) returns (k: nat)
    requires Distinct(order) && |order| == n + 1
    requires forall i :: 0 <= i < |order| ==> order[i] <= n
    ensures k < |order| && order[k] == n
  {
    if n !in order {
      DistinctCount(order);
      Fewer(Elements(order), Below(n));
      assert false;
    }
    k :| 0 <= k < |order| && order[k] == n;
  }

  lemma OrderedFewer<T>(s: seq<T>, order: seq<nat>, r: seq<T>, k: nat)
    requires Ordered(s, order, r) && Distinct(order) && k < |order| && order[k] == |s| - 1
    ensures Ordered(s[..|s| - 1], Without(order, k), Without(r, k)) && Distinct(Without(order, k))
  {
    forall i | 0 <= i < |s| - 1 ensures Without(order, k)[i] < |s| - 1 {
      assert order[if i < k then i else i + 1] != order[k];
    }
  }

  /** Naming every position once keeps every value. */
  lemma {:induction false} Reordered<T>(s: seq<T>, order: seq<nat>, r: seq<T>)
    requires Ordered(s, order, r) && Distinct(order)
    ensures multiset(r) == multiset(s)
  {
    if s != [] {
      var n := |s| - 1;
      var k := Reached(order, n);
      OrderedFewer(s, order, r, k);
      Reordered(s[..n], Without(order, k), Without(r, k));
      WithoutMultiset(r, k);
      assert s == s[..n] + [s[n]];
    }
  }
}
