/** Which executor is listed next, whatever is listed so far: the start order
    told place by place, by parents and numbers alone. */
module DepthFirst {
  import opened Collections
  import opened StartOrder
  import opened StartLaws
  import opened StartRecursion

  ghost predicate Listed(order: seq<nat>, k: nat, i: nat)
    requires k <= |order|
  {
    exists m :: 0 <= m < k && order[m] == i
  }

  ghost predicate IsChild(parents: seq<Option<nat>>, c: nat, p: nat) {
    c < |parents| && parents[c] == Some(p)
  }

  /** Before place `k`, all children of whoever stands from `j` on are listed. */
  ghost predicate Closed(parents: seq<Option<nat>>, order: seq<nat>, j: nat, k: nat)
    requires k <= |order|
  {
    forall m: nat, c: nat :: j <= m < k && IsChild(parents, c, order[m]) ==> Listed(order, k, c)
  }

  /** At `k` stands the first child not listed yet of the one at `j`, the last
      that had any. */
  ghost predicate ContinuesAt(parents: seq<Option<nat>>, order: seq<nat>, j: nat, k: nat)
    requires k < |order|
  {
    && j < k && IsChild(parents, order[k], order[j]) && Closed(parents, order, j + 1, k)
    && forall c: nat :: c < order[k] && IsChild(parents, c, order[j]) ==> Listed(order, k, c)
  }

  /** At `k` stands the first of `todo` not listed yet. */
  ghost predicate FirstLeft(order: seq<nat>, todo: seq<nat>, k: nat)
    requires k < |order|
  {
    exists t :: 0 <= t < |todo| && todo[t] == order[k] && forall s :: 0 <= s < t ==> Listed(order, k, todo[s])
  }

  /** What stands at `k` continues below somebody behind `from`, or nobody there
      is left to continue and it is the first left of `todo`. */
  ghost predicate ComesNext(parents: seq<Option<nat>>, from: nat, todo: seq<nat>, order: seq<nat>, k: nat)
    requires k < |order|
  {
    || (exists j: nat :: from <= j && ContinuesAt(parents, order, j, k))
    || (Closed(parents, order, from, k) && FirstLeft(order, todo, k))
  }

  lemma ListedInPrefix(a: seq<nat>, b: seq<nat>, k: nat, i: nat)
    requires a <= b && k <= |a|
    ensures Listed(a, k, i) <==> Listed(b, k, i)
  {
    if Listed(b, k, i) {
      var m :| 0 <= m < k && b[m] == i;
      assert a[m] == i;
    }
  }

  lemma NextInPrefix(parents: seq<Option<nat>>, from: nat, todo: seq<nat>, a: seq<nat>, b: seq<nat>, k: nat)
    requires a <= b && k < |a| && ComesNext(parents, from, todo, a, k)
    ensures ComesNext(parents, from, todo, b, k)
  {
    forall i: nat ensures Listed(a, k, i) <==> Listed(b, k, i) {
      ListedInPrefix(a, b, k, i);
    }
    if j: nat :| from <= j && ContinuesAt(parents, a, j, k) {
      assert ContinuesAt(parents, b, j, k);
    }
  }

  /** Everything asked for is listed, and all children of whoever is new. */
  lemma {:induction false} VisitedIsClosed(parents: seq<Option<nat>>, done: seq<nat>, todo: seq<nat>)
    requires Part(parents, done) && Within(parents, todo)
    ensures var order := Visited(parents, done, todo);
      && (forall t :: 0 <= t < |todo| ==> Listed(order, |order|, todo[t]))
      && Closed(parents, order, |done|, |order|)
    decreases if |done| <= |parents| then |parents| - |done| else 0, |todo|
  {
    PartIsShort(parents, done);
    if todo == [] {
    } else if todo[0] in done {
      VisitedIsClosed(parents, done, todo[1..]);
      var order := Visited(parents, done, todo);
      var m :| 0 <= m < |done| && done[m] == todo[0];
      assert order[m] == todo[0];
      FirstAndRest(order, todo);
    } else {
      var below, order := OneMoreVisited(parents, done, todo);
      VisitedIsClosed(parents, done + [todo[0]], ChildrenOf(parents, todo[0]));
      VisitedIsClosed(parents, below, todo[1..]);
      assert order[|done|] == below[|done|] == todo[0];
      FirstAndRest(order, todo);
      ChildrenListed(parents, below, todo[0]);
      ClosedInParts(parents, below, order, |done|);
    }
  }

  lemma OneMoreVisited(parents: seq<Option<nat>>, done: seq<nat>, todo: seq<nat>)
    returns (below: seq<nat>, order: seq<nat>)
    requires Part(parents, done) && Within(parents, todo) && todo != [] && todo[0] !in done
    ensures |done| < |parents| && |done| < |below| && Part(parents, done + [todo[0]]) && Part(parents, below)
    ensures Within(parents, ChildrenOf(parents, todo[0]))
    ensures below == Visited(parents, done + [todo[0]], ChildrenOf(parents, todo[0]))
    ensures order == Visited(parents, done, todo) == Visited(parents, below, todo[1..])
    ensures done + [todo[0]] <= below <= order
  {
    PartIsShort(parents, done + [todo[0]]);
    ChildrenAreWithin(parents, todo[0]);
    below := Visited(parents, done + [todo[0]], ChildrenOf(parents, todo[0]));
    PartIsShort(parents, below);
    order := Visited(parents, below, todo[1..]);
  }

  lemma FirstAndRest(order: seq<nat>, todo: seq<nat>)
    requires todo != [] && todo[0] in order
    requires forall t :: 0 <= t < |todo[1..]| ==> Listed(order, |order|, todo[1..][t])
    ensures forall t :: 0 <= t < |todo| ==> Listed(order, |order|, todo[t])
  {
    forall t | 0 <= t < |todo| ensures Listed(order, |order|, todo[t]) {
      if t > 0 {
        assert todo[t] == todo[1..][t - 1];
      }
    }
  }

  lemma ChildrenListed(parents: seq<Option<nat>>, below: seq<nat>, p: nat)
    requires forall t :: 0 <= t < |ChildrenOf(parents, p)| ==> Listed(below, |below|, ChildrenOf(parents, p)[t])
    ensures forall c: nat :: IsChild(parents, c, p) ==> Listed(below, |below|, c)
  {
    forall c: nat | IsChild(parents, c, p) ensures Listed(below, |below|, c) {
      assert c in ChildrenOf(parents, p);
    }
  }

  /** A closed first part and a closed rest are closed together. */
  lemma ClosedInParts(parents: seq<Option<nat>>, below: seq<nat>, order: seq<nat>, n: nat)
    requires n < |below| && below <= order
    requires forall c: nat :: IsChild(parents, c, below[n]) ==> Listed(below, |below|, c)
    requires Closed(parents, below, n + 1, |below|) && Closed(parents, order, |below|, |order|)
    ensures Closed(parents, order, n, |order|)
  {
    forall m: nat, c: nat | n <= m < |order| && IsChild(parents, c, order[m]) ensures Listed(order, |order|, c) {
      if m < |below| {
        assert order[m] == below[m];
        ListedInPrefix(below, order, |below|, c);
      }
    }
  }

  /** Every place of what is visited anew. */
  lemma {:induction false} VisitedComesNext(parents: seq<Option<nat>>, done: seq<nat>, todo: seq<nat>, k: nat)
    requires Part(parents, done) && Within(parents, todo) && |done| <= k < |Visited(parents, done, todo)|
    ensures ComesNext(parents, |done|, todo, Visited(parents, done, todo), k)
    decreases if |done| <= |parents| then |parents| - |done| else 0, |todo|
  {
    PartIsShort(parents, done);
    var order := Visited(parents, done, todo);
    if todo == [] {
      assert false;
    } else if todo[0] in done {
      VisitedComesNext(parents, done, todo[1..], k);
      SkipsListed(parents, |done|, todo, order, k);
    } else {
      var below, all := OneMoreVisited(parents, done, todo);
      if k == |done| {
        assert order[k] == below[k] == todo[0];
      } else if k < |below| {
        VisitedComesNext(parents, done + [todo[0]], ChildrenOf(parents, todo[0]), k);
        NextInPrefix(parents, |done| + 1, ChildrenOf(parents, todo[0]), below, order, k);
        NextBelow(parents, |done|, todo, order, k);
      } else {
        VisitedComesNext(parents, below, todo[1..], k);
        VisitedIsClosed(parents, done + [todo[0]], ChildrenOf(parents, todo[0]));
        ChildrenListed(parents, below, todo[0]);
        NextBehind(parents, below, |done|, todo, order, k);
      }
    }
  }

  lemma SkipsListed(parents: seq<Option<nat>>, from: nat, todo: seq<nat>, order: seq<nat>, k: nat)
    requires k < |order| && todo != [] && ComesNext(parents, from, todo[1..], order, k)
    requires Listed(order, k, todo[0])
    ensures ComesNext(parents, from, todo, order, k)
  {
    if FirstLeft(order, todo[1..], k) {
      var t :| 0 <= t < |todo[1..]| && todo[1..][t] == order[k]
               && forall s :: 0 <= s < t ==> Listed(order, k, todo[1..][s]);
      forall s | 0 <= s < t + 1 ensures Listed(order, k, todo[s]) {
        assert s > 0 ==> todo[s] == todo[1..][s - 1];
      }
      assert todo[t + 1] == order[k];
    }
  }

  /** What comes next among the children of the one at `n` continues below it,
      or below somebody behind it. */
  lemma NextBelow(parents: seq<Option<nat>>, n: nat, todo: seq<nat>, order: seq<nat>, k: nat)
    requires n < k < |order| && ComesNext(parents, n + 1, ChildrenOf(parents, order[n]), order, k)
    ensures ComesNext(parents, n, todo, order, k)
  {
    var children := ChildrenOf(parents, order[n]);
    if j: nat :| n + 1 <= j && ContinuesAt(parents, order, j, k) {
      assert n <= j && ContinuesAt(parents, order, j, k);
    } else {
      var t :| 0 <= t < |children| && children[t] == order[k]
               && forall s :: 0 <= s < t ==> Listed(order, k, children[s]);
      assert children[t] in children;
      ChildrenIncrease(parents, order[n], |parents|);
      forall c: nat | c < order[k] && IsChild(parents, c, order[n]) ensures Listed(order, k, c) {
        assert c in children;
        var s :| 0 <= s < |children| && children[s] == c;
        assert s < t;
      }
      assert ContinuesAt(parents, order, n, k);
    }
  }

  lemma NextBehind(parents: seq<Option<nat>>, below: seq<nat>, n: nat, todo: seq<nat>, order: seq<nat>, k: nat)
    requires below <= order && n < |below| <= k < |order| && todo != [] && order[n] == todo[0]
    requires ComesNext(parents, |below|, todo[1..], order, k)
    requires forall c: nat :: IsChild(parents, c, below[n]) ==> Listed(below, |below|, c)
    requires Closed(parents, below, n + 1, |below|)
    ensures ComesNext(parents, n, todo, order, k)
  {
    if j: nat :| |below| <= j && ContinuesAt(parents, order, j, k) {
      assert n <= j && ContinuesAt(parents, order, j, k);
    } else {
      forall m: nat, c: nat | n <= m < k && IsChild(parents, c, order[m]) ensures Listed(order, k, c) {
        if m < |below| {
          assert order[m] == below[m] && IsChild(parents, c, below[m]);
          assert m == n || n + 1 <= m;
          ListedLater(below, order, k, c);
        }
      }
      SkipsListed(parents, n, todo, order, k);
    }
  }

  // ----- The whole order

  /** Nobody listed has a child left, and at `k` stands the first executor left
      of those at the top, or once all these are listed, the first of all. */
  ghost predicate BeginsAnew(parents: seq<Option<nat>>, order: seq<nat>, k: nat)
    requires k < |order|
  {
    && order[k] < |parents| && Closed(parents, order, 0, k)
    && (parents[order[k]].None? ==> forall i: nat :: i < order[k] && parents[i].None? ==> Listed(order, k, i))
    && (parents[order[k]].Some? ==>
          && (forall i: nat :: i < order[k] ==> Listed(order, k, i))
          && forall i: nat :: i < |parents| && parents[i].None? ==> Listed(order, k, i))
  }

  /** At every place of a start order stands the first child left of the last
      executor that has one, or else a new beginning. */
  lemma NextIsDetermined(parents: seq<Option<nat>>, order: seq<nat>, k: nat)
    requires IsStartOrder(parents, order) && k < |order|
    ensures (exists j: nat :: ContinuesAt(parents, order, j, k)) || BeginsAnew(parents, order, k)
  {
    TopsAreWithin(parents, |parents|);
    var tops := TopsBelow(parents, |parents|);
    var above := Visited(parents, [], tops);
    if k < |above| {
      VisitedComesNext(parents, [], tops, k);
      NextInPrefix(parents, 0, tops, above, order, k);
      if Closed(parents, order, 0, k) && FirstLeft(order, tops, k) {
        TopBegins(parents, order, k);
      }
    } else {
      VisitedComesNext(parents, above, Indices(|parents|), k);
      VisitedIsClosed(parents, [], tops);
      if Closed(parents, order, |above|, k) && FirstLeft(order, Indices(|parents|), k) {
        OtherBegins(parents, above, order, k);
      }
    }
  }

  lemma TopBegins(parents: seq<Option<nat>>, order: seq<nat>, k: nat)
    requires k < |order| && Closed(parents, order, 0, k) && FirstLeft(order, TopsBelow(parents, |parents|), k)
    ensures BeginsAnew(parents, order, k)
  {
    var tops := TopsBelow(parents, |parents|);
    var t :| 0 <= t < |tops| && tops[t] == order[k] && forall s :: 0 <= s < t ==> Listed(order, k, tops[s]);
    TopsHaveNoParent(parents, |parents|, t);
    forall i: nat | i < order[k] && parents[i].None? ensures Listed(order, k, i) {
      TopsAreListed(parents, i, |parents|);
      var s: nat :| s < |tops| && tops[s] == i;
      TopsIncrease(parents, |parents|, s, t);
    }
  }

  lemma OtherBegins(parents: seq<Option<nat>>, above: seq<nat>, order: seq<nat>, k: nat)
    requires above <= order && |above| <= k < |order| && Closed(parents, above, 0, |above|)
    requires forall t :: 0 <= t < |TopsBelow(parents, |parents|)| ==>
               Listed(above, |above|, TopsBelow(parents, |parents|)[t])
    requires Closed(parents, order, |above|, k) && FirstLeft(order, Indices(|parents|), k)
    ensures BeginsAnew(parents, order, k)
  {
    var all := Indices(|parents|);
    var t :| 0 <= t < |all| && all[t] == order[k] && forall s :: 0 <= s < t ==> Listed(order, k, all[s]);
    forall i: nat | i < order[k] ensures Listed(order, k, i) {
      assert all[i] == i;
    }
    forall i: nat | i < |parents| && parents[i].None? ensures Listed(order, k, i) {
      TopsAreListed(parents, i, |parents|);
      ListedLater(above, order, k, i);
    }
    forall m: nat, c: nat | m < k && IsChild(parents, c, order[m]) ensures Listed(order, k, c) {
      if m < |above| {
        assert order[m] == above[m];
        ListedLater(above, order, k, c);
      }
    }
  }

  lemma ListedLater(above: seq<nat>, order: seq<nat>, k: nat, i: nat)
    requires above <= order && |above| <= k <= |order| && Listed(above, |above|, i)
    ensures Listed(order, k, i)
  {
    var m :| 0 <= m < |above| && above[m] == i;
    assert order[m] == i;
  }

  /** Of two executors that one before them started, the smaller number stands
      before the greater. */
  lemma SiblingsKeepTheirOrder(parents: seq<Option<nat>>, order: seq<nat>, x: nat, y: nat, z: nat)
    requires IsStartOrder(parents, order) && x < y < z < |order|
    requires IsChild(parents, order[y], order[x]) && IsChild(parents, order[z], order[x])
    ensures order[y] < order[z]
  {
    NextIsDetermined(parents, order, y);
    assert !Listed(order, y, order[y]) && !Listed(order, y, order[z]);
    if j: nat :| ContinuesAt(parents, order, j, y) {
      SamePlace(order, j, x);
    }
    assert order[y] != order[z];
  }
}
