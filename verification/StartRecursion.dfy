/** The order of executors as a plain recursion: each one not visited yet,
    then everything below it. */
module StartRecursion {
  import opened Collections

  /** The children of `p` below `n`, in order. */
  function ChildrenBelow(parents: seq<Option<nat>>, p: nat, n: nat): (children: seq<nat>)
    requires n <= |parents|
    ensures forall i: int :: i in children <==> 0 <= i < n && parents[i] == Some(p)
  {
    if n == 0 then []
    else ChildrenBelow(parents, p, n - 1) + (if parents[n - 1] == Some(p) then [n - 1] else [])
  }

  function ChildrenOf(parents: seq<Option<nat>>, p: nat): (children: seq<nat>) {
    ChildrenBelow(parents, p, |parents|)
  }

  /** The top-level executors below `n`, in order. */
  function TopsBelow(parents: seq<Option<nat>>, n: nat): (tops: seq<nat>)
    requires n <= |parents|
  {
    if n == 0 then []
    else TopsBelow(parents, n - 1) + (if parents[n - 1].None? then [n - 1] else [])
  }

  /** The children of `p` below `n` not placed yet, in order. */
  function OpenChildren(parents: seq<Option<nat>>, placed: seq<bool>, p: nat, n: nat): (children: seq<nat>)
    requires n <= |parents| == |placed|
    ensures forall i: int :: i in children <==> 0 <= i < n && parents[i] == Some(p) && !placed[i]
  {
    if n == 0 then []
    else OpenChildren(parents, placed, p, n - 1)
         + (if parents[n - 1] == Some(p) && !placed[n - 1] then [n - 1] else [])
  }

  function Reversed<T>(s: seq<T>): (r: seq<T>)
    ensures |r| == |s| && forall k :: 0 <= k < |s| ==> r[k] == s[|s| - 1 - k]
  {
    seq(|s|, k requires 0 <= k < |s| => s[|s| - 1 - k])
  }

  lemma ReversedLast<T>(s: seq<T>, more: seq<T>)
    requires more != []
    ensures s + Reversed(more) == (s + Reversed(more[1..])) + [more[0]]
  {
  }

  // ----- The recursion

  /** Some of the executors, none twice. */
  ghost predicate Part(parents: seq<Option<nat>>, order: seq<nat>) {
    Distinct(order) && Within(parents, order)
  }

  ghost predicate Within(parents: seq<Option<nat>>, todo: seq<nat>) {
    forall k :: 0 <= k < |todo| ==> todo[k] < |parents|
  }

  lemma PartIsShort(parents: seq<Option<nat>>, order: seq<nat>)
    requires Part(parents, order)
    ensures |order| <= |parents|
  {
    DistinctCount(order);
    Fewer(Elements(order), Below(|parents|));
  }

  lemma ChildrenAreWithin(parents: seq<Option<nat>>, p: nat)
    ensures Within(parents, ChildrenOf(parents, p))
  {
    var children := ChildrenOf(parents, p);
    forall k | 0 <= k < |children| ensures children[k] < |parents| {
      assert children[k] in children;
    }
  }

  /** `done`, then each of `todo` not visited before, followed by everything
      below it that was not. */
  ghost function Visited(parents: seq<Option<nat>>, done: seq<nat>, todo: seq<nat>): (order: seq<nat>)
    requires Part(parents, done) && Within(parents, todo)
    ensures Part(parents, order) && done <= order
    decreases if |done| <= |parents| then |parents| - |done| else 0, |todo|
  {
    PartIsShort(parents, done);
    if todo == [] then done
    else if todo[0] in done then Visited(parents, done, todo[1..])
    else
      PartIsShort(parents, done + [todo[0]]);
      ChildrenAreWithin(parents, todo[0]);
      var below := Visited(parents, done + [todo[0]], ChildrenOf(parents, todo[0]));
      PartIsShort(parents, below);
      Visited(parents, below, todo[1..])
  }

  /** First what the top-level executors lead to, then whatever is left, each
      circle of declarations from its earliest member. */
  ghost function RecursiveOrder(parents: seq<Option<nat>>): (order: seq<nat>) {
    TopsAreWithin(parents, |parents|);
    Visited(parents, Visited(parents, [], TopsBelow(parents, |parents|)), Indices(|parents|))
  }

  lemma {:induction false} TopsAreWithin(parents: seq<Option<nat>>, n: nat)
    requires n <= |parents|
    ensures Within(parents, TopsBelow(parents, n))
  {
    if n > 0 {
      TopsAreWithin(parents, n - 1);
    }
  }

  lemma {:induction false} VisitedInTurn(parents: seq<Option<nat>>, done: seq<nat>, a: seq<nat>, b: seq<nat>)
    requires Part(parents, done) && Within(parents, a) && Within(parents, b)
    ensures Visited(parents, done, a + b) == Visited(parents, Visited(parents, done, a), b)
    decreases if |done| <= |parents| then |parents| - |done| else 0, |a|
  {
    PartIsShort(parents, done);
    if a == [] {
      assert a + b == b;
    } else {
      assert (a + b)[1..] == a[1..] + b;
      if a[0] in done {
        VisitedInTurn(parents, done, a[1..], b);
      } else {
        PartIsShort(parents, done + [a[0]]);
        ChildrenAreWithin(parents, a[0]);
        var below := Visited(parents, done + [a[0]], ChildrenOf(parents, a[0]));
        PartIsShort(parents, below);
        VisitedInTurn(parents, below, a[1..], b);
      }
    }
  }

  lemma VisitedAlready(parents: seq<Option<nat>>, done: seq<nat>, i: nat)
    requires Part(parents, done) && i < |parents| && i in done
    ensures Visited(parents, done, [i]) == done
  {
    assert [i][1..] == [];
  }

  // ----- The stack

  /** `placed` flags what `done` lists. */
  ghost predicate Flags(parents: seq<Option<nat>>, placed: seq<bool>, done: seq<nat>) {
    |placed| == |parents| && forall i :: 0 <= i < |parents| ==> (placed[i] <==> i in done)
  }

  /** Two lists lead to the same order. */
  ghost predicate SameVisits(parents: seq<Option<nat>>, done: seq<nat>, a: seq<nat>, b: seq<nat>)
    requires Part(parents, done)
  {
    Within(parents, a) && Within(parents, b) && Visited(parents, done, a) == Visited(parents, done, b)
  }

  lemma OneMoreVisited(parents: seq<Option<nat>>, done: seq<nat>, a: seq<nat>, b: seq<nat>, i: nat)
    requires Part(parents, done) && SameVisits(parents, done, a, b) && i < |parents|
    ensures SameVisits(parents, done, a + [i], b + [i])
    ensures i in done ==> SameVisits(parents, done, a, b + [i])
  {
    VisitedInTurn(parents, done, a, [i]);
    VisitedInTurn(parents, done, b, [i]);
    if i in done {
      VisitedAlready(parents, Visited(parents, done, b), i);
    }
  }

  /** A relation that going on alike keeps, and going on with what is placed. */
  ghost predicate Keeps(same: (seq<nat>, seq<nat>) -> bool, placed: seq<bool>) {
    && same([], [])
    && forall a, b, i: nat :: same(a, b) && i < |placed| ==> GoesOn(same, placed, a, b, i)
  }

  ghost predicate GoesOn(same: (seq<nat>, seq<nat>) -> bool, placed: seq<bool>, a: seq<nat>, b: seq<nat>, i: nat)
    requires i < |placed|
  {
    same(a + [i], b + [i]) && (placed[i] ==> same(a, b + [i]))
  }

  lemma {:induction false} KeptByChildren(same: (seq<nat>, seq<nat>) -> bool, parents: seq<Option<nat>>,
                                          placed: seq<bool>, p: nat, n: nat)
    requires Keeps(same, placed) && n <= |parents| == |placed|
    ensures same(OpenChildren(parents, placed, p, n), ChildrenBelow(parents, p, n))
  {
    if n > 0 {
      var a, b := OpenChildren(parents, placed, p, n - 1), ChildrenBelow(parents, p, n - 1);
      KeptByChildren(same, parents, placed, p, n - 1);
      assert GoesOn(same, placed, a, b, n - 1);
      assert a + [] == a && b + [] == b;
    }
  }

  ghost function Same(parents: seq<Option<nat>>, done: seq<nat>): (seq<nat>, seq<nat>) -> bool
    requires Part(parents, done)
  {
    (a: seq<nat>, b: seq<nat>) => SameVisits(parents, done, a, b)
  }

  /** Leaving out children visited before changes nothing. */
  lemma OpenChildrenSuffice(parents: seq<Option<nat>>, placed: seq<bool>, done: seq<nat>, p: nat)
    requires Part(parents, done) && Flags(parents, placed, done)
    ensures SameVisits(parents, done, OpenChildren(parents, placed, p, |parents|), ChildrenOf(parents, p))
  {
    var same := Same(parents, done);
    forall a, b, i: nat | same(a, b) && i < |placed| ensures GoesOn(same, placed, a, b, i) {
      OneMoreVisited(parents, done, a, b, i);
    }
    KeptByChildren(same, parents, placed, p, |parents|);
  }

  /** The stack after its top's children were pushed, the first on top. */
  function Rest(stack: seq<nat>, children: seq<nat>): (rest: seq<nat>)
    requires stack != []
  {
    stack[..|stack| - 1] + Reversed(children)
  }

  lemma TopFirst(stack: seq<nat>)
    requires stack != []
    ensures Reversed(stack) == [stack[|stack| - 1]] + Reversed(stack[..|stack| - 1])
  {
  }

  lemma ChildrenOnTop(stack: seq<nat>, children: seq<nat>)
    requires stack != []
    ensures Reversed(Rest(stack, children)) == children + Reversed(stack[..|stack| - 1])
  {
  }

  lemma StackIsWithin(parents: seq<Option<nat>>, stack: seq<nat>)
    requires Within(parents, stack)
    ensures Within(parents, Reversed(stack))
  {
  }

  /** A placed executor on top of the stack is only dropped. */
  lemma DroppingVisits(parents: seq<Option<nat>>, done: seq<nat>, stack: seq<nat>)
    requires Part(parents, done) && Within(parents, stack) && stack != [] && stack[|stack| - 1] in done
    ensures Within(parents, Reversed(stack)) && Within(parents, Reversed(stack[..|stack| - 1]))
    ensures Visited(parents, done, Reversed(stack)) == Visited(parents, done, Reversed(stack[..|stack| - 1]))
  {
    var next, rest := stack[|stack| - 1], stack[..|stack| - 1];
    StackIsWithin(parents, stack);
    StackIsWithin(parents, rest);
    TopFirst(stack);
    VisitedInTurn(parents, done, [next], Reversed(rest));
    VisitedAlready(parents, done, next);
  }

  lemma VisitsOne(parents: seq<Option<nat>>, done: seq<nat>, i: nat)
    requires Part(parents, done) && i < |parents| && i !in done
    ensures Part(parents, done + [i]) && Within(parents, ChildrenOf(parents, i))
    ensures Visited(parents, done, [i]) == Visited(parents, done + [i], ChildrenOf(parents, i))
  {
    ChildrenAreWithin(parents, i);
    assert [i][1..] == [];
  }

  /** One that is not placed is placed, its open children going on top. */
  lemma PushingVisits(parents: seq<Option<nat>>, placed: seq<bool>, done: seq<nat>, stack: seq<nat>)
    requires Part(parents, done) && Within(parents, stack) && stack != [] && stack[|stack| - 1] !in done
    requires Flags(parents, placed, done + [stack[|stack| - 1]])
    ensures var next := stack[|stack| - 1];
      var rest := Rest(stack, OpenChildren(parents, placed, next, |parents|));
      && Part(parents, done + [next]) && Within(parents, Reversed(stack)) && Within(parents, Reversed(rest))
      && Visited(parents, done, Reversed(stack)) == Visited(parents, done + [next], Reversed(rest))
  {
    var next, lower := stack[|stack| - 1], stack[..|stack| - 1];
    var left := OpenChildren(parents, placed, next, |parents|);
    StackIsWithin(parents, stack);
    StackIsWithin(parents, lower);
    TopFirst(stack);
    ChildrenOnTop(stack, left);
    VisitedInTurn(parents, done, [next], Reversed(lower));
    VisitsOne(parents, done, next);
    OpenChildrenSuffice(parents, placed, done + [next], next);
    VisitedInTurn(parents, done + [next], left, Reversed(lower));
  }
}
