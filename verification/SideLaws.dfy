/** A cut told by bases and declarations alone: who groups with whom, who
    stands on the side, and what kind of segment each is. */
module SideLaws {
  import opened Bases
  import opened Collections
  import opened Exchanges
  import opened Segmentation
  import opened SegmentLaws

  /** `c` has `b` as its base, and is another exchange. */
  ghost predicate Follows(bases: seq<Base>, c: nat, b: nat) {
    c < |bases| && c != b && bases[c].Ok? && bases[c].value.0 == b
  }

  /** Some exchange follows `b`. */
  ghost predicate Followed(bases: seq<Base>, b: nat) {
    exists c: nat :: Follows(bases, c, b)
  }

  /** Something in the session declares a turn, a sub-agent or who started it. */
  ghost predicate SomethingDeclared(xs: seq<Exchange>) {
    exists i :: 0 <= i < |xs| && (xs[i].turnId.Some? || xs[i].subagentId.Some? || xs[i].parentSubagentId.Some?)
  }

  /** `i` goes on from its earlier base `b`: nobody follows it, or no other
      follower of `b` is followed. */
  ghost predicate GoesOn(bases: seq<Base>, i: nat, b: nat) {
    && b < i && Follows(bases, i, b)
    && (Followed(bases, i) ==> forall d: nat :: Follows(bases, d, b) && Followed(bases, d) ==> d == i)
  }

  /** Exchanges of one turn and group. */
  ghost predicate Together(c: Session, i: nat, j: nat)
    requires c.Valid() && i < |c.xs| && j < |c.xs|
  {
    c.of[i] == c.of[j] && c.GroupOf(i) == c.GroupOf(j)
  }

  /** Nobody follows `i`. Either it follows nobody while a followed exchange is
      of its turn and group, or a followed exchange follows what it follows. */
  ghost predicate Visits(c: Session, i: nat)
    requires c.Valid() && i < |c.xs|
  {
    && !Followed(c.bases, i)
    && if forall b: nat :: !Follows(c.bases, i, b)
       then exists j: nat :: j < |c.xs| && Followed(c.bases, j) && Together(c, i, j)
       else exists b: nat, d: nat :: Follows(c.bases, i, b) && Follows(c.bases, d, b) && Followed(c.bases, d)
  }

  lemma FollowsIsBase(c: Session, i: nat, b: nat)
    requires c.Valid() && i < |c.xs|
    ensures Follows(c.bases, i, b) <==> c.BaseOf(i) == Some(b)
  {
  }

  lemma FollowedIsContinued(c: Session, b: nat)
    requires c.Valid()
    ensures Followed(c.bases, b) <==> c.Continued(b)
  {
    forall i: nat | i < |c.xs| ensures Follows(c.bases, i, b) <==> c.BaseOf(i) == Some(b) {
      FollowsIsBase(c, i, b);
    }
  }

  lemma FollowedChildren(c: Session, b: nat, d: nat)
    requires c.Valid()
    ensures d in c.ContinuedChildren(b, |c.bases|) <==> Follows(c.bases, d, b) && Followed(c.bases, d)
  {
    FollowedIsContinued(c, d);
  }

  // ----- Groups

  /** With declarations, the group is the declared sub-agent. */
  lemma GroupsAreDeclared(c: Session, i: nat)
    requires c.Valid() && i < |c.xs| && SomethingDeclared(c.xs)
    ensures c.GroupOf(i) == DeclaredBy(c.xs[i].subagentId)
  {
    var j :| 0 <= j < |c.xs| && (c.xs[j].turnId.Some? || c.xs[j].subagentId.Some? || c.xs[j].parentSubagentId.Some?);
    assert DeclaresAnything(c.xs[j]);
  }

  /** Without any, an exchange is of the group it goes on from, or begins one. */
  lemma GroupsAreLines(c: Session, i: nat)
    requires c.Valid() && i < |c.xs| && !SomethingDeclared(c.xs)
    ensures forall b: nat :: GoesOn(c.bases, i, b) ==> b < |c.xs| && c.GroupOf(i) == c.GroupOf(b)
    ensures (forall b: nat :: !GoesOn(c.bases, i, b)) ==>
              c.GroupOf(i) == Line(i) && forall j: nat :: j < i ==> c.GroupOf(j) != c.GroupOf(i)
  {
    assert !c.Declares();
    forall b: nat ensures GoesOn(c.bases, i, b) <==> c.Earlier(i) == Some(b) && !c.Forks(i) {
      GoingOn(c, i, b);
    }
    forall j: nat | j < i ensures c.GroupOf(j) != Line(i) {
      if c.GroupOf(j) == Line(i) {
        LinesFollowBases(c, j, i);
      }
    }
  }

  lemma GoingOn(c: Session, i: nat, b: nat)
    requires c.Valid() && i < |c.xs|
    ensures GoesOn(c.bases, i, b) <==> c.Earlier(i) == Some(b) && !c.Forks(i)
  {
    FollowsIsBase(c, i, b);
    FollowedIsContinued(c, i);
    if c.Earlier(i) == Some(b) && c.Continued(i) {
      var children := c.ContinuedChildren(b, |c.bases|);
      FollowedChildren(c, b, i);
      forall d: nat ensures d in children <==> Follows(c.bases, d, b) && Followed(c.bases, d) {
        FollowedChildren(c, b, d);
      }
      OnlyMember(children, i);
    }
  }

  lemma OnlyMember(s: set<nat>, x: nat)
    requires x in s
    ensures |s| <= 1 <==> forall y :: y in s ==> y == x
  {
    if forall y :: y in s ==> y == x {
      assert s == {x};
    } else {
      var y :| y in s && y != x;
      Fewer({x, y}, s);
    }
  }

  // ----- Sides

  lemma VisitsIsBeside(c: Session, i: nat)
    requires c.Valid() && i < |c.xs|
    ensures Visits(c, i) <==> c.BesideMain(i)
  {
    FollowedIsContinued(c, i);
    forall b: nat ensures Follows(c.bases, i, b) <==> c.BaseOf(i) == Some(b) {
      FollowsIsBase(c, i, b);
    }
    forall j: nat ensures Followed(c.bases, j) <==> c.Continued(j) {
      FollowedIsContinued(c, j);
    }
    if c.BaseOf(i).Some? {
      var b := c.BaseOf(i).value;
      forall d: nat ensures d in c.ContinuedChildren(b, |c.bases|) <==> Follows(c.bases, d, b) && Followed(c.bases, d) {
        FollowedChildren(c, b, d);
      }
      if c.BesideMain(i) {
        var d :| d in c.ContinuedChildren(b, |c.bases|);
        assert Follows(c.bases, i, b) && Follows(c.bases, d, b) && Followed(c.bases, d);
      }
    }
  }

  /** An exchange stands alone in a side segment exactly when it only visits,
      and its turn and group keep one that does more. */
  lemma SidesOnlyVisit(c: Session, r: Segmentation, i: nat)
    requires c.Valid() && IsSegmentation(c, r) && i < |c.xs|
    ensures r.segments[r.segmentOf[i]].side <==>
              Visits(c, i) && exists j: nat :: j < |c.xs| && Together(c, i, j) && !Visits(c, j)
    ensures r.segments[r.segmentOf[i]].side ==> r.segments[r.segmentOf[i]].exchanges == [i]
  {
    MembersShareTheirKey(c, r, r.segmentOf[i], i);
    assert HoldsItsGroup(c, r.segments[r.segmentOf[i]], |c.xs|);
    forall j: nat | j < |c.xs| ensures Visits(c, j) <==> c.BesideMain(j) {
      VisitsIsBeside(c, j);
    }
  }

  /** Two exchanges stand in one segment exactly when they are one, or are of
      one turn and group and neither stands on the side. */
  lemma SegmentsAreGroups(c: Session, r: Segmentation, i: nat, j: nat)
    requires c.Valid() && IsSegmentation(c, r) && i < |c.xs| && j < |c.xs|
    ensures r.segmentOf[i] == r.segmentOf[j] <==>
              i == j || (Together(c, i, j) && !r.segments[r.segmentOf[i]].side && !r.segments[r.segmentOf[j]].side)
    ensures r.segments[r.segmentOf[i]].group == c.GroupOf(i)
  {
    MembersShareTheirKey(c, r, r.segmentOf[i], i);
    MembersShareTheirKey(c, r, r.segmentOf[j], j);
    MembersShareTheirKey(c, r, r.segmentOf[i], j);
    assert HoldsItsGroup(c, r.segments[r.segmentOf[i]], |c.xs|);
    assert HoldsItsGroup(c, r.segments[r.segmentOf[j]], |c.xs|);
  }

  // ----- Kinds

  /** A segment hangs where its head's base is, if that is earlier, as a branch
      when something else follows that base too, and as a turn otherwise. */
  lemma KindsFollowBases(c: Session, r: Segmentation, s: nat)
    requires c.Valid() && IsSegmentation(c, r) && s < |r.segments|
    ensures var segment := r.segments[s];
      var h := segment.Head();
      && h < |c.xs|
      && ((forall b: nat :: b < h ==> !Follows(c.bases, h, b)) ==> segment.parent.None? && segment.kind == Root)
      && forall b: nat :: b < h && Follows(c.bases, h, b) ==>
           && segment.parent == Some(r.segmentOf[b])
           && segment.kind == if exists d: nat :: d != h && Follows(c.bases, d, b) then Branch else SegmentKind.Turn
  {
    var h := r.segments[s].Head();
    assert HangsFromItsBase(c, r.segments[s], s, r.segmentOf);
    forall b: nat ensures Follows(c.bases, h, b) <==> c.BaseOf(h) == Some(b) {
      FollowsIsBase(c, h, b);
    }
    if c.Earlier(h).Some? {
      var b := c.Earlier(h).value;
      forall d: nat ensures d in c.Children(b, |c.xs|) <==> Follows(c.bases, d, b) {
        if d < |c.xs| {
          FollowsIsBase(c, d, b);
        }
      }
      OnlyMember(c.Children(b, |c.xs|), h);
    }
  }
}
