/** What a segmentation means for keys, parents and lines of context. */
module SegmentLaws {
  import opened Collections
  import opened Segmentation

  /** Every exchange stands in exactly one segment, whose exchanges all share
      its turn and group. */
  lemma MembersShareTheirKey(c: Session, r: Segmentation, s: nat, i: nat)
    requires c.Valid() && IsSegmentation(c, r) && s < |r.segments| && i < |c.xs|
    ensures i in r.segments[s].exchanges <==> r.segmentOf[i] == s
    ensures i in r.segments[s].exchanges ==> c.KeyOf(i) == c.KeyOf(r.segments[s].Head())
    ensures i in r.segments[s].exchanges ==> (r.segments[s].side <==> c.Side(i))
  {
    assert AllIn(r.segments[s].exchanges, r.segmentOf, s);
    assert HoldsItsGroup(c, r.segments[s], |c.xs|);
    if i in r.segments[s].exchanges {
      var k :| 0 <= k < |r.segments[s].exchanges| && r.segments[s].exchanges[k] == i;
      assert r.segments[s].Head() in r.segments[s].exchanges;
    }
  }

  /** Every key that occurs has exactly one main segment, and it holds every
      exchange with that key that is no side exchange. */
  lemma EveryKeyHasOneMainSegment(c: Session, r: Segmentation, i: nat) returns (main: nat)
    requires c.Valid() && IsSegmentation(c, r) && i < |c.xs|
    ensures main < |r.segments| && !r.segments[main].side
    ensures forall j :: 0 <= j < |c.xs| ==>
              (j in r.segments[main].exchanges <==> !c.Side(j) && c.KeyOf(j) == c.KeyOf(i))
    ensures forall t :: 0 <= t < |r.segments| && t != main && !r.segments[t].side ==>
              r.segments[t].Head() < |c.xs| && c.KeyOf(r.segments[t].Head()) != c.KeyOf(i)
  {
    var j := i;
    if c.Side(i) {
      j :| 0 <= j < |c.xs| && !c.BesideMain(j) && c.KeyOf(j) == c.KeyOf(i);
    }
    main := r.segmentOf[j];
    MembersShareTheirKey(c, r, main, j);
    assert HoldsItsGroup(c, r.segments[main], |c.xs|);
    forall t | 0 <= t < |r.segments| && t != main && !r.segments[t].side
      ensures r.segments[t].Head() < |c.xs| && c.KeyOf(r.segments[t].Head()) != c.KeyOf(i)
    {
      assert HoldsItsGroup(c, r.segments[t], |c.xs|);
      MembersShareTheirKey(c, r, t, j);
    }
  }

  /** Parents form a forest: each is an earlier segment, the one that holds the
      head's strictly earlier base, and a segment is a root exactly without one. */
  lemma ParentsFormAForest(c: Session, r: Segmentation, s: nat)
    requires c.Valid() && IsSegmentation(c, r) && s < |r.segments|
    ensures var segment := r.segments[s];
      && segment.Head() < |c.xs|
      && (segment.parent.Some? <==> c.Earlier(segment.Head()).Some?)
      && (segment.parent.None? <==> segment.kind == Root)
      && (segment.parent.Some? ==>
            segment.parent.value < s
            && c.Earlier(segment.Head()).value in r.segments[segment.parent.value].exchanges)
  {
    assert HangsFromItsBase(c, r.segments[s], s, r.segmentOf);
  }

  ghost predicate Forest(segments: seq<Segment>) {
    forall s :: 0 <= s < |segments| ==>
      && (segments[s].parent.Some? ==> segments[s].parent.value < s)
      && (segments[s].parent.None? <==> segments[s].kind == Root)
  }

  /** In a forest, the path of parents from a segment ends at a root. */
  lemma {:induction false} EverySegmentHasARoot(segments: seq<Segment>, s: nat) returns (path: seq<nat>)
    requires Forest(segments) && s < |segments|
    ensures path != [] && path[0] == s
    ensures forall k :: 0 <= k < |path| ==> path[k] < |segments|
    ensures forall k :: 0 <= k < |path| - 1 ==> segments[path[k]].parent == Some(path[k + 1])
    ensures segments[path[|path| - 1]].kind == Root
  {
    match segments[s].parent {
      case None => path := [s];
      case Some(p) =>
        var rest := EverySegmentHasARoot(segments, p);
        path := [s] + rest;
        forall k | 0 <= k < |path| - 1 ensures segments[path[k]].parent == Some(path[k + 1]) {
          if k > 0 {
            assert path[k] == rest[k - 1] && path[k + 1] == rest[k];
          }
        }
    }
  }

  lemma SegmentsAreAForest(c: Session, r: Segmentation)
    requires c.Valid() && IsSegmentation(c, r)
    ensures Forest(r.segments)
  {
    forall s | 0 <= s < |r.segments| {
      ParentsFormAForest(c, r, s);
    }
  }

  // ----- Lines of a session without declarations

  /** Every member of a line but its head has its strictly earlier base in it. */
  lemma {:induction false} LinesFollowBases(c: Session, i: nat, h: nat)
    requires c.Valid() && !c.Declares() && i < |c.xs| && c.GroupOf(i) == Line(h)
    ensures h <= i && c.GroupOf(h) == Line(h)
    ensures i != h ==> c.Earlier(i).Some? && h <= c.Earlier(i).value && c.GroupOf(c.Earlier(i).value) == Line(h)
                       && !c.Forks(i)
  {
    if c.Earlier(i).Some? && !c.Forks(i) {
      LinesFollowBases(c, c.Earlier(i).value, h);
    }
  }

  /** The continued members of the line `h` among the first `n` exchanges. */
  ghost function Spine(c: Session, h: nat, n: nat): (spine: seq<nat>)
    requires c.Valid() && n <= |c.xs|
    ensures forall i: int :: i in spine <==> 0 <= i < n && c.GroupOf(i) == Line(h) && c.Continued(i)
  {
    if n == 0 then []
    else if c.GroupOf(n - 1) == Line(h) && c.Continued(n - 1) then Spine(c, h, n - 1) + [n - 1]
    else Spine(c, h, n - 1)
  }

  /** `spine` is one chain under strictly earlier bases, starting at `h`. */
  ghost predicate IsChainFrom(c: Session, spine: seq<nat>, h: nat)
    requires c.Valid()
  {
    && (forall k :: 0 <= k < |spine| ==> spine[k] < |c.xs|)
    && (spine != [] ==> spine[0] == h)
    && forall k :: 0 <= k < |spine| - 1 ==> c.Earlier(spine[k + 1]) == Some(spine[k])
  }

  /** Two continued members of a line cannot share a base. */
  lemma NoSharedBase(c: Session, a: nat, b: nat)
    requires c.Valid() && a < b < |c.xs| && c.Earlier(a).Some? && c.Earlier(a) == c.Earlier(b)
    requires c.Continued(a) && c.Continued(b)
    ensures c.Forks(a) && c.Forks(b)
  {
    var children := c.ContinuedChildren(c.Earlier(a).value, |c.bases|);
    assert {a, b} <= children;
    Fewer({a, b}, children);
  }

  /** A later member of a line has its base among the line's continued members. */
  lemma BaseIsContinued(c: Session, h: nat, i: nat)
    requires c.Valid() && !c.Declares() && i < |c.xs| && i != h && c.GroupOf(i) == Line(h)
    ensures c.Earlier(i).Some? && c.Earlier(i).value in Spine(c, h, i) && !c.Forks(i)
  {
    LinesFollowBases(c, i, h);
    assert c.BaseOf(i) == c.Earlier(i);
    assert c.ContinuedWithin(c.Earlier(i).value, |c.bases|);
  }

  /** Among continued members of a chain only the last is the base of a later
      one that does not fork. */
  lemma BaseIsLast(c: Session, spine: seq<nat>, h: nat, i: nat)
    requires c.Valid() && IsChainFrom(c, spine, h) && i < |c.xs|
    requires forall k :: 0 <= k < |spine| ==> spine[k] < i && c.Continued(spine[k])
    requires c.Continued(i) && c.Earlier(i).Some? && !c.Forks(i) && c.Earlier(i).value in spine
    ensures c.Earlier(i) == Some(spine[|spine| - 1])
  {
    var k: nat :| k < |spine| && spine[k] == c.Earlier(i).value;
    if k + 1 < |spine| {
      NoSharedBase(c, spine[k + 1], i);
    }
  }

  lemma SpineMembers(c: Session, h: nat, n: nat)
    requires c.Valid() && n <= |c.xs|
    ensures forall k :: 0 <= k < |Spine(c, h, n)| ==> Spine(c, h, n)[k] < n && c.Continued(Spine(c, h, n)[k])
  {
    forall k | 0 <= k < |Spine(c, h, n)| ensures Spine(c, h, n)[k] < n && c.Continued(Spine(c, h, n)[k]) {
      assert Spine(c, h, n)[k] in Spine(c, h, n);
    }
  }

  /** The next member of a line's spine continues its last one. */
  lemma SpineLinks(c: Session, h: nat, i: nat)
    requires c.Valid() && !c.Declares() && i < |c.xs| && i != h
    requires c.GroupOf(i) == Line(h) && c.Continued(i) && IsChainFrom(c, Spine(c, h, i), h)
    ensures Spine(c, h, i) != [] && c.Earlier(i) == Some(Spine(c, h, i)[|Spine(c, h, i)| - 1])
  {
    BaseIsContinued(c, h, i);
    SpineMembers(c, h, i);
    BaseIsLast(c, Spine(c, h, i), h, i);
  }

  /** A chain goes on with what continues its last member. */
  lemma ChainGrows(c: Session, spine: seq<nat>, h: nat, i: nat)
    requires c.Valid() && IsChainFrom(c, spine, h) && i < |c.xs|
    requires if spine == [] then i == h else c.Earlier(i) == Some(spine[|spine| - 1])
    ensures IsChainFrom(c, spine + [i], h)
  {
  }

  /** The members of a line that another exchange continues form one single
      chain under base links, starting at the head. */
  lemma {:induction false} ContinuedMembersFormOneChain(c: Session, h: nat, n: nat)
    requires c.Valid() && !c.Declares() && n <= |c.xs|
    ensures IsChainFrom(c, Spine(c, h, n), h)
  {
    if n > 0 {
      ContinuedMembersFormOneChain(c, h, n - 1);
      var i := n - 1;
      if c.GroupOf(i) == Line(h) && c.Continued(i) {
        if i == h {
          NothingBeforeHead(c, h);
        } else {
          SpineLinks(c, h, i);
        }
        ChainGrows(c, Spine(c, h, i), h, i);
      }
    }
  }

  /** A line has no member before its head. */
  lemma NothingBeforeHead(c: Session, h: nat)
    requires c.Valid() && !c.Declares() && h <= |c.xs|
    ensures Spine(c, h, h) == []
  {
    if Spine(c, h, h) != [] {
      var i := Spine(c, h, h)[0];
      assert i in Spine(c, h, h);
      LinesFollowBases(c, i, h);
    }
  }
}
