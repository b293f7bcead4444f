/** Cutting a session: whole groups of a turn stay together in main segments,
    and what only visits their context is set aside alone. */
module Segmentation {
  import opened Bases
  import opened Collections
  import opened Exchanges
  import opened Turns

  datatype SegmentKind = Root | Turn | Branch

  /** Told by the sub-agent declared, or by the head of the line continued. */
  datatype Group = DeclaredBy(subagent: Option<string>) | Line(first: nat)

  datatype Segment = Segment(kind: SegmentKind, parent: Option<nat>, exchanges: seq<nat>, group: Group, side: bool)
  {
    function Head(): nat {
      if exchanges == [] then 0 else exchanges[0]
    }
  }

  datatype Segmentation = Segmentation(segments: seq<Segment>, segmentOf: seq<nat>)

  type Key = (Option<nat>, Group)

  /** What a cut reads: the exchanges, their bases and their turns. */
  datatype Session = Session(xs: seq<Exchange>, bases: seq<Base>, of: seq<Option<nat>>)
  {
    ghost predicate Valid() {
      && |bases| == |xs| == |of|
      && forall i :: 0 <= i < |bases| && bases[i].Ok? ==> bases[i].value.0 < |xs|
    }

    /** The base of `i`, unless it is `i` itself. */
    function BaseOf(i: nat): (b: Option<nat>)
      requires i < |bases|
    {
      if bases[i].Ok? && bases[i].value.0 != i then Some(bases[i].value.0) else None
    }

    /** The base of `i` when it is strictly earlier. */
    function Earlier(i: nat): (b: Option<nat>)
      requires i < |bases|
      ensures b.Some? ==> b.value < i && BaseOf(i) == b
    {
      EarlierBase(bases, i)
    }

    /** The exchanges among the first `n` whose base is `b`. */
    ghost function Children(b: nat, n: nat): set<nat>
      requires n <= |bases|
    {
      set c | 0 <= c < n && BaseOf(c) == Some(b)
    }

    /** Whether another exchange among the first `n` has `b` as base. */
    ghost predicate ContinuedWithin(b: nat, n: nat)
      requires n <= |bases|
    {
      exists c :: 0 <= c < n && BaseOf(c) == Some(b)
    }

    /** Whether another exchange continues `b`. */
    ghost predicate Continued(b: nat) {
      ContinuedWithin(b, |bases|)
    }

    /** The continued exchanges among the first `n` whose base is `b`. */
    ghost function ContinuedChildren(b: nat, n: nat): set<nat>
      requires n <= |bases|
    {
      set c | 0 <= c < n && BaseOf(c) == Some(b) && Continued(c)
    }

    predicate Declares() {
      exists i :: 0 <= i < |xs| && DeclaresAnything(xs[i])
    }

    /** Whether `i` leaves its base's line: another continued exchange shares it. */
    ghost predicate Forks(i: nat)
      requires i < |bases| && Earlier(i).Some?
    {
      Continued(i) && |ContinuedChildren(Earlier(i).value, |bases|)| > 1
    }

    /** The group of `i`: its declared sub-agent, or the line it continues. */
    ghost function GroupOf(i: nat): Group
      requires Valid() && i < |xs|
    {
      if Declares() then DeclaredBy(xs[i].subagentId)
      else if Earlier(i).Some? && !Forks(i) then GroupOf(Earlier(i).value)
      else Line(i)
    }

    ghost function KeyOf(i: nat): Key
      requires Valid() && i < |xs|
    {
      (of[i], GroupOf(i))
    }

    /** Whether `i` stands beside its group's main line, before the fallback. */
    ghost predicate BesideMain(i: nat)
      requires Valid() && i < |xs|
    {
      && !Continued(i)
      && match BaseOf(i)
         case None => exists j :: 0 <= j < |xs| && Continued(j) && KeyOf(j) == KeyOf(i)
         case Some(b) => ContinuedChildren(b, |bases|) != {}
    }

    /** A side exchange; a group with nothing else keeps them as its main line. */
    ghost predicate Side(i: nat)
      requires Valid() && i < |xs|
    {
      BesideMain(i) && exists j :: 0 <= j < |xs| && !BesideMain(j) && KeyOf(j) == KeyOf(i)
    }
  }

  predicate DeclaresAnything(x: Exchange) {
    x.turnId.Some? || x.subagentId.Some? || x.parentSubagentId.Some?
  }

  lemma ChildrenNext(c: Session, b: nat, n: nat)
    requires n < |c.bases|
    ensures |c.Children(b, n + 1)| == |c.Children(b, n)| + if c.BaseOf(n) == Some(b) then 1 else 0
  {
    assert c.Children(b, n + 1) == c.Children(b, n) + (if c.BaseOf(n) == Some(b) then {n} else {});
  }

  lemma ContinuedNext(c: Session, b: nat, n: nat)
    requires n < |c.bases|
    ensures c.ContinuedWithin(b, n + 1) <==> c.ContinuedWithin(b, n) || c.BaseOf(n) == Some(b)
  {
  }

  lemma ContinuedChildrenNext(c: Session, b: nat, n: nat)
    requires n < |c.bases|
    ensures |c.ContinuedChildren(b, n + 1)|
            == |c.ContinuedChildren(b, n)| + if c.BaseOf(n) == Some(b) && c.Continued(n) then 1 else 0
  {
    assert c.ContinuedChildren(b, n + 1)
           == c.ContinuedChildren(b, n) + (if c.BaseOf(n) == Some(b) && c.Continued(n) then {n} else {});
  }

  /** `children` counts the children among the first `n` exchanges. */
  ghost predicate Counts(c: Session, children: seq<nat>, n: nat) {
    n <= |c.bases| && |children| == |c.xs| && forall b :: 0 <= b < |c.xs| ==> children[b] == |c.Children(b, n)|
  }

  /** `continued` flags the exchanges one of the first `n` continues. */
  ghost predicate Flags(c: Session, continued: seq<bool>, n: nat) {
    && n <= |c.bases| && |continued| == |c.xs|
    && forall b :: 0 <= b < |c.xs| ==> (continued[b] <==> c.ContinuedWithin(b, n))
  }

  /** `children` counts the continued children among the first `n` exchanges. */
  ghost predicate CountsContinued(c: Session, children: seq<nat>, n: nat) {
    n <= |c.bases| && |children| == |c.xs| && forall b :: 0 <= b < |c.xs| ==> children[b] == |c.ContinuedChildren(b, n)|
  }

  function Bumped(counts: seq<nat>, at: Option<nat>): (r: seq<nat>)
    requires at.Some? ==> at.value < |counts|
  {
    if at.Some? then counts[at.value := counts[at.value] + 1] else counts
  }

  lemma CountsNext(c: Session, children: seq<nat>, n: nat)
    requires c.Valid() && n < |c.bases| && Counts(c, children, n)
    ensures Counts(c, Bumped(children, c.BaseOf(n)), n + 1)
  {
    forall b: nat | b < |c.xs| { ChildrenNext(c, b, n); }
  }

  lemma FlagsNext(c: Session, continued: seq<bool>, n: nat)
    requires c.Valid() && n < |c.bases| && Flags(c, continued, n)
    ensures Flags(c, if c.BaseOf(n).Some? then continued[c.BaseOf(n).value := true] else continued, n + 1)
  {
    forall b: nat | b < |c.xs| { ContinuedNext(c, b, n); }
  }

  lemma CountsContinuedNext(c: Session, children: seq<nat>, n: nat)
    requires c.Valid() && n < |c.bases| && CountsContinued(c, children, n)
    ensures CountsContinued(c, Bumped(children, if c.Continued(n) then c.BaseOf(n) else None), n + 1)
  {
    forall b: nat | b < |c.xs| { ContinuedChildrenNext(c, b, n); }
  }

  /** Counts every base's children and notes which exchanges are continued. */
  method CountChildren(c: Session) returns (children: seq<nat>, continued: seq<bool>)
    requires c.Valid()
    ensures Counts(c, children, |c.xs|) && Flags(c, continued, |c.xs|)
  {
    children := seq(|c.xs|, _ => 0);
    continued := seq(|c.xs|, _ => false);
    for index := 0 to |c.xs|
      invariant Counts(c, children, index) && Flags(c, continued, index)
    {
      CountsNext(c, children, index);
      FlagsNext(c, continued, index);
      if c.BaseOf(index).Some? {
        var base := c.BaseOf(index).value;
        children := children[base := children[base] + 1];
        continued := continued[base := true];
      }
    }
  }

  /** Counts the continued ones among every base's children. */
  method CountContinuedChildren(c: Session, continued: seq<bool>) returns (children: seq<nat>)
    requires c.Valid() && Flags(c, continued, |c.xs|)
    ensures CountsContinued(c, children, |c.xs|)
  {
    children := seq(|c.xs|, _ => 0);
    for index := 0 to |c.xs|
      invariant CountsContinued(c, children, index)
    {
      CountsContinuedNext(c, children, index);
      if continued[index] && c.BaseOf(index).Some? {
        var base := c.BaseOf(index).value;
        children := children[base := children[base] + 1];
      }
    }
  }

  /** Gives every exchange its group, in session order. */
  method AssignGroups(c: Session, continued: seq<bool>, continuedChildren: seq<nat>) returns (groups: seq<Group>)
    requires c.Valid()
    requires Flags(c, continued, |c.xs|)
    requires CountsContinued(c, continuedChildren, |c.xs|)
    ensures |groups| == |c.xs| && forall i :: 0 <= i < |c.xs| ==> groups[i] == c.GroupOf(i)
  {
    var declared := exists i :: 0 <= i < |c.xs| && DeclaresAnything(c.xs[i]);
    groups := [];
    for index := 0 to |c.xs|
      invariant |groups| == index && forall i :: 0 <= i < index ==> groups[i] == c.GroupOf(i)
    {
      var group;
      if declared {
        group := DeclaredBy(c.xs[index].subagentId);
      } else {
        var base := c.Earlier(index);
        if base.Some? && !(continued[index] && continuedChildren[base.value] > 1) {
          group := groups[base.value];
        } else {
          group := Line(index);
        }
      }
      groups := groups + [group];
    }
  }

  /** The keys of the exchanges flagged so. */
  function KeysWhere(of: seq<Option<nat>>, groups: seq<Group>, flags: seq<bool>, flag: bool): (keys: set<Key>)
    requires |of| == |groups| == |flags|
  {
    set i | 0 <= i < |of| && flags[i] == flag :: (of[i], groups[i])
  }

  lemma KeysWhereHas(c: Session, groups: seq<Group>, flags: seq<bool>, flag: bool, i: nat)
    requires c.Valid() && |groups| == |flags| == |c.xs| && i < |c.xs|
    requires forall j :: 0 <= j < |c.xs| ==> groups[j] == c.GroupOf(j)
    ensures c.KeyOf(i) in KeysWhere(c.of, groups, flags, flag)
            <==> exists j :: 0 <= j < |c.xs| && flags[j] == flag && c.KeyOf(j) == c.KeyOf(i)
  {
    forall j | 0 <= j < |c.xs| ensures c.KeyOf(j) == (c.of[j], groups[j]) {
    }
  }

  /** Finds the side exchanges, then gives back those of a group that would
      have no main line. */
  method DetectSides(c: Session, continued: seq<bool>, continuedChildren: seq<nat>, groups: seq<Group>)
    returns (sides: seq<bool>)
    requires c.Valid()
    requires Flags(c, continued, |c.xs|)
    requires CountsContinued(c, continuedChildren, |c.xs|)
    requires |groups| == |c.xs| && forall i :: 0 <= i < |c.xs| ==> groups[i] == c.GroupOf(i)
    ensures |sides| == |c.xs| && forall i :: 0 <= i < |c.xs| ==> (sides[i] <==> c.Side(i))
  {
    var beside := DetectBeside(c, continued, continuedChildren, groups);
    var withMain := KeysWhere(c.of, groups, beside, false);
    sides := beside;
    for index := 0 to |c.xs|
      invariant |sides| == |c.xs|
      invariant forall i :: 0 <= i < index ==> (sides[i] <==> c.Side(i))
      invariant forall i :: index <= i < |c.xs| ==> sides[i] == beside[i]
    {
      KeysWhereHas(c, groups, beside, false, index);
      if (c.of[index], groups[index]) !in withMain {
        sides := sides[index := false];
      }
    }
  }

  method DetectBeside(c: Session, continued: seq<bool>, continuedChildren: seq<nat>, groups: seq<Group>)
    returns (beside: seq<bool>)
    requires c.Valid()
    requires Flags(c, continued, |c.xs|)
    requires CountsContinued(c, continuedChildren, |c.xs|)
    requires |groups| == |c.xs| && forall i :: 0 <= i < |c.xs| ==> groups[i] == c.GroupOf(i)
    ensures |beside| == |c.xs| && forall i :: 0 <= i < |c.xs| ==> (beside[i] <==> c.BesideMain(i))
  {
    var hasContinued := KeysWhere(c.of, groups, continued, true);
    beside := [];
    for index := 0 to |c.xs|
      invariant |beside| == index && forall i :: 0 <= i < index ==> (beside[i] <==> c.BesideMain(i))
    {
      KeysWhereHas(c, groups, continued, true, index);
      var base := c.BaseOf(index);
      beside := beside + [!continued[index] && (if base.None? then (c.of[index], groups[index]) in hasContinued
                                                else continuedChildren[base.value] > 0)];
    }
  }

  /** Every member is an exchange that stands in segment `s`. */
  ghost predicate AllIn(members: seq<nat>, segmentOf: seq<nat>, s: nat) {
    forall k :: 0 <= k < |members| ==> members[k] < |segmentOf| && segmentOf[members[k]] == s
  }

  /** The first `n` exchanges fall into non-empty, strictly increasing
      segments ordered by their heads. */
  ghost predicate Partition(segments: seq<Segment>, segmentOf: seq<nat>, n: nat) {
    && |segmentOf| == n
    && (forall i :: 0 <= i < n ==> segmentOf[i] < |segments|)
    && (forall s :: 0 <= s < |segments| ==> segments[s].exchanges != [] && Increasing(segments[s].exchanges))
    && (forall s, t :: 0 <= s < t < |segments| ==> segments[s].Head() < segments[t].Head())
    && (forall s :: 0 <= s < |segments| ==> AllIn(segments[s].exchanges, segmentOf, s))
    && (forall i :: 0 <= i < n ==> i in segments[segmentOf[i]].exchanges)
  }

  /** A side segment is one side exchange; a main segment holds every
      exchange of its turn and group that is none. */
  ghost predicate HoldsItsGroup(c: Session, segment: Segment, n: nat)
    requires c.Valid() && n <= |c.xs|
  {
    && segment.exchanges != [] && segment.Head() < n
    && segment.group == c.GroupOf(segment.Head())
    && (segment.side <==> c.Side(segment.Head()))
    && (segment.side ==> segment.exchanges == [segment.Head()])
    && (!segment.side ==> forall i :: 0 <= i < n ==>
          (i in segment.exchanges <==> !c.Side(i) && c.KeyOf(i) == c.KeyOf(segment.Head())))
  }

  /** A segment hangs where its head's strictly earlier base is. */
  ghost predicate HangsFromItsBase(c: Session, segment: Segment, s: nat, segmentOf: seq<nat>)
    requires c.Valid()
  {
    && segment.Head() < |c.xs|
    && var base := c.Earlier(segment.Head());
       && (base.None? ==> segment.parent == None && segment.kind == Root)
       && (base.Some? ==>
             && base.value < |segmentOf| && segment.parent == Some(segmentOf[base.value])
             && segmentOf[base.value] < s
             && segment.kind == if |c.Children(base.value, |c.xs|)| > 1 then Branch else Turn)
  }

  /** The segmentation of a session. */
  ghost predicate IsSegmentation(c: Session, r: Segmentation)
    requires c.Valid()
  {
    && Partition(r.segments, r.segmentOf, |c.xs|)
    && (forall s :: 0 <= s < |r.segments| ==> HoldsItsGroup(c, r.segments[s], |c.xs|))
    && (forall s :: 0 <= s < |r.segments| ==> HangsFromItsBase(c, r.segments[s], s, r.segmentOf))
  }

  /** The main segment of each key among the first `n` exchanges. */
  ghost predicate MainOf(c: Session, segments: seq<Segment>, mainOf: map<Key, nat>, n: nat)
    requires c.Valid() && n <= |c.xs|
  {
    && (forall k :: k in mainOf ==>
          && mainOf[k] < |segments| && !segments[mainOf[k]].side
          && segments[mainOf[k]].Head() < n && c.KeyOf(segments[mainOf[k]].Head()) == k)
    && (forall i :: 0 <= i < n && !c.Side(i) ==> c.KeyOf(i) in mainOf)
  }

  /** Everything the loop knows of the first `n` exchanges. */
  ghost predicate Built(c: Session, segments: seq<Segment>, segmentOf: seq<nat>, mainOf: map<Key, nat>, n: nat)
    requires c.Valid()
  {
    && n <= |c.xs|
    && Partition(segments, segmentOf, n)
    && (forall s :: 0 <= s < |segments| ==> HoldsItsGroup(c, segments[s], n))
    && (forall s :: 0 <= s < |segments| ==> HangsFromItsBase(c, segments[s], s, segmentOf))
    && MainOf(c, segments, mainOf, n)
  }

  function Opening(c: Session, children: seq<nat>, segmentOf: seq<nat>, group: Group, side: bool, i: nat): Segment
    requires i < |c.bases| && |segmentOf| == i <= |children|
  {
    var base := c.Earlier(i);
    Segment(if base.None? then Root else if children[base.value] > 1 then Branch else Turn,
            if base.None? then None else Some(segmentOf[base.value]),
            [i], group, side)
  }

  // A new segment for exchange `i`, part by part.

  lemma OpensPartition(segments: seq<Segment>, segmentOf: seq<nat>, opening: Segment, i: nat)
    requires Partition(segments, segmentOf, i) && opening.exchanges == [i]
    ensures Partition(segments + [opening], segmentOf + [|segments|], i + 1)
  {
    forall s | 0 <= s < |segments|
      ensures segments[s].Head() < i && AllIn(segments[s].exchanges, segmentOf + [|segments|], s)
    {
      assert AllIn(segments[s].exchanges, segmentOf, s);
    }
  }

  /** A segment that does not take exchange `i` still holds its group when
      `i` is a side exchange or has another key. */
  lemma KeepsGroup(c: Session, segment: Segment, segmentOf: seq<nat>, s: nat, i: nat)
    requires c.Valid() && i < |c.xs| && |segmentOf| == i && HoldsItsGroup(c, segment, i)
    requires AllIn(segment.exchanges, segmentOf, s)
    requires segment.side || c.Side(i) || c.KeyOf(segment.Head()) != c.KeyOf(i)
    ensures HoldsItsGroup(c, segment, i + 1)
  {
  }

  lemma OpensGroup(c: Session, segments: seq<Segment>, mainOf: map<Key, nat>, opening: Segment, i: nat)
    requires c.Valid() && i < |c.xs| && MainOf(c, segments, mainOf, i)
    requires opening.exchanges == [i] && opening.group == c.GroupOf(i) && opening.side == c.Side(i)
    requires !opening.side ==> c.KeyOf(i) !in mainOf
    ensures HoldsItsGroup(c, opening, i + 1)
  {
    if !opening.side {
      forall j | 0 <= j < i && !c.Side(j) ensures c.KeyOf(j) != c.KeyOf(i) {
        assert c.KeyOf(j) in mainOf;
      }
    }
  }

  lemma OpensGroups(c: Session, segments: seq<Segment>, segmentOf: seq<nat>, mainOf: map<Key, nat>, opening: Segment,
                    i: nat)
    requires c.Valid() && i < |c.xs| && MainOf(c, segments, mainOf, i)
    requires Partition(segments, segmentOf, i)
    requires forall s :: 0 <= s < |segments| ==> HoldsItsGroup(c, segments[s], i)
    requires opening.exchanges == [i] && opening.group == c.GroupOf(i) && opening.side == c.Side(i)
    requires !opening.side ==> c.KeyOf(i) !in mainOf
    ensures forall s :: 0 <= s < |segments| ==> HoldsItsGroup(c, segments[s], i + 1)
    ensures HoldsItsGroup(c, opening, i + 1)
  {
    OpensGroup(c, segments, mainOf, opening, i);
    forall s | 0 <= s < |segments| ensures HoldsItsGroup(c, segments[s], i + 1) {
      var h := segments[s].Head();
      assert HoldsItsGroup(c, segments[s], i) && AllIn(segments[s].exchanges, segmentOf, s);
      assert !segments[s].side ==> c.KeyOf(h) in mainOf;
      KeepsGroup(c, segments[s], segmentOf, s, i);
    }
  }

  lemma OpensHang(c: Session, children: seq<nat>, segments: seq<Segment>, segmentOf: seq<nat>, i: nat, side: bool)
    requires c.Valid() && i < |c.xs| && Counts(c, children, |c.xs|)
    requires Partition(segments, segmentOf, i)
    requires forall s :: 0 <= s < |segments| ==> HangsFromItsBase(c, segments[s], s, segmentOf)
    ensures forall s :: 0 <= s < |segments| ==> HangsFromItsBase(c, segments[s], s, segmentOf + [|segments|])
    ensures HangsFromItsBase(c, Opening(c, children, segmentOf, c.GroupOf(i), side, i), |segments|,
                             segmentOf + [|segments|])
  {
    forall s | 0 <= s < |segments| ensures HangsFromItsBase(c, segments[s], s, segmentOf + [|segments|]) {
      assert HangsFromItsBase(c, segments[s], s, segmentOf);
    }
  }

  lemma OpensMain(c: Session, segments: seq<Segment>, mainOf: map<Key, nat>, opening: Segment, i: nat)
    requires c.Valid() && i < |c.xs| && MainOf(c, segments, mainOf, i)
    requires opening.exchanges == [i] && opening.side == c.Side(i)
    ensures MainOf(c, segments + [opening], if opening.side then mainOf else mainOf[c.KeyOf(i) := |segments|], i + 1)
  {
  }

  /** An exchange without a main segment yet, or a side exchange, opens one. */
  lemma OpensSegment(c: Session, children: seq<nat>, segments: seq<Segment>, segmentOf: seq<nat>,
                     mainOf: map<Key, nat>, i: nat, side: bool)
    requires c.Valid() && i < |c.xs| && Counts(c, children, |c.xs|)
    requires Built(c, segments, segmentOf, mainOf, i)
    requires side == c.Side(i) && (!side ==> c.KeyOf(i) !in mainOf)
    ensures Built(c, segments + [Opening(c, children, segmentOf, c.GroupOf(i), side, i)], segmentOf + [|segments|],
                  if side then mainOf else mainOf[c.KeyOf(i) := |segments|], i + 1)
  {
    var opening := Opening(c, children, segmentOf, c.GroupOf(i), side, i);
    OpensPartition(segments, segmentOf, opening, i);
    OpensGroups(c, segments, segmentOf, mainOf, opening, i);
    OpensHang(c, children, segments, segmentOf, i, side);
    OpensMain(c, segments, mainOf, opening, i);
  }

  // Exchange `i` behind the others of a main segment, part by part.

  function Joined(segment: Segment, i: nat): Segment {
    segment.(exchanges := segment.exchanges + [i])
  }

  lemma JoinsPartition(segments: seq<Segment>, segmentOf: seq<nat>, m: nat, i: nat)
    requires Partition(segments, segmentOf, i) && m < |segments|
    ensures Partition(segments[m := Joined(segments[m], i)], segmentOf + [m], i + 1)
  {
    var more := segments[m := Joined(segments[m], i)];
    assert AllIn(segments[m].exchanges, segmentOf, m);
    assert more[m].Head() == segments[m].Head();
    forall s | 0 <= s < |more| ensures AllIn(more[s].exchanges, segmentOf + [m], s) {
      assert AllIn(segments[s].exchanges, segmentOf, s);
    }
    forall j | 0 <= j < i + 1 ensures j in more[(segmentOf + [m])[j]].exchanges {
      assert j < i ==> j in segments[segmentOf[j]].exchanges;
      assert more[m].exchanges[|segments[m].exchanges|] == i;
    }
  }

  lemma JoinsGroups(c: Session, segments: seq<Segment>, segmentOf: seq<nat>, m: nat, i: nat)
    requires c.Valid() && i < |c.xs| && m < |segments| && !c.Side(i) && !segments[m].side
    requires Partition(segments, segmentOf, i)
    requires forall s :: 0 <= s < |segments| ==> HoldsItsGroup(c, segments[s], i)
    requires segments[m].Head() < |c.xs|
    requires c.KeyOf(segments[m].Head()) == c.KeyOf(i)
    ensures var more := segments[m := Joined(segments[m], i)];
      forall s :: 0 <= s < |more| ==> HoldsItsGroup(c, more[s], i + 1)
  {
    var h := segments[m].Head();
    assert HoldsItsGroup(c, segments[m], i);
    JoinsGroup(c, segments[m], i);
    assert AllIn(segments[m].exchanges, segmentOf, m) && segmentOf[h] == m;
    forall s | 0 <= s < |segments| && s != m ensures HoldsItsGroup(c, segments[s], i + 1) {
      assert HoldsItsGroup(c, segments[s], i) && AllIn(segments[s].exchanges, segmentOf, s);
      if !segments[s].side && c.KeyOf(segments[s].Head()) == c.KeyOf(i) {
        assert false;
      }
      KeepsGroup(c, segments[s], segmentOf, s, i);
    }
  }

  lemma JoinsGroup(c: Session, segment: Segment, i: nat)
    requires c.Valid() && i < |c.xs| && HoldsItsGroup(c, segment, i)
    requires !segment.side && !c.Side(i) && c.KeyOf(segment.Head()) == c.KeyOf(i)
    ensures HoldsItsGroup(c, Joined(segment, i), i + 1)
  {
    assert Joined(segment, i).Head() == segment.Head();
  }

  lemma JoinsHang(c: Session, segments: seq<Segment>, segmentOf: seq<nat>, m: nat, i: nat)
    requires c.Valid() && m < |segments| && segments[m].exchanges != []
    requires forall s :: 0 <= s < |segments| ==> HangsFromItsBase(c, segments[s], s, segmentOf)
    ensures var more := segments[m := Joined(segments[m], i)];
      forall s :: 0 <= s < |more| ==> HangsFromItsBase(c, more[s], s, segmentOf + [m])
  {
    var more := segments[m := Joined(segments[m], i)];
    assert more[m].Head() == segments[m].Head();
    forall s | 0 <= s < |more| ensures HangsFromItsBase(c, more[s], s, segmentOf + [m]) {
      assert HangsFromItsBase(c, segments[s], s, segmentOf);
    }
  }

  lemma JoinsMain(c: Session, segments: seq<Segment>, mainOf: map<Key, nat>, i: nat)
    requires c.Valid() && i < |c.xs| && MainOf(c, segments, mainOf, i) && c.KeyOf(i) in mainOf
    requires segments[mainOf[c.KeyOf(i)]].exchanges != []
    ensures MainOf(c, segments[mainOf[c.KeyOf(i)] := Joined(segments[mainOf[c.KeyOf(i)]], i)], mainOf, i + 1)
  {
    var m := mainOf[c.KeyOf(i)];
    assert Joined(segments[m], i).Head() == segments[m].Head();
  }

  /** An exchange joins the main segment of its key. */
  lemma JoinsSegment(c: Session, segments: seq<Segment>, segmentOf: seq<nat>, mainOf: map<Key, nat>, i: nat)
    requires c.Valid() && i < |c.xs| && Built(c, segments, segmentOf, mainOf, i)
    requires !c.Side(i) && c.KeyOf(i) in mainOf
    ensures var m := mainOf[c.KeyOf(i)];
      Built(c, segments[m := Joined(segments[m], i)], segmentOf + [m], mainOf, i + 1)
  {
    var m := mainOf[c.KeyOf(i)];
    JoinsPartition(segments, segmentOf, m, i);
    JoinsGroups(c, segments, segmentOf, m, i);
    JoinsHang(c, segments, segmentOf, m, i);
    JoinsMain(c, segments, mainOf, i);
  }

  /** Exchange `i` in its segment: its key's main segment, or one of its own. */
  method Place(ghost c: Session, opening: Segment, key: Key, segments: seq<Segment>, segmentOf: seq<nat>,
               mainOf: map<Key, nat>, i: nat, ghost children: seq<nat>)
    returns (more: seq<Segment>, at: nat, mains: map<Key, nat>)
    requires c.Valid() && i < |c.xs| && Counts(c, children, |c.xs|)
    requires Built(c, segments, segmentOf, mainOf, i)
    requires key == c.KeyOf(i) && opening == Opening(c, children, segmentOf, c.GroupOf(i), c.Side(i), i)
    ensures Built(c, more, segmentOf + [at], mains, i + 1)
  {
    if !opening.side && key in mainOf {
      JoinsSegment(c, segments, segmentOf, mainOf, i);
      at, mains := mainOf[key], mainOf;
      more := segments[at := segments[at].(exchanges := segments[at].exchanges + [i])];
    } else {
      OpensSegment(c, children, segments, segmentOf, mainOf, i, opening.side);
      at, more := |segments|, segments + [opening];
      mains := if opening.side then mainOf else mainOf[key := at];
    }
  }

  /** Groups each turn's exchanges and makes every main line, and every side
      exchange, a segment. */
  method Cut(xs: seq<Exchange>, bases: seq<Base>, turns: Turns) returns (r: Segmentation)
    requires Session(xs, bases, turns.of).Valid()
    ensures IsSegmentation(Session(xs, bases, turns.of), r)
  {
    var c := Session(xs, bases, turns.of);
    var children, continued := CountChildren(c);
    var continuedChildren := CountContinuedChildren(c, continued);
    var groups := AssignGroups(c, continued, continuedChildren);
    var sides := DetectSides(c, continued, continuedChildren, groups);
    var segments: seq<Segment> := [];
    var segmentOf: seq<nat> := [];
    var mainOf: map<Key, nat> := map[];
    for index := 0 to |xs|
      invariant Built(c, segments, segmentOf, mainOf, index)
    {
      var opening := Opening(c, children, segmentOf, groups[index], sides[index], index);
      var at;
      var key := (c.of[index], groups[index]);
      segments, at, mainOf := Place(c, opening, key, segments, segmentOf, mainOf, index, children);
      segmentOf := segmentOf + [at];
    }
    r := Segmentation(segments, segmentOf);
  }
}
