/** What a reader finds of segments, runs and counts, field by field, in terms
    of the session's exchanges, their bases and their turns. */
module StreamFields {
  import opened Collections
  import opened Exchanges
  import opened Segmentation
  import opened StreamLaws
  import opened Streams
  import opened Turns

  /** The turn of an exchange, as readers number and name it. */
  ghost predicate TellsTurn(turns: Turns, i: nat, turnId: Option<string>, turn: Option<int>)
    requires i < |turns.of|
  {
    match turns.of[i]
    case None => turnId == None && turn == None
    case Some(t) => t < |turns.ids| && turnId == Some(turns.ids[t]) && turn == Some(t + 1)
  }

  /** A segment of `members` begins with the earliest of them and ends with the latest. */
  ghost predicate Spans(xs: seq<Exchange>, members: seq<nat>, start: int, end: int) {
    && (forall i :: i in members ==> i < |xs| && start <= xs[i].at && xs[i].end <= end)
    && (exists i :: i in members && i < |xs| && xs[i].at == start)
    && exists i :: i in members && i < |xs| && xs[i].end == end
  }

  /** `segment` is named, dated, counted and numbered by its members. */
  ghost predicate TellsMembers(xs: seq<Exchange>, turns: Turns, members: seq<nat>, segment: StreamSegment) {
    && members != [] && members[0] < |xs| && members[0] < |turns.of|
    && segment.head == xs[members[0]].id && segment.subagentId == xs[members[0]].subagentId
    && segment.exchangeCount == |members|
    && Spans(xs, members, segment.start, segment.end)
    && TellsTurn(turns, members[0], segment.turnId, segment.turn)
  }

  lemma TimesSpan(xs: seq<Exchange>, st: SessionStructure, members: seq<nat>)
    requires st.exchanges == Drained(xs) && members != [] && forall k :: 0 <= k < |members| ==> members[k] < |xs|
    ensures Spans(xs, members, Earliest(st.Starts(members)), LatestOf(st.Ends(members)))
  {
    var starts, ends := st.Starts(members), st.Ends(members);
    var a :| 0 <= a < |starts| && starts[a] == Earliest(starts);
    var b :| 0 <= b < |ends| && ends[b] == LatestOf(ends);
    assert members[a] in members && members[b] in members;
    forall i | i in members ensures Earliest(starts) <= xs[i].at && xs[i].end <= LatestOf(ends) {
      var k :| 0 <= k < |members| && members[k] == i;
      assert starts[k] in starts && ends[k] in ends;
    }
  }

  /** Every segment tells its members in every field. */
  lemma SegmentsTell(events: seq<StreamEvent>, st: SessionStructure, s: nat)
    requires Derived(events, st) && s < |st.segments|
    ensures TellsMembers(Grouped(events), st.turns, st.segmentation.segments[s].exchanges, st.segments[s])
    ensures st.segments[s].kind == st.segmentation.segments[s].kind
  {
    assert st.segments[s] == st.SegmentAt(s);
    MembersTell(Grouped(events), st, s);
  }

  lemma MembersTell(xs: seq<Exchange>, st: SessionStructure, s: nat)
    requires st.Valid() && st.exchanges == Drained(xs) && s < |st.segmentation.segments|
    ensures TellsMembers(xs, st.turns, st.segmentation.segments[s].exchanges, st.SegmentAt(s))
  {
    var members := st.segmentation.segments[s].exchanges;
    assert AllIn(members, st.segmentation.segmentOf, s);
    TimesSpan(xs, st, members);
  }

  /** The counts of the session. */
  lemma CountsAreKept(events: seq<StreamEvent>, st: SessionStructure)
    requires Derived(events, st)
    ensures st.summary.exchanges == |Grouped(events)| && st.summary.segments == |st.segmentation.segments|
    ensures st.summary.turns == |TurnIds(Grouped(events), |Grouped(events)|)|
  {
  }

  // ----- Runs

  /** What a run says of an exchange's sides and declarations. */
  ghost predicate TellsExchange(x: Exchange, e: SegmentExchange) {
    && e.id == x.id && e.subagentId == x.subagentId && e.parentSubagentId == x.parentSubagentId
    && (x.request.None? ==> e.requestPk == None && e.newFrom == None && !e.startsTurn)
    && (x.request.Some? ==>
          && e.requestPk == Some(x.request.value.pk) && e.newFrom == Some(x.request.value.facts.newFrom)
          && (e.startsTurn <==> x.request.value.facts.startsTurn))
    && e.responsePk == (if x.response.Some? then Some(x.response.value.pk) else None)
  }

  /** What a run says of an exchange's base: its id, its segment and the rule,
      or the reason that there is none. */
  ghost predicate TellsBase(xs: seq<Exchange>, st: SessionStructure, i: nat, e: SegmentExchange)
    requires st.Valid() && |st.segments| == |st.segmentation.segments| && i < |st.exchanges| == |xs|
  {
    match st.bases[i]
    case Err(reason) => e.base == None && e.baseSegment == None && e.rule == None && e.noBaseReason == Some(reason)
    case Ok((b, rule)) =>
      && b < |xs| && e.base == Some(xs[b].id) && e.rule == Some(rule) && e.noBaseReason == None
      && e.baseSegment == Some(st.segments[st.segmentation.segmentOf[b]].head)
  }

  ghost predicate TellsRun(xs: seq<Exchange>, st: SessionStructure, members: seq<nat>, run: SegmentRun)
    requires st.Valid() && |st.segments| == |st.segmentation.segments| && |st.exchanges| == |xs|
  {
    && (forall k :: 0 <= k < |members| ==> members[k] < |xs|)
    && |run.exchanges| == |members|
    && forall k :: 0 <= k < |members| ==>
         && TellsExchange(xs[members[k]], run.exchanges[k]) && TellsBase(xs, st, members[k], run.exchanges[k])
         && TellsTurn(st.turns, members[k], run.exchanges[k].turnId, run.exchanges[k].turn)
  }

  lemma ExchangeTells(events: seq<StreamEvent>, st: SessionStructure, i: nat)
    requires Derived(events, st) && i < |Grouped(events)|
    ensures TellsExchange(Grouped(events)[i], st.ExchangeAt(i))
    ensures TellsTurn(st.turns, i, st.ExchangeAt(i).turnId, st.ExchangeAt(i).turn)
  {
  }

  lemma BaseTells(events: seq<StreamEvent>, st: SessionStructure, i: nat)
    requires Derived(events, st) && i < |Grouped(events)|
    ensures TellsBase(Grouped(events), st, i, st.ExchangeAt(i))
  {
    if st.bases[i].Ok? {
      var s := st.segmentation.segmentOf[st.bases[i].value.0];
      assert st.segments[s] == st.SegmentAt(s);
    }
  }

  /** `run` names the segment of `i`, the first exchange with the asked id, and
      tells every exchange of it from `i` on. */
  ghost predicate TellsRunFrom(xs: seq<Exchange>, st: SessionStructure, from: string, i: nat, members: seq<nat>,
                               run: SegmentRun)
    requires st.Valid() && |st.segments| == |st.segmentation.segments| && |st.exchanges| == |xs|
  {
    && FirstNamed(xs, from, i) && Rest(st, i, members) && TellsRun(xs, st, members, run)
    && run.segment == st.segments[st.segmentation.segmentOf[i]].head
  }

  /** A run tells its exchanges in every field. */
  lemma RunsTell(events: seq<StreamEvent>, st: SessionStructure, from: string)
    requires Derived(events, st) && st.RunFrom(from).Some?
    ensures exists i, members :: TellsRunFrom(Grouped(events), st, from, i, members, st.RunFrom(from).value)
  {
    RunsAreSuffixes(Grouped(events), st, from);
    var i: nat, members: seq<nat> :| FirstNamed(Grouped(events), from, i)
                                     && IsRunFrom(st, i, members, st.RunFrom(from).value);
    RunTells(events, st, from, i, members, st.RunFrom(from).value);
  }

  lemma RunTells(events: seq<StreamEvent>, st: SessionStructure, from: string, i: nat, members: seq<nat>,
                 run: SegmentRun)
    requires Derived(events, st) && FirstNamed(Grouped(events), from, i) && IsRunFrom(st, i, members, run)
    ensures TellsRunFrom(Grouped(events), st, from, i, members, run)
  {
    RunOfMembers(events, st, members, run);
    HeadOfRun(events, st, st.segmentation.segmentOf[i]);
  }

  lemma HeadOfRun(events: seq<StreamEvent>, st: SessionStructure, s: nat)
    requires Derived(events, st) && s < |st.segments|
    ensures st.segments[s].head == st.SegmentHead(s)
  {
    assert st.segments[s] == st.SegmentAt(s);
  }

  lemma RunOfMembers(events: seq<StreamEvent>, st: SessionStructure, members: seq<nat>, run: SegmentRun)
    requires Derived(events, st) && forall k :: 0 <= k < |members| ==> members[k] < |Grouped(events)|
    requires run.exchanges == st.ExchangesAt(members)
    ensures TellsRun(Grouped(events), st, members, run)
  {
    forall k | 0 <= k < |members|
      ensures TellsExchange(Grouped(events)[members[k]], run.exchanges[k])
      ensures TellsBase(Grouped(events), st, members[k], run.exchanges[k])
      ensures TellsTurn(st.turns, members[k], run.exchanges[k].turnId, run.exchanges[k].turn)
    {
      ExchangeTells(events, st, members[k]);
      BaseTells(events, st, members[k]);
    }
  }
}
