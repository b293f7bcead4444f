/** The structure of one session: every pass over its events in turn, and what
    a reader finds in the result. */
module Streams {
  import opened BaseLaws
  import opened Bases
  import opened Collections
  import opened Exchanges
  import opened Segmentation
  import opened SegmentLaws
  import opened Turns

  /** A segment described for readers: names and times in place of numbers. */
  datatype StreamSegment = StreamSegment(
    head: string,
    kind: SegmentKind,
    parent: Option<string>,
    forkedFrom: Option<string>,
    start: int,
    end: int,
    exchangeCount: nat,
    turnId: Option<string>,
    turn: Option<int>,
    subagentId: Option<string>)

  datatype StreamSummary = StreamSummary(exchanges: nat, turns: nat, segments: nat)

  /** Where an event stands in its session. */
  datatype EventLocation = EventLocation(segment: string, turn: Option<int>, segmentKind: SegmentKind, exchange: string)

  /** One exchange of a segment, as a reader of the segment sees it. */
  datatype SegmentExchange = SegmentExchange(
    id: string,
    requestPk: Option<int>,
    responsePk: Option<int>,
    base: Option<string>,
    baseSegment: Option<string>,
    rule: Option<BaseRule>,
    noBaseReason: Option<NoBaseReason>,
    newFrom: Option<int>,
    startsTurn: bool,
    subagentId: Option<string>,
    parentSubagentId: Option<string>,
    turnId: Option<string>,
    turn: Option<int>)

  datatype SegmentRun = SegmentRun(segment: string, exchanges: seq<SegmentExchange>)

  function Earliest(ts: seq<int>): (t: int)
    ensures ts != [] ==> t in ts && forall x :: x in ts ==> t <= x
  {
    if ts == [] then 0
    else if |ts| == 1 then ts[0]
    else
      var t := Earliest(ts[..|ts| - 1]);
      assert ts == ts[..|ts| - 1] + [ts[|ts| - 1]];
      if ts[|ts| - 1] < t then ts[|ts| - 1] else t
  }

  function LatestOf(ts: seq<int>): (t: int)
    ensures ts != [] ==> t in ts && forall x :: x in ts ==> x <= t
  {
    if ts == [] then 0
    else if |ts| == 1 then ts[0]
    else
      var t := LatestOf(ts[..|ts| - 1]);
      assert ts == ts[..|ts| - 1] + [ts[|ts| - 1]];
      if ts[|ts| - 1] > t then ts[|ts| - 1] else t
  }

  /** One-based, as turns are numbered for readers. */
  function Number(turn: nat): int {
    turn + 1
  }

  /** The exchange with the keys of its events taken out. */
  function Drained(xs: seq<Exchange>): (ys: seq<Exchange>)
    ensures |ys| == |xs| && forall i :: 0 <= i < |xs| ==> ys[i] == xs[i].(eventPks := [])
  {
    seq(|xs|, i requires 0 <= i < |xs| => xs[i].(eventPks := []))
  }

  datatype SessionStructure = SessionStructure(
    exchanges: seq<Exchange>,
    bases: seq<Base>,
    turns: Turns,
    segmentation: Segmentation,
    segments: seq<StreamSegment>,
    summary: StreamSummary,
    exchangeById: map<string, nat>,
    eventToExchange: map<int, nat>)
  {
    /** Every index kept names an exchange, a turn or a segment. */
    ghost predicate Valid() {
      && |bases| == |exchanges| == |turns.of|
      && BasesWithin(bases, |exchanges|)
      && (forall i :: 0 <= i < |turns.of| && turns.of[i].Some? ==> turns.of[i].value < |turns.ids|)
      && Partition(segmentation.segments, segmentation.segmentOf, |exchanges|)
      && (forall s :: 0 <= s < |segmentation.segments| ==> segmentation.segments[s].parent.Some? ==>
            segmentation.segments[s].parent.value < |segmentation.segments|)
    }

    function TurnOf(i: nat): (Option<string>, Option<int>)
      requires Valid() && i < |exchanges|
    {
      match turns.of[i]
      case None => (None, None)
      case Some(turn) => (Some(turns.ids[turn]), Some(Number(turn)))
    }

    function BaseOf(i: nat): (b: Option<nat>)
      requires i < |bases|
    {
      if bases[i].Ok? then Some(bases[i].value.0) else None
    }

    /** The first exchange of a segment. */
    function HeadOf(s: nat): (h: nat)
      requires Valid() && s < |segmentation.segments|
      ensures h < |exchanges| && h in segmentation.segments[s].exchanges
    {
      assert AllIn(segmentation.segments[s].exchanges, segmentation.segmentOf, s);
      segmentation.segments[s].exchanges[0]
    }

    function SegmentHead(s: nat): string
      requires Valid() && s < |segmentation.segments|
    {
      exchanges[HeadOf(s)].id
    }

    function Starts(members: seq<nat>): (times: seq<int>)
      requires forall k :: 0 <= k < |members| ==> members[k] < |exchanges|
      ensures |times| == |members| && forall k :: 0 <= k < |members| ==> times[k] == exchanges[members[k]].at
    {
      seq(|members|, k requires 0 <= k < |members| => exchanges[members[k]].at)
    }

    function Ends(members: seq<nat>): (times: seq<int>)
      requires forall k :: 0 <= k < |members| ==> members[k] < |exchanges|
      ensures |times| == |members| && forall k :: 0 <= k < |members| ==> times[k] == exchanges[members[k]].end
    {
      seq(|members|, k requires 0 <= k < |members| => exchanges[members[k]].end)
    }

    function SegmentAt(s: nat): StreamSegment
      requires Valid() && s < |segmentation.segments|
    {
      var segment := segmentation.segments[s];
      var first := HeadOf(s);
      assert AllIn(segment.exchanges, segmentation.segmentOf, s);
      StreamSegment(
        exchanges[first].id,
        segment.kind,
        if segment.parent.Some? then Some(SegmentHead(segment.parent.value)) else None,
        if segment.parent.Some? && BaseOf(first).Some? then Some(exchanges[BaseOf(first).value].id) else None,
        Earliest(Starts(segment.exchanges)),
        LatestOf(Ends(segment.exchanges)),
        |segment.exchanges|,
        TurnOf(first).0,
        TurnOf(first).1,
        exchanges[first].subagentId)
    }

    function ExchangeAt(i: nat): SegmentExchange
      requires Valid() && i < |exchanges|
    {
      var x := exchanges[i];
      var base := BaseOf(i);
      SegmentExchange(
        x.id,
        if x.request.Some? then Some(x.request.value.pk) else None,
        if x.response.Some? then Some(x.response.value.pk) else None,
        if base.Some? then Some(exchanges[base.value].id) else None,
        if base.Some? then Some(SegmentHead(segmentation.segmentOf[base.value])) else None,
        if bases[i].Ok? then Some(bases[i].value.1) else None,
        if bases[i].Err? then Some(bases[i].error) else None,
        if x.request.Some? then Some(x.request.value.facts.newFrom) else None,
        x.StartsTurn(),
        x.subagentId,
        x.parentSubagentId,
        TurnOf(i).0,
        TurnOf(i).1)
    }

    function ExchangesAt(members: seq<nat>): (r: seq<SegmentExchange>)
      requires Valid() && forall k :: 0 <= k < |members| ==> members[k] < |exchanges|
      ensures |r| == |members| && forall k :: 0 <= k < |r| ==> r[k] == ExchangeAt(members[k])
    {
      seq(|members|, k requires 0 <= k < |members| => ExchangeAt(members[k]))
    }

    /** The rest of a segment, none for an id that leads nowhere. */
    function RunFrom(from: string): (run: Option<SegmentRun>)
      requires Valid()
      requires forall id :: id in exchangeById ==> exchangeById[id] < |exchanges|
    {
      if from !in exchangeById then None
      else
        var i := exchangeById[from];
        var s := segmentation.segmentOf[i];
        var members := segmentation.segments[s].exchanges;
        assert AllIn(members, segmentation.segmentOf, s);
        match FirstPosition(members, IsExchange(i))
        case None => None
        case Some(k) => Some(SegmentRun(SegmentHead(s), ExchangesAt(members[k..])))
    }

    /** The head of the segment of one event. */
    function EventSegment(pk: int): (head: Option<string>)
      requires Valid()
      requires forall pk :: pk in eventToExchange ==> eventToExchange[pk] < |exchanges|
    {
      if pk !in eventToExchange then None
      else Some(SegmentHead(segmentation.segmentOf[eventToExchange[pk]]))
    }

    /** The segment and exchange of one event. */
    function EventPosition(pk: int): (location: Option<EventLocation>)
      requires Valid() && |segments| == |segmentation.segments|
      requires forall pk :: pk in eventToExchange ==> eventToExchange[pk] < |exchanges|
    {
      if pk !in eventToExchange then None
      else
        var i := eventToExchange[pk];
        var s := segmentation.segmentOf[i];
        Some(EventLocation(SegmentHead(s), TurnOf(i).1, segments[s].kind, exchanges[i].id))
    }
  }

  function IsExchange(i: nat): nat -> bool {
    (j: nat) => j == i
  }

  /** Every id of the first `n` exchanges leads to the first that has it. */
  ghost predicate NamesFirst(byId: map<string, nat>, xs: seq<Exchange>, n: nat)
    requires n <= |xs|
  {
    && (forall id :: id in byId ==>
          byId[id] < n && xs[byId[id]].id == id && forall i :: 0 <= i < byId[id] ==> xs[i].id != id)
    && (forall i :: 0 <= i < n ==> xs[i].id in byId)
  }

  /** Every key the first `n` exchanges hold leads to the last that holds it. */
  ghost predicate LocatesLast(byPk: map<int, nat>, xs: seq<Exchange>, n: nat)
    requires n <= |xs|
  {
    && (forall pk :: pk in byPk ==>
          byPk[pk] < n && pk in xs[byPk[pk]].eventPks && forall i :: byPk[pk] < i < n ==> pk !in xs[i].eventPks)
    && (forall i, pk :: 0 <= i < n && pk in xs[i].eventPks ==> pk in byPk)
  }

  method IndexExchanges(xs: seq<Exchange>) returns (byId: map<string, nat>)
    ensures NamesFirst(byId, xs, |xs|)
  {
    byId := map[];
    for index := 0 to |xs|
      invariant NamesFirst(byId, xs, index)
    {
      if xs[index].id !in byId {
        byId := byId[xs[index].id := index];
      }
    }
  }

  function AllAt(pks: seq<int>, index: nat): map<int, nat> {
    map pk | pk in pks :: index
  }

  lemma LocatesNext(byPk: map<int, nat>, xs: seq<Exchange>, n: nat)
    requires n < |xs| && LocatesLast(byPk, xs, n)
    ensures LocatesLast(byPk + AllAt(xs[n].eventPks, n), xs, n + 1)
  {
  }

  method IndexEvents(xs: seq<Exchange>) returns (byPk: map<int, nat>)
    ensures LocatesLast(byPk, xs, |xs|)
  {
    byPk := map[];
    for index := 0 to |xs|
      invariant LocatesLast(byPk, xs, index)
    {
      LocatesNext(byPk, xs, index);
      byPk := byPk + AllAt(xs[index].eventPks, index);
    }
  }

  /** The passes before the segments are described, in order. */
  ghost predicate Passed(xs: seq<Exchange>, st: SessionStructure) {
    && (exists byId :: AreBases(xs, byId, st.bases))
    && st.turns.ids == TurnIds(xs, |xs|)
    && |st.turns.of| == |xs| == |st.bases|
    && FollowsChains(xs, st.bases, st.turns.ids, st.turns.of)
    && Session(xs, st.bases, st.turns.of).Valid()
    && IsSegmentation(Session(xs, st.bases, st.turns.of), st.segmentation)
    && st.exchanges == Drained(xs)
    && NamesFirst(st.exchangeById, xs, |xs|)
    && LocatesLast(st.eventToExchange, xs, |xs|)
  }

  /** `st` is the structure of a session's events. */
  ghost predicate Derived(events: seq<StreamEvent>, st: SessionStructure) {
    && Passed(Grouped(events), st)
    && st.Valid()
    && |st.segments| == |st.segmentation.segments|
    && (forall s :: 0 <= s < |st.segments| ==> st.segments[s] == st.SegmentAt(s))
    && st.summary == StreamSummary(|st.exchanges|, |st.turns.ids|, |st.segments|)
  }

  lemma TurnsAreNamed(xs: seq<Exchange>, bases: seq<Base>, turns: Turns, i: nat)
    requires |bases| == |xs| == |turns.of| && i < |xs|
    requires turns.ids == TurnIds(xs, |xs|) && FollowsChains(xs, bases, turns.ids, turns.of)
    ensures turns.of[i].Some? ==> turns.of[i].value < |turns.ids|
  {
    var chain := EveryExchangeHasAChain(xs, bases, i);
    var end := chain[|chain| - 1];
    assert SettledBy(xs, end, turns.ids, turns.of[i]);
    TurnIdsGrow(xs, end, |xs|);
  }

  lemma PassedIsValid(xs: seq<Exchange>, st: SessionStructure)
    requires Passed(xs, st)
    ensures st.Valid()
  {
    var byId :| AreBases(xs, byId, st.bases);
    FoundBasesAreWithin(xs, byId, st.bases);
    forall i | 0 <= i < |xs| && st.turns.of[i].Some? ensures st.turns.of[i].value < |st.turns.ids| {
      TurnsAreNamed(xs, st.bases, st.turns, i);
    }
    var c := Session(xs, st.bases, st.turns.of);
    forall s | 0 <= s < |st.segmentation.segments| && st.segmentation.segments[s].parent.Some?
      ensures st.segmentation.segments[s].parent.value < |st.segmentation.segments|
    {
      ParentsFormAForest(c, st.segmentation, s);
    }
  }

  /** Bases of the exchanges, through the table of who emitted what. */
  method BasesOf(xs: seq<Exchange>) returns (bases: seq<Base>)
    ensures exists byId :: AreBases(xs, byId, bases)
    ensures |bases| == |xs| && BasesWithin(bases, |xs|)
  {
    var byId := Emitters(xs);
    EmittersAreWithin(xs, byId);
    bases := FindBases(xs, ByResponseId(xs), byId);
    assert AreBases(xs, byId, bases);
    FoundBasesAreWithin(xs, byId, bases);
  }

  /** Every pass over the exchanges, before segments are described. */
  method Pass(xs: seq<Exchange>) returns (st: SessionStructure)
    ensures Passed(xs, st) && st.Valid()
    ensures st.summary == StreamSummary(|xs|, |st.turns.ids|, |st.segmentation.segments|)
  {
    var bases := BasesOf(xs);
    var turns := Assign(xs, bases);
    assert Session(xs, bases, turns.of).Valid();
    var segmentation := Cut(xs, bases, turns);
    var exchangeById := IndexExchanges(xs);
    var eventToExchange := IndexEvents(xs);
    st := SessionStructure(Drained(xs), bases, turns, segmentation, [],
                           StreamSummary(|xs|, |turns.ids|, |segmentation.segments|), exchangeById, eventToExchange);
    PassedIsValid(xs, st);
  }

  function Described(st: SessionStructure): (segments: seq<StreamSegment>)
    requires st.Valid()
    ensures |segments| == |st.segmentation.segments|
    ensures forall s :: 0 <= s < |segments| ==> segments[s] == st.SegmentAt(s)
  {
    seq(|st.segmentation.segments|, s requires 0 <= s < |st.segmentation.segments| => st.SegmentAt(s))
  }

  /** Describing the segments changes nothing they are described by. */
  lemma StillDescribed(xs: seq<Exchange>, st: SessionStructure, segments: seq<StreamSegment>)
    requires Passed(xs, st) && st.Valid()
    ensures Passed(xs, st.(segments := segments)) && st.(segments := segments).Valid()
  {
  }

  lemma SameSegment(st: SessionStructure, segments: seq<StreamSegment>, s: nat)
    requires st.Valid() && st.(segments := segments).Valid() && s < |st.segmentation.segments|
    ensures st.(segments := segments).SegmentAt(s) == st.SegmentAt(s)
  {
  }

  /** All passes, one after the other. */
  method Derive(events: seq<StreamEvent>) returns (st: SessionStructure)
    ensures Derived(events, st)
  {
    var xs := GroupExchanges(events);
    var passed := Pass(xs);
    var segments := Described(passed);
    st := passed.(segments := segments);
    StillDescribed(xs, passed, segments);
    forall s | 0 <= s < |segments| ensures st.segments[s] == st.SegmentAt(s) {
      SameSegment(passed, segments, s);
    }
  }
}
