/** Exchanges of one session: the events that share a response id, summarized. */
module Exchanges {
  import opened Collections
  import opened Facts
  import opened Intervals
  import opened Sorting

  datatype EventFacts = Request(request: RequestFacts) | Response(response: ResponseFacts)

  datatype StreamEvent = StreamEvent(
    pk: int,
    eventId: string,
    observedAt: int,
    responseId: Option<string>,
    previousResponseId: Option<string>,
    subagentId: Option<string>,
    parentSubagentId: Option<string>,
    turnId: Option<string>,
    facts: EventFacts)

  /** What is kept of an exchange's request, or of its response. */
  datatype Side<+F> = Side(pk: int, previousResponseId: Option<string>, facts: F)

  datatype Exchange = Exchange(
    id: string,
    responseId: Option<string>,
    eventPks: seq<int>,
    at: int,
    end: int,
    request: Option<Side<RequestFacts>>,
    response: Option<Side<ResponseFacts>>,
    subagentId: Option<string>,
    parentSubagentId: Option<string>,
    turnId: Option<string>)
  {
    predicate StartsTurn() {
      request.Some? && request.value.facts.startsTurn
    }

    /** There is a context before the new part, or a response is named. */
    predicate ContinuesContext() {
      request.Some? && (request.value.facts.newFrom > 0 || request.value.previousResponseId.Some?)
    }
  }

  function IsRequest(): StreamEvent -> bool {
    (e: StreamEvent) => e.facts.Request?
  }

  function IsResponse(): StreamEvent -> bool {
    (e: StreamEvent) => e.facts.Response?
  }

  function First(es: seq<StreamEvent>, side: StreamEvent -> bool): (e: Option<StreamEvent>)
    ensures e.Some? ==> side(e.value)
  {
    match FirstPosition(es, side)
    case None => None
    case Some(at) => Some(es[at])
  }

  function Pks(es: seq<StreamEvent>): (pks: seq<int>)
    ensures |pks| == |es| && forall i :: 0 <= i < |es| ==> pks[i] == es[i].pk
  {
    seq(|es|, i requires 0 <= i < |es| => es[i].pk)
  }

  /** The latest observation time of `es`, at least `floor`. */
  function Latest(es: seq<StreamEvent>, floor: int): (t: int)
    ensures floor <= t && forall i :: 0 <= i < |es| ==> es[i].observedAt <= t
    ensures t == floor || exists i :: 0 <= i < |es| && es[i].observedAt == t
  {
    if es == [] then floor else Max(Latest(es[..|es| - 1], floor), es[|es| - 1].observedAt)
  }

  function RequestSide(e: Option<StreamEvent>): Option<Side<RequestFacts>>
    requires e.Some? ==> e.value.facts.Request?
  {
    if e.None? then None else Some(Side(e.value.pk, e.value.previousResponseId, e.value.facts.request))
  }

  function ResponseSide(e: Option<StreamEvent>): Option<Side<ResponseFacts>>
    requires e.Some? ==> e.value.facts.Response?
  {
    if e.None? then None else Some(Side(e.value.pk, e.value.previousResponseId, e.value.facts.response))
  }

  /** What an exchange opened for `first` is of the events `es` it holds, in
      the order they came: its sides are the first event of each side, its
      time and its declared ids are the request's when it has one. */
  function Summary(first: StreamEvent, es: seq<StreamEvent>): (x: Exchange) {
    var request, response := First(es, IsRequest()), First(es, IsResponse());
    var declaring := if request.Some? then request else response;
    Exchange(
      if first.responseId.Some? then first.responseId.value else first.eventId,
      first.responseId,
      Pks(es),
      if request.Some? then request.value.observedAt else first.observedAt,
      Latest(es, first.observedAt),
      RequestSide(request),
      ResponseSide(response),
      if declaring.Some? then declaring.value.subagentId else None,
      if declaring.Some? then declaring.value.parentSubagentId else None,
      if declaring.Some? then declaring.value.turnId else None)
  }

  lemma {:induction false} FirstAppend(es: seq<StreamEvent>, e: StreamEvent, side: StreamEvent -> bool)
    ensures First(es + [e], side) == if First(es, side).Some? then First(es, side)
                                     else if side(e) then Some(e) else None
  {
    var before, after := FirstPosition(es, side), FirstPosition(es + [e], side);
    assert forall i :: 0 <= i < |es| ==> (es + [e])[i] == es[i];
    assert (es + [e])[|es|] == e;
    if before.Some? {
      assert side((es + [e])[before.value]);
      assert after == before;
    } else if side(e) {
      assert after == Some(|es|);
    } else {
      assert after == None;
    }
  }

  /** A new exchange opened for `first`, holding nothing yet. */
  function Opened(first: StreamEvent): Exchange {
    Exchange(if first.responseId.Some? then first.responseId.value else first.eventId,
             first.responseId, [], first.observedAt, first.observedAt, None, None, None, None, None)
  }

  function Declared(x: Exchange, e: StreamEvent): Exchange {
    x.(subagentId := e.subagentId, parentSubagentId := e.parentSubagentId, turnId := e.turnId)
  }

  /** `x` with one more event, step by step. */
  function Added(x: Exchange, e: StreamEvent): Exchange {
    var held := x.(eventPks := x.eventPks + [e.pk], end := Max(x.end, e.observedAt));
    match e.facts
    case Request(facts) =>
      if x.request.Some? then held
      else Declared(held, e).(at := e.observedAt, request := Some(Side(e.pk, e.previousResponseId, facts)))
    case Response(facts) =>
      if x.response.Some? then held
      else (if x.request.None? then Declared(held, e) else held)
           .(response := Some(Side(e.pk, e.previousResponseId, facts)))
  }

  /** An exchange still taking events. */
  class OpenExchange {
    const id: string
    const responseId: Option<string>
    var eventPks: seq<int>
    var at: int
    var end: int
    var request: Option<Side<RequestFacts>>
    var response: Option<Side<ResponseFacts>>
    var subagentId: Option<string>
    var parentSubagentId: Option<string>
    var turnId: Option<string>

    function Snapshot(): Exchange
      reads this
    {
      Exchange(id, responseId, eventPks, at, end, request, response, subagentId, parentSubagentId, turnId)
    }

    constructor (event: StreamEvent)
      ensures Snapshot() == Opened(event)
    {
      id := if event.responseId.Some? then event.responseId.value else event.eventId;
      responseId := event.responseId;
      eventPks := [];
      at := event.observedAt;
      end := event.observedAt;
      request, response := None, None;
      subagentId, parentSubagentId, turnId := None, None, None;
    }

    method Declare(event: StreamEvent)
      modifies this`subagentId, this`parentSubagentId, this`turnId
      ensures Snapshot() == Declared(old(Snapshot()), event)
    {
      subagentId := event.subagentId;
      parentSubagentId := event.parentSubagentId;
      turnId := event.turnId;
    }

    /** Takes `event`; its side is kept unless the exchange already has one. */
    method Add(event: StreamEvent)
      modifies this
      ensures Snapshot() == Added(old(Snapshot()), event)
    {
      eventPks := eventPks + [event.pk];
      end := Max(end, event.observedAt);
      match event.facts {
        case Request(facts) =>
          if request.None? {
            at := event.observedAt;
            Declare(event);
            request := Some(Side(event.pk, event.previousResponseId, facts));
          }
        case Response(facts) =>
          if response.None? {
            if request.None? {
              Declare(event);
            }
            response := Some(Side(event.pk, event.previousResponseId, facts));
          }
      }
    }
  }

  /** Whether an exchange carries the response id `response` has. */
  function Answers(response: Option<string>): Exchange -> bool {
    (x: Exchange) => response.Some? && x.responseId == response
  }

  /** `xs` after `e` joined the exchange at `found`, or opened its own. */
  function Taken(xs: seq<Exchange>, e: StreamEvent, found: Option<nat>): (ys: seq<Exchange>)
    requires found.Some? ==> found.value < |xs|
  {
    match found
    case Some(k) => xs[k := Added(xs[k], e)]
    case None => xs + [Added(Opened(e), e)]
  }

  lemma TakenIds(xs: seq<Exchange>, e: StreamEvent, found: Option<nat>)
    requires found.Some? ==> found.value < |xs|
    ensures |xs| <= |Taken(xs, e, found)| <= |xs| + 1
    ensures forall k :: 0 <= k < |xs| ==> Taken(xs, e, found)[k].responseId == xs[k].responseId
    ensures found.None? ==> |Taken(xs, e, found)| == |xs| + 1 && Taken(xs, e, found)[|xs|].responseId == e.responseId
    ensures found.Some? ==> |Taken(xs, e, found)| == |xs|
  {
  }

  /** The exchanges of `events` in order of their first event. */
  function Gathered(events: seq<StreamEvent>): (xs: seq<Exchange>) {
    if events == [] then []
    else
      var xs, e := Gathered(events[..|events| - 1]), events[|events| - 1];
      Taken(xs, e, FirstPosition(xs, Answers(e.responseId)))
  }

  function NotLater(): (Exchange, Exchange) -> bool {
    (x: Exchange, y: Exchange) => x.at <= y.at
  }

  /** The exchanges of `events` by time, ties by their first event. */
  function Grouped(events: seq<StreamEvent>): (xs: seq<Exchange>) {
    StableSort(Gathered(events), NotLater())
  }

  ghost predicate ResponseIdsDiffer(xs: seq<Exchange>) {
    forall k, l :: 0 <= k < l < |xs| && xs[k].responseId.Some? ==> xs[k].responseId != xs[l].responseId
  }

  lemma {:induction false} GatheredIdsDiffer(events: seq<StreamEvent>)
    ensures ResponseIdsDiffer(Gathered(events))
  {
    if events != [] {
      var init, e := events[..|events| - 1], events[|events| - 1];
      GatheredIdsDiffer(init);
      TakenIds(Gathered(init), e, FirstPosition(Gathered(init), Answers(e.responseId)));
    }
  }

  /** What the response-id map says of the exchanges so far. */
  ghost predicate Finds(byResponseId: map<string, nat>, xs: seq<Exchange>) {
    && (forall r :: r in byResponseId ==> byResponseId[r] < |xs| && xs[byResponseId[r]].responseId == Some(r))
    && (forall k :: 0 <= k < |xs| && xs[k].responseId.Some? ==> xs[k].responseId.value in byResponseId)
  }

  function Lookup(byResponseId: map<string, nat>, response: Option<string>): Option<nat> {
    if response.Some? && response.value in byResponseId then Some(byResponseId[response.value]) else None
  }

  lemma FindsFirst(byResponseId: map<string, nat>, xs: seq<Exchange>, response: Option<string>)
    requires ResponseIdsDiffer(xs) && Finds(byResponseId, xs)
    ensures FirstPosition(xs, Answers(response)) == Lookup(byResponseId, response)
  {
    if response.Some? && response.value in byResponseId {
      assert Answers(response)(xs[byResponseId[response.value]]);
    }
  }

  lemma FindsNext(byResponseId: map<string, nat>, xs: seq<Exchange>, e: StreamEvent, next: map<string, nat>)
    requires Finds(byResponseId, xs)
    requires next == if Lookup(byResponseId, e.responseId).None? && e.responseId.Some?
                     then byResponseId[e.responseId.value := |xs|] else byResponseId
    ensures Finds(next, Taken(xs, e, Lookup(byResponseId, e.responseId)))
  {
    TakenIds(xs, e, Lookup(byResponseId, e.responseId));
  }

  /** One event later, by what the map finds. */
  lemma GatheredNext(events: seq<StreamEvent>, i: nat, byResponseId: map<string, nat>)
    requires i < |events|
    requires Finds(byResponseId, Gathered(events[..i]))
    ensures Gathered(events[..i + 1])
            == Taken(Gathered(events[..i]), events[i], Lookup(byResponseId, events[i].responseId))
  {
    assert events[..i + 1][..i] == events[..i];
    GatheredIdsDiffer(events[..i]);
    FindsFirst(byResponseId, Gathered(events[..i]), events[i].responseId);
  }

  ghost predicate Hold(exchanges: seq<OpenExchange>, xs: seq<Exchange>)
    reads exchanges
  {
    && |exchanges| == |xs|
    && Distinct(exchanges)
    && forall k :: 0 <= k < |xs| ==> exchanges[k].Snapshot() == xs[k]
  }

  /** Adds `event` to the exchange at `index`. */
  method AddTo(exchanges: seq<OpenExchange>, index: nat, event: StreamEvent, ghost xs: seq<Exchange>)
    requires Hold(exchanges, xs) && index < |exchanges|
    modifies exchanges[index]
    ensures Hold(exchanges, Taken(xs, event, Some(index)))
  {
    exchanges[index].Add(event);
    assert exchanges[index].Snapshot() == Added(xs[index], event);
    forall k | 0 <= k < |exchanges| && k != index ensures exchanges[k].Snapshot() == xs[k] {
      assert exchanges[k] != exchanges[index];
    }
  }

  /** Opens an exchange for `event` behind the others. */
  method Open(exchanges: seq<OpenExchange>, event: StreamEvent, ghost xs: seq<Exchange>)
    returns (more: seq<OpenExchange>)
    requires Hold(exchanges, xs)
    ensures |more| == |exchanges| + 1 && more[..|exchanges|] == exchanges
    ensures fresh(more[|exchanges|])
    ensures Hold(more, Taken(xs, event, None))
  {
    var exchange := new OpenExchange(event);
    exchange.Add(event);
    more := exchanges + [exchange];
  }

  /** The exchanges as they stand once every event is taken. */
  method Close(exchanges: seq<OpenExchange>, ghost xs: seq<Exchange>) returns (closed: seq<Exchange>)
    requires Hold(exchanges, xs)
    ensures closed == xs
  {
    closed := [];
    for k := 0 to |exchanges|
      invariant closed == xs[..k]
    {
      closed := closed + [exchanges[k].Snapshot()];
    }
  }

  /** Adds `event` to the exchange its response id names, or to a new one. */
  method Take(exchanges: seq<OpenExchange>, byResponseId: map<string, nat>, event: StreamEvent, ghost xs: seq<Exchange>)
    returns (more: seq<OpenExchange>, next: map<string, nat>)
    requires Hold(exchanges, xs) && Finds(byResponseId, xs)
    modifies exchanges
    ensures Hold(more, Taken(xs, event, Lookup(byResponseId, event.responseId)))
    ensures Finds(next, Taken(xs, event, Lookup(byResponseId, event.responseId)))
    ensures forall k :: 0 <= k < |more| ==> more[k] in exchanges || fresh(more[k])
  {
    var known := Lookup(byResponseId, event.responseId);
    next := if known.None? && event.responseId.Some?
            then byResponseId[event.responseId.value := |exchanges|] else byResponseId;
    FindsNext(byResponseId, xs, event, next);
    if known.Some? {
      AddTo(exchanges, known.value, event, xs);
      more := exchanges;
    } else {
      more := Open(exchanges, event, xs);
    }
  }

  /** The loop over open exchanges computes `Grouped`. */
  method GroupExchanges(events: seq<StreamEvent>) returns (result: seq<Exchange>)
    ensures result == Grouped(events)
  {
    var exchanges: seq<OpenExchange> := [];
    var byResponseId: map<string, nat> := map[];
    ghost var xs: seq<Exchange> := [];
    for i := 0 to |events|
      invariant xs == Gathered(events[..i])
      invariant forall k :: 0 <= k < |exchanges| ==> fresh(exchanges[k])
      invariant Hold(exchanges, xs)
      invariant Finds(byResponseId, xs)
    {
      GatheredNext(events, i, byResponseId);
      ghost var known := Lookup(byResponseId, events[i].responseId);
      exchanges, byResponseId := Take(exchanges, byResponseId, events[i], xs);
      xs := Taken(xs, events[i], known);
    }
    assert events[..|events|] == events;
    var closed := Close(exchanges, xs);
    result := StableSort(closed, NotLater());
  }

  function LedBy(response: Option<string>): seq<StreamEvent> -> bool {
    (held: seq<StreamEvent>) => held != [] && response.Some? && held[0].responseId == response
  }

  /** `e` behind its class, or a class of its own. */
  function Grown(cs: seq<seq<StreamEvent>>, e: StreamEvent): (more: seq<seq<StreamEvent>>) {
    match FirstPosition(cs, LedBy(e.responseId))
    case Some(k) => cs[k := cs[k] + [e]]
    case None => cs + [[e]]
  }

  /** The events of each exchange, exchanges in order of their first event. */
  function Classes(events: seq<StreamEvent>): (cs: seq<seq<StreamEvent>>) {
    if events == [] then [] else Grown(Classes(events[..|events| - 1]), events[|events| - 1])
  }

  lemma SummaryAppend(first: StreamEvent, es: seq<StreamEvent>, e: StreamEvent)
    ensures Summary(first, es + [e]) == Added(Summary(first, es), e)
  {
    FirstAppend(es, e, IsRequest());
    FirstAppend(es, e, IsResponse());
    assert (es + [e])[..|es|] == es;
    assert Pks(es + [e]) == Pks(es) + [e.pk];
  }

  ghost predicate IsSummary(x: Exchange, held: seq<StreamEvent>) {
    held != [] && x == Summary(held[0], held)
  }

  ghost predicate AreSummaries(xs: seq<Exchange>, cs: seq<seq<StreamEvent>>) {
    |xs| == |cs| && forall k :: 0 <= k < |cs| ==> IsSummary(xs[k], cs[k])
  }

  lemma SameLeader(xs: seq<Exchange>, cs: seq<seq<StreamEvent>>, response: Option<string>)
    requires AreSummaries(xs, cs)
    ensures FirstPosition(xs, Answers(response)) == FirstPosition(cs, LedBy(response))
  {
    forall k | 0 <= k < |cs| ensures Answers(response)(xs[k]) == LedBy(response)(cs[k]) {
      assert IsSummary(xs[k], cs[k]);
    }
    SameFirst(xs, cs, Answers(response), LedBy(response));
  }

  lemma SameFirst<S(!new), T(!new)>(a: seq<S>, b: seq<T>, p: S -> bool, q: T -> bool)
    requires |a| == |b| && forall k :: 0 <= k < |a| ==> p(a[k]) == q(b[k])
    ensures FirstPosition(a, p) == FirstPosition(b, q)
  {
    var x, y := FirstPosition(a, p), FirstPosition(b, q);
    assert x.Some? ==> q(b[x.value]);
    assert y.Some? ==> p(a[y.value]);
  }

  lemma JoinedSummary(held: seq<StreamEvent>, e: StreamEvent)
    requires held != []
    ensures Summary((held + [e])[0], held + [e]) == Added(Summary(held[0], held), e)
  {
    SummaryAppend(held[0], held, e);
  }

  lemma NothingSummary(e: StreamEvent)
    ensures Summary(e, []) == Opened(e)
  {
    assert First([], IsRequest()).None? && First([], IsResponse()).None? && Pks([]) == [];
  }

  lemma OpenedSummary(e: StreamEvent)
    ensures Summary([e][0], [e]) == Added(Opened(e), e)
  {
    NothingSummary(e);
    SummaryAppend(e, [], e);
    assert [] + [e] == [e];
  }

  lemma GrownAreSummaries(xs: seq<Exchange>, cs: seq<seq<StreamEvent>>, e: StreamEvent)
    requires AreSummaries(xs, cs)
    ensures AreSummaries(Taken(xs, e, FirstPosition(xs, Answers(e.responseId))), Grown(cs, e))
  {
    SameLeader(xs, cs, e.responseId);
    var found := FirstPosition(cs, LedBy(e.responseId));
    var ys, ds := Taken(xs, e, found), Grown(cs, e);
    forall k | 0 <= k < |ds| ensures IsSummary(ys[k], ds[k]) {
      if found == Some(k) {
        JoinedSummary(cs[k], e);
      } else if k < |cs| {
        assert IsSummary(xs[k], cs[k]);
      } else {
        OpenedSummary(e);
      }
    }
  }

  /** Taking events one by one gives each exchange the summary of its class. */
  lemma {:induction false} GatheredAreSummaries(events: seq<StreamEvent>)
    ensures AreSummaries(Gathered(events), Classes(events))
  {
    if events != [] {
      var init := events[..|events| - 1];
      GatheredAreSummaries(init);
      GrownAreSummaries(Gathered(init), Classes(init), events[|events| - 1]);
    }
  }

  function HasResponse(response: Option<string>): StreamEvent -> bool {
    (e: StreamEvent) => e.responseId == response
  }

  /** A class is one event without a response id, or every event with its. */
  ghost predicate IsClass(events: seq<StreamEvent>, held: seq<StreamEvent>) {
    && held != []
    && (held[0].responseId.None? ==> |held| == 1 && held[0] in events)
    && (held[0].responseId.Some? ==> held == Filter(events, HasResponse(held[0].responseId)))
  }

  ghost predicate LeadersDiffer(cs: seq<seq<StreamEvent>>) {
    forall k, l :: 0 <= k < l < |cs| && cs[k] != [] && cs[l] != [] && cs[k][0].responseId.Some? ==>
      cs[k][0].responseId != cs[l][0].responseId
  }

  /** No class has the response id `response`. */
  ghost predicate Unled(cs: seq<seq<StreamEvent>>, response: Option<string>) {
    response.Some? && forall k :: 0 <= k < |cs| ==> !LedBy(response)(cs[k])
  }

  ghost predicate AllClasses(events: seq<StreamEvent>, cs: seq<seq<StreamEvent>>) {
    forall k :: 0 <= k < |cs| ==> IsClass(events, cs[k])
  }

  ghost predicate UnledAreEmpty(events: seq<StreamEvent>, cs: seq<seq<StreamEvent>>) {
    forall r: Option<string> :: Unled(cs, r) ==> Filter(events, HasResponse(r)) == []
  }

  lemma OneMoreEvent(before: seq<StreamEvent>, e: StreamEvent, r: Option<string>)
    ensures Filter(before + [e], HasResponse(r))
            == Filter(before, HasResponse(r)) + if e.responseId == r then [e] else []
  {
    assert (before + [e])[..|before|] == before;
  }

  lemma JoinedIsClass(before: seq<StreamEvent>, held: seq<StreamEvent>, e: StreamEvent)
    requires IsClass(before, held) && e.responseId.Some? && held[0].responseId == e.responseId
    ensures IsClass(before + [e], held + [e])
  {
    OneMoreEvent(before, e, e.responseId);
    assert (held + [e])[0] == held[0];
  }

  lemma OtherIsClass(before: seq<StreamEvent>, held: seq<StreamEvent>, e: StreamEvent)
    requires IsClass(before, held) && (held[0].responseId.None? || held[0].responseId != e.responseId)
    ensures IsClass(before + [e], held)
  {
    OneMoreEvent(before, e, held[0].responseId);
  }

  lemma NewIsClass(before: seq<StreamEvent>, cs: seq<seq<StreamEvent>>, e: StreamEvent)
    requires UnledAreEmpty(before, cs) && FirstPosition(cs, LedBy(e.responseId)).None?
    ensures IsClass(before + [e], [e])
  {
    OneMoreEvent(before, e, e.responseId);
    if e.responseId.Some? {
      assert Unled(cs, e.responseId);
    }
  }

  /** Only the first class of a response is led by it. */
  lemma OthersLedOtherwise(before: seq<StreamEvent>, cs: seq<seq<StreamEvent>>, e: StreamEvent, k: nat)
    requires AllClasses(before, cs) && LeadersDiffer(cs) && k < |cs|
    requires FirstPosition(cs, LedBy(e.responseId)) != Some(k)
    ensures cs[k] != [] && (cs[k][0].responseId.None? || cs[k][0].responseId != e.responseId)
  {
    assert IsClass(before, cs[k]);
    var found := FirstPosition(cs, LedBy(e.responseId));
    if found.Some? {
      assert LedBy(e.responseId)(cs[found.value]);
    } else {
      assert !LedBy(e.responseId)(cs[k]);
    }
  }

  lemma GrownAreClasses(before: seq<StreamEvent>, cs: seq<seq<StreamEvent>>, e: StreamEvent)
    requires AllClasses(before, cs) && LeadersDiffer(cs) && UnledAreEmpty(before, cs)
    ensures AllClasses(before + [e], Grown(cs, e))
  {
    var found, more := FirstPosition(cs, LedBy(e.responseId)), Grown(cs, e);
    forall k | 0 <= k < |more| ensures IsClass(before + [e], more[k]) {
      if k < |cs| {
        assert IsClass(before, cs[k]);
      }
      if found == Some(k) {
        assert LedBy(e.responseId)(cs[k]);
        JoinedIsClass(before, cs[k], e);
      } else if k < |cs| {
        OthersLedOtherwise(before, cs, e, k);
        OtherIsClass(before, cs[k], e);
      } else {
        NewIsClass(before, cs, e);
      }
    }
  }

  lemma GrownLeadersDiffer(cs: seq<seq<StreamEvent>>, e: StreamEvent)
    requires LeadersDiffer(cs) && forall k :: 0 <= k < |cs| ==> cs[k] != []
    ensures LeadersDiffer(Grown(cs, e))
  {
    match FirstPosition(cs, LedBy(e.responseId)) {
      case Some(k) => assert (cs[k] + [e])[0] == cs[k][0];
      case None =>
        forall k | 0 <= k < |cs| ensures e.responseId.None? || cs[k][0].responseId != e.responseId {
          assert !LedBy(e.responseId)(cs[k]);
        }
    }
  }

  /** A response no grown class has, no class had, and the event has another. */
  lemma UnledBefore(cs: seq<seq<StreamEvent>>, e: StreamEvent, r: Option<string>)
    requires Unled(Grown(cs, e), r) && forall k :: 0 <= k < |cs| ==> cs[k] != []
    ensures Unled(cs, r) && e.responseId != r
  {
    var found, more := FirstPosition(cs, LedBy(e.responseId)), Grown(cs, e);
    var at := if found.Some? then found.value else |cs|;
    assert !LedBy(r)(more[at]);
    if found.Some? {
      assert LedBy(e.responseId)(cs[at]) && more[at][0] == cs[at][0];
    }
    forall k | 0 <= k < |cs| ensures !LedBy(r)(cs[k]) {
      assert !LedBy(r)(more[k]) && more[k][0] == cs[k][0];
    }
  }

  lemma GrownUnledAreEmpty(before: seq<StreamEvent>, cs: seq<seq<StreamEvent>>, e: StreamEvent)
    requires AllClasses(before, cs) && UnledAreEmpty(before, cs)
    ensures UnledAreEmpty(before + [e], Grown(cs, e))
  {
    forall k | 0 <= k < |cs| ensures cs[k] != [] {
      assert IsClass(before, cs[k]);
    }
    forall r: Option<string> | Unled(Grown(cs, e), r) ensures Filter(before + [e], HasResponse(r)) == [] {
      UnledBefore(cs, e, r);
      OneMoreEvent(before, e, r);
    }
  }

  lemma GrownCollect(before: seq<StreamEvent>, cs: seq<seq<StreamEvent>>, e: StreamEvent)
    requires AllClasses(before, cs) && LeadersDiffer(cs) && UnledAreEmpty(before, cs)
    ensures AllClasses(before + [e], Grown(cs, e)) && LeadersDiffer(Grown(cs, e))
    ensures UnledAreEmpty(before + [e], Grown(cs, e))
  {
    GrownAreClasses(before, cs, e);
    GrownUnledAreEmpty(before, cs, e);
    forall k | 0 <= k < |cs| ensures cs[k] != [] {
      assert IsClass(before, cs[k]);
    }
    GrownLeadersDiffer(cs, e);
  }

  /** Every class is all events of a response id, or one event without any, no
      two of one id, and no event is left without. */
  lemma {:induction false} ClassesAreClasses(events: seq<StreamEvent>)
    ensures LeadersDiffer(Classes(events)) && AllClasses(events, Classes(events))
    ensures UnledAreEmpty(events, Classes(events))
  {
    if events != [] {
      var init := events[..|events| - 1];
      ClassesAreClasses(init);
      GrownCollect(init, Classes(init), events[|events| - 1]);
      assert init + [events[|events| - 1]] == events;
    }
  }
}
