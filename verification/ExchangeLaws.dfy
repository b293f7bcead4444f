/** What each exchange says of the events it holds, field by field. */
module ExchangeLaws {
  import opened Collections
  import opened Exchanges
  import opened Grouping

  /** The first event of `held` that is a request, or that is none. */
  ghost predicate FirstOfSide(held: seq<StreamEvent>, requests: bool, k: nat) {
    && k < |held| && held[k].facts.Request? == requests
    && forall l :: 0 <= l < k ==> held[l].facts.Request? != requests
  }

  /** The request of `x` is the first one it holds, whose time is the exchange's. */
  ghost predicate TellsRequest(x: Exchange, held: seq<StreamEvent>) {
    && (x.request.None? <==> forall k :: 0 <= k < |held| ==> held[k].facts.Response?)
    && forall k: nat :: FirstOfSide(held, true, k) ==>
         && held[k].facts.Request?
         && x.request == Some(Side(held[k].pk, held[k].previousResponseId, held[k].facts.request))
         && x.at == held[k].observedAt && DeclaresAs(x, held[k])
  }

  /** The response of `x` is the first one it holds. */
  ghost predicate TellsResponse(x: Exchange, held: seq<StreamEvent>) {
    && (x.response.None? <==> forall k :: 0 <= k < |held| ==> held[k].facts.Request?)
    && forall k: nat :: FirstOfSide(held, false, k) ==>
         && held[k].facts.Response?
         && x.response == Some(Side(held[k].pk, held[k].previousResponseId, held[k].facts.response))
         && (x.request.None? ==> DeclaresAs(x, held[k]))
  }

  ghost predicate DeclaresAs(x: Exchange, e: StreamEvent) {
    && x.turnId == e.turnId && x.subagentId == e.subagentId && x.parentSubagentId == e.parentSubagentId
  }

  /** `x` is named by its response, else by its event; without a request it has
      the time of its first event; it ends with its latest. */
  ghost predicate TellsEvents(x: Exchange, held: seq<StreamEvent>) {
    && held != [] && x.responseId == held[0].responseId
    && x.id == (if held[0].responseId.Some? then held[0].responseId.value else held[0].eventId)
    && |x.eventPks| == |held| && (forall k :: 0 <= k < |held| ==> x.eventPks[k] == held[k].pk)
    && (x.request.None? ==> x.at == held[0].observedAt)
    && (forall k :: 0 <= k < |held| ==> held[k].observedAt <= x.end)
    && exists k :: 0 <= k < |held| && held[k].observedAt == x.end
  }

  lemma FirstIsOfSide(held: seq<StreamEvent>, k: nat)
    ensures FirstOfSide(held, true, k) ==> FirstPosition(held, IsRequest()) == Some(k)
    ensures FirstOfSide(held, false, k) ==> FirstPosition(held, IsResponse()) == Some(k)
  {
    if FirstOfSide(held, true, k) {
      assert IsRequest()(held[k]);
    }
    if FirstOfSide(held, false, k) {
      assert IsResponse()(held[k]);
    }
  }

  lemma SummaryTells(held: seq<StreamEvent>)
    requires held != []
    ensures TellsRequest(Summary(held[0], held), held) && TellsResponse(Summary(held[0], held), held)
    ensures TellsEvents(Summary(held[0], held), held)
  {
    forall k: nat
      ensures FirstOfSide(held, true, k) ==> FirstPosition(held, IsRequest()) == Some(k)
      ensures FirstOfSide(held, false, k) ==> FirstPosition(held, IsResponse()) == Some(k)
    {
      FirstIsOfSide(held, k);
    }
    forall k | 0 <= k < |held| ensures IsRequest()(held[k]) != IsResponse()(held[k]) {
    }
  }

  /** Every exchange holds one class of events and tells of it in every field. */
  lemma ExchangesTell(events: seq<StreamEvent>, x: Exchange) returns (held: seq<StreamEvent>)
    requires x in Grouped(events)
    ensures IsClass(events, held) && TellsRequest(x, held) && TellsResponse(x, held) && TellsEvents(x, held)
  {
    ExchangesSummarizeClasses(events, x);
    held :| IsClass(events, held) && x == Summary(held[0], held);
    SummaryTells(held);
  }

  /** The events of a class, in the order they came: one without a response id,
      or all with one. */
  lemma ClassesHold(events: seq<StreamEvent>, held: seq<StreamEvent>)
    requires IsClass(events, held)
    ensures held != [] && forall e :: e in held ==> e in events && e.responseId == held[0].responseId
    ensures held[0].responseId.None? ==> |held| == 1
    ensures held[0].responseId.Some? ==> forall e :: e in events && e.responseId == held[0].responseId ==> e in held
  {
    if held[0].responseId.Some? {
      forall e ensures e in held <==> e in events && e.responseId == held[0].responseId {
        assert HasResponse(held[0].responseId)(e) <==> e.responseId == held[0].responseId;
      }
    }
  }

  /** Exchanges are listed by their times. */
  lemma ExchangesInOrder(events: seq<StreamEvent>, k: nat, l: nat)
    requires k <= l < |Grouped(events)|
    ensures Grouped(events)[k].at <= Grouped(events)[l].at
  {
    GroupingConservesEvents(events);
    assert k < l ==> NotLater()(Grouped(events)[k], Grouped(events)[l]);
  }
}
