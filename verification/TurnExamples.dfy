/** Sessions whose events count more turns than they have, or fewer. */
module TurnExamples {
  import opened Collections
  import opened Exchanges
  import opened Facts
  import opened TurnCounts
  import opened Turns

  /** A request that starts a turn. */
  function Asking(pk: int, at: int, id: string, response: Option<string>, previous: Option<string>,
                  turn: Option<string>): StreamEvent
  {
    StreamEvent(pk, id, at, response, previous, None, None, turn, Request(RequestFacts(0, None, None, [], [], true)))
  }

  function Replying(pk: int, at: int, id: string, response: string, turn: Option<string>): StreamEvent {
    StreamEvent(pk, id, at, Some(response), None, None, None, turn, Response(ResponseFacts([], [])))
  }

  lemma NothingGathered(d: StreamEvent)
    ensures Gathered([d]) == [Added(Opened(d), d)]
  {
    assert [d][..0] == [] && Gathered([]) == [];
  }

  /** Two events with no response in common are two exchanges. */
  lemma TwoExchanges(d: StreamEvent, e: StreamEvent)
    requires d.responseId.None? || d.responseId != e.responseId
    ensures Gathered([d, e]) == [Added(Opened(d), d), Added(Opened(e), e)]
  {
    NothingGathered(d);
    assert [d, e][..1] == [d];
    assert !Answers(e.responseId)(Gathered([d])[0]);
  }

  /** Two events of one response are one exchange. */
  lemma OneExchange(d: StreamEvent, e: StreamEvent)
    requires d.responseId.Some? && d.responseId == e.responseId
    ensures Gathered([d, e]) == [Added(Added(Opened(d), d), e)]
  {
    NothingGathered(d);
    assert [d, e][..1] == [d];
    assert Answers(e.responseId)(Gathered([d])[0]);
  }

  /** Two exchanges in order that both open a turn: one when they share an id. */
  lemma TurnsOfTwo(events: seq<StreamEvent>, x: Exchange, y: Exchange)
    requires Gathered(events) == [x, y] && x.at <= y.at && x.turnId.None? && y.turnId.None?
    requires x.StartsTurn() && y.StartsTurn() && y.ContinuesContext()
    ensures TurnCount(events) == (if x.id == y.id then 1 else 2) && TakenValues(events) == {}
  {
    SortedStays([x, y], NotLater());
    ValuesAreTaken(events);
    assert TurnIds([x, y], 0) == [];
    assert TurnIds([x, y], 1) == [x.id];
  }

  lemma OneUndeclaredTurn(x: Exchange)
    requires x.turnId.None? && x.StartsTurn()
    ensures |TurnIds([x], 1)| == 1
  {
    assert TurnIds([x], 0) == [] && OpenedId([x], 0) == Some(x.id);
  }

  lemma OneDeclaredTurn(x: Exchange)
    requires x.turnId.Some?
    ensures |TurnIds([x], 1)| == 1
  {
    assert TurnIds([x], 0) == [] && OpenedId([x], 0) == x.turnId;
  }

  lemma OneGrouped(events: seq<StreamEvent>)
    requires |Gathered(events)| == 1
    ensures Grouped(events) == Gathered(events)
  {
    SortedStays(Gathered(events), NotLater());
  }

  lemma BothCounted(d: StreamEvent, e: StreamEvent)
    requires Starts(d) && Starts(e) && Continues(e)
    ensures CountedOpeners([d, e]) == 2
  {
    assert [d, e][..1] == [d] && [d][..0] == [];
    assert CountedOpeners([d]) == 1;
  }

  // ----- Without declarations

  /** A request answered by the response `a`, then one whose own event id is
      `a` that continues it: two turns are opened, under one id. */
  lemma TurnsMayShareAnId(a: string, b: string) returns (events: seq<StreamEvent>)
    ensures events == [Asking(1, 1, b, Some(a), None, None), Asking(2, 2, a, None, Some(a), None)]
    ensures DeclaredValues(events) == {} && CountedTurns(events) == 2 && TurnCount(events) == 1
  {
    var d, e := Asking(1, 1, b, Some(a), None, None), Asking(2, 2, a, None, Some(a), None);
    events := [d, e];
    TwoExchanges(d, e);
    TurnsOfTwo(events, Added(Opened(d), d), Added(Opened(e), e));
    BothCounted(d, e);
  }

  /** Two requests of one response that both start a turn: two are counted,
      one is opened. */
  lemma ASecondStartIsCounted(a: string, b: string, c: string, p: string) returns (events: seq<StreamEvent>)
    ensures events == [Asking(1, 1, b, Some(a), None, None), Asking(2, 2, c, Some(a), Some(p), None)]
    ensures DeclaredValues(events) == {} && CountedTurns(events) == 2 && TurnCount(events) == 1
  {
    var d, e := Asking(1, 1, b, Some(a), None, None), Asking(2, 2, c, Some(a), Some(p), None);
    events := [d, e];
    OneExchange(d, e);
    OneGrouped(events);
    OneUndeclaredTurn(Added(Added(Opened(d), d), e));
    BothCounted(d, e);
  }

  /** A response, then two requests at one time, its own the second: its
      exchange comes first, and both open a turn, but one start is counted. */
  lemma TurnsMayOutnumberTheCount(a: string, b: string, x: string, y: string, z: string)
    returns (events: seq<StreamEvent>)
    requires a != b
    ensures events == [Replying(1, 1, x, a, None), Asking(2, 2, y, Some(b), Some(a), None),
                       Asking(3, 2, z, Some(a), None, None)]
    ensures DeclaredValues(events) == {} && CountedTurns(events) == 1 && TurnCount(events) == 2
  {
    var d, e, f := Replying(1, 1, x, a, None), Asking(2, 2, y, Some(b), Some(a), None),
                   Asking(3, 2, z, Some(a), None, None);
    events := [d, e, f];
    ThirdJoinsFirst(d, e, f);
    TurnsOfTwo(events, Added(Added(Opened(d), d), f), Added(Opened(e), e));
    OnlyTheFirstStart(d, e, f);
  }

  lemma ThirdJoinsFirst(d: StreamEvent, e: StreamEvent, f: StreamEvent)
    requires d.responseId.Some? && d.responseId != e.responseId && f.responseId == d.responseId
    ensures Gathered([d, e, f]) == [Added(Added(Opened(d), d), f), Added(Opened(e), e)]
  {
    TwoExchanges(d, e);
    assert [d, e, f][..2] == [d, e];
    assert Answers(f.responseId)(Gathered([d, e])[0]);
  }

  lemma OnlyTheFirstStart(d: StreamEvent, e: StreamEvent, f: StreamEvent)
    requires !Starts(d) && Starts(e) && !Continues(f)
    ensures CountedOpeners([d, e, f]) == 1
  {
    assert [d, e, f][..2] == [d, e] && [d, e][..1] == [d] && [d][..0] == [];
    assert CountedOpeners([d]) == 0;
    assert Starts([d, e][1]);
  }

  // ----- With declarations

  /** A request and its response that declare different turns: two values,
      one turn. */
  lemma AResponseMayDeclareAnother(a: string, b: string, p: string, q: string) returns (events: seq<StreamEvent>)
    requires p != q
    ensures events == [Asking(1, 1, b, Some(a), None, Some(p)), Replying(2, 2, b, a, Some(q))]
    ensures TakenValues(events) != {} && CountedTurns(events) == 2 && TurnCount(events) == 1
  {
    var d, e := Asking(1, 1, b, Some(a), None, Some(p)), Replying(2, 2, b, a, Some(q));
    events := [d, e];
    OneExchange(d, e);
    OneGrouped(events);
    OneDeclaredTurn(Gathered(events)[0]);
    ValuesAreTaken(events);
    TwoValues(d, e, p, q);
  }

  lemma TwoValues(d: StreamEvent, e: StreamEvent, p: string, q: string)
    requires p != q && d.turnId == Some(p) && e.turnId == Some(q)
    ensures CountedTurns([d, e]) == 2
  {
    var events := [d, e];
    assert events[0] == d && events[1] == e;
    assert DeclaredValues(events) == {p, q};
  }

  lemma OneValue(events: seq<StreamEvent>, k: nat, q: string)
    requires k < |events| && events[k].turnId == Some(q)
    requires forall i :: 0 <= i < |events| && i != k ==> events[i].turnId.None?
    ensures CountedTurns(events) == 1
  {
    assert DeclaredValues(events) == {q};
  }

  /** A request that declares no turn and a response that declares one: no
      exchange takes the value, and the request opens the turn counted. */
  lemma ADeclarationMayBeDropped(a: string, x: string, y: string, q: string) returns (events: seq<StreamEvent>)
    ensures events == [Asking(1, 1, x, Some(a), None, None), Replying(2, 2, y, a, Some(q))]
    ensures TakenValues(events) == {} && CountedTurns(events) == 1 && TurnCount(events) == 1
  {
    var d, e := Asking(1, 1, x, Some(a), None, None), Replying(2, 2, y, a, Some(q));
    events := [d, e];
    OneExchange(d, e);
    OneGrouped(events);
    OneUndeclaredTurn(Gathered(events)[0]);
    ValuesAreTaken(events);
    OneValue(events, 1, q);
  }

  /** With another request that opens a turn, the value no exchange takes
      hides a turn from the count. */
  lemma ADroppedDeclarationHidesTurns(a: string, b: string, x: string, y: string, z: string, q: string)
    returns (events: seq<StreamEvent>)
    requires a != b
    ensures events == [Asking(1, 1, x, Some(a), None, None), Replying(2, 2, y, a, Some(q)),
                       Asking(3, 3, z, Some(b), Some(a), None)]
    ensures TakenValues(events) == {} && CountedTurns(events) == 1 && TurnCount(events) == 2
  {
    var d, e, f := Asking(1, 1, x, Some(a), None, None), Replying(2, 2, y, a, Some(q)),
                   Asking(3, 3, z, Some(b), Some(a), None);
    events := [d, e, f];
    ThirdIsAnother(d, e, f);
    TurnsOfTwo(events, Added(Added(Opened(d), d), e), Added(Opened(f), f));
    OneValue(events, 1, q);
  }

  lemma ThirdIsAnother(d: StreamEvent, e: StreamEvent, f: StreamEvent)
    requires d.responseId.Some? && d.responseId == e.responseId && f.responseId != d.responseId
    ensures Gathered([d, e, f]) == [Added(Added(Opened(d), d), e), Added(Opened(f), f)]
  {
    OneExchange(d, e);
    assert [d, e, f][..2] == [d, e];
    assert !Answers(f.responseId)(Gathered([d, e])[0]);
  }
}
