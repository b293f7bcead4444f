/** How many turns a session's events count, beside how many it has. */
module TurnCounts {
  import opened Collections
  import opened Exchanges
  import opened Grouping
  import opened Sorting
  import opened Turns

  /** A request whose new part opens a turn. */
  predicate Starts(e: StreamEvent) {
    e.facts.Request? && e.facts.request.startsTurn
  }

  /** A request behind model output, or behind a response it names. */
  predicate Continues(e: StreamEvent) {
    e.facts.Request? && (e.facts.request.newFrom > 0 || e.previousResponseId.Some?)
  }

  /** Whether some of `events` starts a turn. */
  predicate AnyStarts(events: seq<StreamEvent>) {
    exists i :: 0 <= i < |events| && Starts(events[i])
  }

  /** Every start that continues a context, and the first start of all. */
  function CountedOpeners(events: seq<StreamEvent>): (n: nat) {
    if events == [] then 0
    else
      var before, e := events[..|events| - 1], events[|events| - 1];
      CountedOpeners(before) + if Starts(e) && (Continues(e) || !AnyStarts(before)) then 1 else 0
  }

  function DeclaredValues(events: seq<StreamEvent>): (values: set<string>) {
    set i | 0 <= i < |events| && events[i].turnId.Some? :: events[i].turnId.value
  }

  /** One per declared value; without any, one per counted start. */
  function CountedTurns(events: seq<StreamEvent>): nat {
    if DeclaredValues(events) == {} then CountedOpeners(events) else |DeclaredValues(events)|
  }

  /** The number of turns the session has. */
  function TurnCount(events: seq<StreamEvent>): nat {
    |TurnIds(Grouped(events), |Grouped(events)|)|
  }

  // ----- Which declarations are taken

  ghost predicate Together(events: seq<StreamEvent>, i: nat, j: nat)
    requires i < |events| && j < |events|
  {
    i == j || (events[i].responseId.Some? && events[i].responseId == events[j].responseId)
  }

  /** Event `i` is the first request of its exchange, or its first response
      when it has no request. */
  ghost predicate Names(events: seq<StreamEvent>, i: nat) {
    && i < |events|
    && forall j :: 0 <= j < |events| && Together(events, i, j) ==>
         if events[i].facts.Request? then events[j].facts.Request? ==> i <= j
         else events[j].facts.Response? && i <= j
  }

  /** The values declared by events that name their exchange. */
  ghost function TakenValues(events: seq<StreamEvent>): (values: set<string>)
    ensures values <= DeclaredValues(events)
  {
    set i | 0 <= i < |events| && Names(events, i) && events[i].turnId.Some? :: events[i].turnId.value
  }

  ghost function ExchangeValues(xs: seq<Exchange>): set<string> {
    set i | 0 <= i < |xs| && xs[i].turnId.Some? :: xs[i].turnId.value
  }

  function Both(p: StreamEvent -> bool, q: StreamEvent -> bool): StreamEvent -> bool {
    (e: StreamEvent) => p(e) && q(e)
  }

  lemma {:induction false} FirstOfFilter(events: seq<StreamEvent>, p: StreamEvent -> bool, q: StreamEvent -> bool)
    ensures First(Filter(events, p), q) == First(events, Both(p, q))
  {
    if events != [] {
      var before, e := events[..|events| - 1], events[|events| - 1];
      FirstOfFilter(before, p, q);
      FirstAppend(Filter(before, p), e, q);
      FirstAppend(before, e, Both(p, q));
      assert before + [e] == events;
    }
  }

  /** The event of a class that its exchange takes its declared ids from. */
  function Declaring(held: seq<StreamEvent>): Option<StreamEvent> {
    if First(held, IsRequest()).Some? then First(held, IsRequest()) else First(held, IsResponse())
  }

  lemma ASideIsFirst(held: seq<StreamEvent>)
    requires held != []
    ensures Declaring(held).Some? && Summary(held[0], held).turnId == Declaring(held).value.turnId
  {
    assert IsRequest()(held[0]) || IsResponse()(held[0]);
  }

  /** Of the events of a response, the one that names its exchange. */
  lemma NamesOfResponse(events: seq<StreamEvent>, r: Option<string>, i: nat)
    requires i < |events| && r.Some? && events[i].responseId == r
    ensures Names(events, i) <==>
              var request := FirstPosition(events, Both(HasResponse(r), IsRequest()));
              Some(i) == if request.Some? then request
                         else FirstPosition(events, Both(HasResponse(r), IsResponse()))
  {
    var ofRequest, ofResponse := Both(HasResponse(r), IsRequest()), Both(HasResponse(r), IsResponse());
    forall j | 0 <= j < |events|
      ensures Together(events, i, j) && events[j].facts.Request? <==> ofRequest(events[j])
      ensures Together(events, i, j) && events[j].facts.Response? <==> ofResponse(events[j])
    {
    }
    var request, response := FirstPosition(events, ofRequest), FirstPosition(events, ofResponse);
    if Names(events, i) {
      assert if events[i].facts.Request? then request == Some(i) else request.None? && response == Some(i);
    }
  }

  lemma NamesItself(events: seq<StreamEvent>, i: nat)
    requires i < |events| && events[i].responseId.None?
    ensures Names(events, i) && Declaring([events[i]]) == Some(events[i])
  {
    var e := events[i];
    assert if e.facts.Request? then IsRequest()(e) else !IsRequest()(e) && IsResponse()(e);
    assert First([e], IsRequest()) == if e.facts.Request? then Some(e) else None;
  }

  /** An exchange takes its declared ids from an event that names it. */
  lemma DeclaringNames(events: seq<StreamEvent>, held: seq<StreamEvent>) returns (i: nat)
    requires IsClass(events, held)
    ensures Names(events, i) && Declaring(held) == Some(events[i])
  {
    var r := held[0].responseId;
    if r.None? {
      i :| i < |events| && events[i] == held[0];
      NamesItself(events, i);
      assert held == [events[i]];
    } else {
      FirstOfFilter(events, HasResponse(r), IsRequest());
      FirstOfFilter(events, HasResponse(r), IsResponse());
      ASideIsFirst(held);
      var request := FirstPosition(events, Both(HasResponse(r), IsRequest()));
      i := if request.Some? then request.value
           else FirstPosition(events, Both(HasResponse(r), IsResponse())).value;
      assert HasResponse(r)(events[i]);
      NamesOfResponse(events, r, i);
    }
  }

  /** An event without a response id has a class of its own. */
  lemma {:induction false} OwnClass(events: seq<StreamEvent>, i: nat)
    requires i < |events| && events[i].responseId.None?
    ensures [events[i]] in Classes(events)
  {
    var before, e := events[..|events| - 1], events[|events| - 1];
    if i < |before| {
      OwnClass(before, i);
      var cs := Classes(before);
      var k :| 0 <= k < |cs| && cs[k] == [events[i]];
      assert !LedBy(e.responseId)(cs[k]);
      assert Grown(cs, e)[k] == cs[k];
    } else {
      assert !exists k :: 0 <= k < |Classes(before)| && LedBy(e.responseId)(Classes(before)[k]);
      assert Grown(Classes(before), e) == Classes(before) + [[e]];
    }
  }

  /** An event that names its exchange has a class it declares for. */
  lemma NamesAClass(events: seq<StreamEvent>, i: nat) returns (held: seq<StreamEvent>)
    requires Names(events, i)
    ensures held in Classes(events) && held != [] && Declaring(held) == Some(events[i])
  {
    var r := events[i].responseId;
    ClassesAreClasses(events);
    if r.None? {
      OwnClass(events, i);
      NamesItself(events, i);
      held := [events[i]];
    } else {
      held := ClassOfResponse(events, i);
      FirstOfFilter(events, HasResponse(r), IsRequest());
      FirstOfFilter(events, HasResponse(r), IsResponse());
      NamesOfResponse(events, r, i);
    }
  }

  lemma ClassOfResponse(events: seq<StreamEvent>, i: nat) returns (held: seq<StreamEvent>)
    requires i < |events| && events[i].responseId.Some?
    ensures held in Classes(events) && held != [] && held == Filter(events, HasResponse(events[i].responseId))
  {
    var r, cs := events[i].responseId, Classes(events);
    ClassesAreClasses(events);
    assert HasResponse(r)(events[i]) && events[i] in Filter(events, HasResponse(r));
    assert !Unled(cs, r);
    var k :| 0 <= k < |cs| && LedBy(r)(cs[k]);
    assert IsClass(events, cs[k]);
    held := cs[k];
  }

  lemma ClassIsGrouped(events: seq<StreamEvent>, held: seq<StreamEvent>)
    requires held in Classes(events) && held != []
    ensures Summary(held[0], held) in Grouped(events)
  {
    GatheredAreSummaries(events);
    var k :| 0 <= k < |Classes(events)| && Classes(events)[k] == held;
    assert IsSummary(Gathered(events)[k], held);
    SortMembers(Gathered(events), NotLater());
  }

  /** The values exchanges take are those of the events that name them. */
  lemma ValuesAreTaken(events: seq<StreamEvent>)
    ensures ExchangeValues(Grouped(events)) == TakenValues(events)
    ensures AnyDeclares(Grouped(events)) <==> TakenValues(events) != {}
  {
    var xs := Grouped(events);
    forall v | v in ExchangeValues(xs) ensures v in TakenValues(events) {
      var k :| 0 <= k < |xs| && xs[k].turnId == Some(v);
      ExchangesSummarizeClasses(events, xs[k]);
      var held: seq<StreamEvent> :| IsClass(events, held) && xs[k] == Summary(held[0], held);
      ASideIsFirst(held);
      var i := DeclaringNames(events, held);
    }
    forall v | v in TakenValues(events) ensures v in ExchangeValues(xs) {
      var i :| 0 <= i < |events| && Names(events, i) && events[i].turnId == Some(v);
      var held := NamesAClass(events, i);
      ASideIsFirst(held);
      ClassIsGrouped(events, held);
    }
    AnyDeclaresAValue(xs);
  }

  lemma AnyDeclaresAValue(xs: seq<Exchange>)
    ensures AnyDeclares(xs) <==> ExchangeValues(xs) != {}
  {
    if AnyDeclares(xs) {
      var i :| 0 <= i < |xs| && xs[i].turnId.Some?;
      assert xs[i].turnId.value in ExchangeValues(xs);
    }
  }

  // ----- Which starts open a turn

  /** One if `b`, else nothing. */
  function One(b: bool): nat {
    if b then 1 else 0
  }

  /** No request of its response came before. */
  predicate Leads(before: seq<StreamEvent>, e: StreamEvent) {
    e.responseId.Some? ==>
      forall j :: 0 <= j < |before| ==> !(before[j].facts.Request? && before[j].responseId == e.responseId)
  }

  /** The starts that continue a context as the first request of their exchange. */
  function LeadingStarts(events: seq<StreamEvent>): (n: nat) {
    if events == [] then 0
    else
      var before, e := events[..|events| - 1], events[|events| - 1];
      LeadingStarts(before) + if Starts(e) && Continues(e) && Leads(before, e) then 1 else 0
  }

  /** The starts that continue a context behind another request of their exchange. */
  function RepeatedStarts(events: seq<StreamEvent>): (n: nat) {
    if events == [] then 0
    else
      var before, e := events[..|events| - 1], events[|events| - 1];
      RepeatedStarts(before) + if Starts(e) && Continues(e) && !Leads(before, e) then 1 else 0
  }

  /** The first start continues no context. */
  ghost predicate StartsPlainly(events: seq<StreamEvent>) {
    exists i: nat :: StartsPlainlyAt(events, i)
  }

  ghost predicate StartsPlainlyAt(events: seq<StreamEvent>, i: nat) {
    i < |events| && Starts(events[i]) && !Continues(events[i]) && !AnyStarts(events[..i])
  }

  lemma StartsPlainlyNext(events: seq<StreamEvent>)
    requires events != []
    ensures var before, e := events[..|events| - 1], events[|events| - 1];
      && (AnyStarts(events) <==> AnyStarts(before) || Starts(e))
      && (StartsPlainly(events) <==> StartsPlainly(before) || (Starts(e) && !Continues(e) && !AnyStarts(before)))
      && (StartsPlainly(before) ==> AnyStarts(before))
  {
    var n := |events| - 1;
    forall i: nat | i < n ensures StartsPlainlyAt(events, i) <==> StartsPlainlyAt(events[..n], i) {
      assert events[..n][..i] == events[..i];
    }
    forall i: nat | i < n ensures Starts(events[i]) <==> Starts(events[..n][i]) {
    }
    assert StartsPlainlyAt(events, n) <==> Starts(events[n]) && !Continues(events[n]) && !AnyStarts(events[..n]);
  }

  /** Counted are the continuing starts, and the first when it is plain. */
  lemma {:induction false} CountedByKind(events: seq<StreamEvent>)
    ensures CountedOpeners(events)
            == LeadingStarts(events) + RepeatedStarts(events) + One(StartsPlainly(events))
  {
    if events != [] {
      CountedByKind(events[..|events| - 1]);
      StartsPlainlyNext(events);
    }
  }

  function ContinuingStart(): Exchange -> bool {
    (x: Exchange) => x.StartsTurn() && x.ContinuesContext()
  }

  /** The first exchange that starts a turn continues no context. */
  ghost predicate OpensPlainly(xs: seq<Exchange>, n: nat)
    requires n <= |xs|
  {
    exists i: nat :: i < n && OpensUndeclared(xs, i) && !xs[i].ContinuesContext()
  }

  /** An opener continues a context or is the first start, plain. */
  lemma OpensByKind(xs: seq<Exchange>, n: nat)
    requires n < |xs|
    ensures |Openers(xs, n + 1)| + |Filter(xs[..n], ContinuingStart())| + One(OpensPlainly(xs, n))
            == |Openers(xs, n)| + |Filter(xs[..n + 1], ContinuingStart())| + One(OpensPlainly(xs, n + 1))
  {
    OpenersNext(xs, n);
    ContinuingNext(xs, n);
    OpensPlainlyNext(xs, n);
    assert One(OpensUndeclared(xs, n)) == One(ContinuingStart()(xs[n]))
                                          + One(OpensUndeclared(xs, n) && !xs[n].ContinuesContext());
  }

  lemma OpensPlainlyNext(xs: seq<Exchange>, n: nat)
    requires n < |xs|
    ensures var here := OpensUndeclared(xs, n) && !xs[n].ContinuesContext();
      One(OpensPlainly(xs, n + 1)) == One(OpensPlainly(xs, n)) + One(here)
  {
  }

  lemma ContinuingNext(xs: seq<Exchange>, n: nat)
    requires n < |xs|
    ensures |Filter(xs[..n + 1], ContinuingStart())|
            == |Filter(xs[..n], ContinuingStart())| + One(ContinuingStart()(xs[n]))
  {
    assert xs[..n + 1][..n] == xs[..n];
  }

  /** Openers are the continuing starts, and the first when it is plain. */
  lemma {:induction false} OpenersByKind(xs: seq<Exchange>, n: nat)
    requires n <= |xs|
    ensures |Openers(xs, n)| == |Filter(xs[..n], ContinuingStart())| + One(OpensPlainly(xs, n))
  {
    if n == 0 {
      assert Openers(xs, n) == {} && xs[..n] == [];
    } else {
      OpenersByKind(xs, n - 1);
      OpensByKind(xs, n - 1);
    }
  }

  lemma {:induction false} FilterReplaced<T(!new)>(s: seq<T>, k: nat, x: T, p: T -> bool)
    requires k < |s|
    ensures |Filter(s[k := x], p)| + (if p(s[k]) then 1 else 0) == |Filter(s, p)| + if p(x) then 1 else 0
  {
    var n := |s| - 1;
    if k < n {
      FilterReplaced(s[..n], k, x, p);
      assert s[k := x][..n] == s[..n][k := x];
    } else {
      assert s[k := x][..n] == s[..n];
    }
  }

  /** An exchange has a request exactly when a request of its response came. */
  lemma JoinedHasRequest(before: seq<StreamEvent>, e: StreamEvent, k: nat)
    requires FirstPosition(Gathered(before), Answers(e.responseId)) == Some(k)
    ensures k < |Gathered(before)|
    ensures Gathered(before)[k].request.Some? <==> !Leads(before, e)
  {
    GatheredAreSummaries(before);
    ClassesAreClasses(before);
    var held, r := Classes(before)[k], e.responseId;
    assert Answers(r)(Gathered(before)[k]) && IsClass(before, held) && IsSummary(Gathered(before)[k], held);
    if !Leads(before, e) {
      var j :| 0 <= j < |before| && before[j].facts.Request? && before[j].responseId == r;
      assert HasResponse(r)(before[j]) && before[j] in held;
      assert IsRequest()(before[j]);
    }
    if First(held, IsRequest()).Some? {
      var at := FirstPosition(held, IsRequest()).value;
      assert held[at] in held && HasResponse(r)(held[at]);
    }
  }

  lemma NothingFiltered(events: seq<StreamEvent>, p: StreamEvent -> bool)
    requires Filter(events, p) == []
    ensures forall j :: 0 <= j < |events| ==> !p(events[j])
  {
    forall j | 0 <= j < |events| ensures !p(events[j]) {
      assert events[j] in events && events[j] !in Filter(events, p);
    }
  }

  /** An event that opens an exchange of its own has nothing before it. */
  lemma OpenedLeads(before: seq<StreamEvent>, e: StreamEvent)
    requires FirstPosition(Gathered(before), Answers(e.responseId)).None?
    ensures Leads(before, e)
  {
    GatheredAreSummaries(before);
    ClassesAreClasses(before);
    SameLeader(Gathered(before), Classes(before), e.responseId);
    if e.responseId.Some? {
      assert Unled(Classes(before), e.responseId);
      NothingFiltered(before, HasResponse(e.responseId));
    }
  }

  lemma AddedStarts(x: Exchange, e: StreamEvent)
    ensures ContinuingStart()(Added(x, e)) <==>
              ContinuingStart()(x) || (x.request.None? && Starts(e) && Continues(e))
  {
  }

  /** An event adds a continuing exchange exactly as a leading start. */
  lemma {:induction false} GatheredLead(events: seq<StreamEvent>)
    ensures |Filter(Gathered(events), ContinuingStart())| == LeadingStarts(events)
  {
    if events != [] {
      var before, e := events[..|events| - 1], events[|events| - 1];
      var xs := Gathered(before);
      GatheredLead(before);
      match FirstPosition(xs, Answers(e.responseId)) {
        case None =>
          OpenedLeads(before, e);
          AddedStarts(Opened(e), e);
          assert (xs + [Added(Opened(e), e)])[..|xs|] == xs;
        case Some(k) =>
          JoinedHasRequest(before, e, k);
          AddedStarts(xs[k], e);
          FilterReplaced(xs, k, Added(xs[k], e), ContinuingStart());
      }
    }
  }

  lemma GroupedLead(events: seq<StreamEvent>)
    ensures |Filter(Grouped(events), ContinuingStart())| == LeadingStarts(events)
  {
    GatheredLead(events);
    SortCount(Gathered(events), NotLater(), ContinuingStart());
  }

  /** Without a declaration taken, the turns are the first requests that start
      one behind a context, and the first start when it is plain, each id once. */
  lemma TurnsByKind(events: seq<StreamEvent>)
    requires TakenValues(events) == {}
    ensures var xs := Grouped(events);
      TurnCount(events) + |Shared(xs, |xs|)| == LeadingStarts(events) + One(OpensPlainly(xs, |xs|))
  {
    var xs := Grouped(events);
    ValuesAreTaken(events);
    UndeclaredTurnCount(xs, |xs|);
    OpenersByKind(xs, |xs|);
    GroupedLead(events);
    assert xs[..|xs|] == xs;
  }

  // ----- The count beside the turns

  /** Without declarations the count differs from the turns by the starts that
      repeat within an exchange and the openers that share an id, and by a
      plain first start that only events or only exchanges have. */
  lemma UndeclaredTurnsAreCounted(events: seq<StreamEvent>)
    requires DeclaredValues(events) == {}
    ensures var xs := Grouped(events);
      CountedTurns(events) + One(OpensPlainly(xs, |xs|))
      == TurnCount(events) + RepeatedStarts(events) + |Shared(xs, |xs|)| + One(StartsPlainly(events))
    ensures var xs := Grouped(events);
      CountedTurns(events) == TurnCount(events) <==>
        if OpensPlainly(xs, |xs|) <==> StartsPlainly(events)
        then RepeatedStarts(events) == 0 && IdsDiffer(xs, Openers(xs, |xs|))
        else OpensPlainly(xs, |xs|) && RepeatedStarts(events) + |Shared(xs, |xs|)| == 1
  {
    NoneShared(Grouped(events), |Grouped(events)|);
    TurnsByKind(events);
    CountedByKind(events);
  }

  /** With declarations, there are as many turns as values taken, and they are
      the counted ones exactly when every declared value is; when none is
      taken, the turns are those a session without declarations has. */
  lemma DeclaredTurnsAreCounted(events: seq<StreamEvent>)
    requires DeclaredValues(events) != {}
    ensures CountedTurns(events) == |DeclaredValues(events)|
    ensures TakenValues(events) != {} ==>
              && TurnCount(events) == |TakenValues(events)| <= CountedTurns(events)
              && (TurnCount(events) == CountedTurns(events) <==> TakenValues(events) == DeclaredValues(events))
    ensures TakenValues(events) == {} ==>
              var xs := Grouped(events);
              var begun := LeadingStarts(events) + One(OpensPlainly(xs, |xs|));
              && TurnCount(events) + |Shared(xs, |xs|)| == begun
              && (TurnCount(events) == CountedTurns(events) <==>
                    |DeclaredValues(events)| + |Shared(xs, |xs|)| == begun)
  {
    ValuesAreTaken(events);
    if TakenValues(events) == {} {
      TurnsByKind(events);
    } else {
      DeclaredTurnCount(Grouped(events));
      Fewer(TakenValues(events), DeclaredValues(events));
      SameSize(TakenValues(events), DeclaredValues(events));
    }
  }

  lemma SameSize<T>(a: set<T>, b: set<T>)
    requires a <= b
    ensures |a| == |b| <==> a == b
  {
    if a != b {
      var x :| x in b && x !in a;
      Fewer(a, b - {x});
    }
  }

  // ----- Sessions whose requests come first

  /** Event `j` comes behind event `i` of the same response. */
  ghost predicate Follows(events: seq<StreamEvent>, i: nat, j: nat) {
    i < j < |events| && events[i].responseId.Some? && events[i].responseId == events[j].responseId
  }

  /** No request comes behind a response it belongs with, and of the requests
      of one exchange only the first starts a turn. */
  ghost predicate RequestsLead(events: seq<StreamEvent>) {
    forall i: nat, j: nat :: Follows(events, i, j) && events[j].facts.Request? ==>
      events[i].facts.Request? && !Starts(events[j])
  }

  ghost predicate InTimeOrder(events: seq<StreamEvent>) {
    forall i, j :: 0 <= i < j < |events| ==> events[i].observedAt <= events[j].observedAt
  }

  lemma LeadBefore(events: seq<StreamEvent>)
    requires events != [] && RequestsLead(events)
    ensures RequestsLead(events[..|events| - 1])
  {
    var before := events[..|events| - 1];
    forall i: nat, j: nat | Follows(before, i, j) && before[j].facts.Request?
      ensures before[i].facts.Request? && !Starts(before[j])
    {
      assert Follows(events, i, j);
    }
  }

  /** A request that joins an exchange finds a request there, and starts nothing. */
  lemma JoiningRequest(events: seq<StreamEvent>, k: nat)
    requires events != [] && RequestsLead(events) && events[|events| - 1].facts.Request?
    requires var before, e := events[..|events| - 1], events[|events| - 1];
      FirstPosition(Gathered(before), Answers(e.responseId)) == Some(k)
    ensures k < |Gathered(events[..|events| - 1])| && Gathered(events[..|events| - 1])[k].request.Some?
    ensures !Starts(events[|events| - 1])
  {
    var n := |events| - 1;
    var before, r := events[..n], events[n].responseId;
    JoinedHasRequest(before, events[n], k);
    var i := JoinedHasLeader(before, r, k);
    assert Follows(events, i, n);
  }

  lemma JoinedHasLeader(before: seq<StreamEvent>, r: Option<string>, k: nat) returns (i: nat)
    requires FirstPosition(Gathered(before), Answers(r)) == Some(k)
    ensures i < |before| && r.Some? && before[i].responseId == r
  {
    GatheredAreSummaries(before);
    ClassesAreClasses(before);
    var held := Classes(before)[k];
    assert Answers(r)(Gathered(before)[k]) && IsClass(before, held) && held[0] in held;
    i :| 0 <= i < |before| && before[i] == held[0];
  }

  /** A later request of a response starts nothing. */
  lemma {:induction false} NothingRepeats(events: seq<StreamEvent>)
    requires RequestsLead(events)
    ensures RepeatedStarts(events) == 0
  {
    if events != [] {
      var n := |events| - 1;
      LeadBefore(events);
      NothingRepeats(events[..n]);
      if !Leads(events[..n], events[n]) {
        var j :| 0 <= j < n && events[..n][j].facts.Request? && events[..n][j].responseId == events[n].responseId;
        assert Follows(events, j, n);
      }
    }
  }

  ghost predicate SomeStarts(xs: seq<Exchange>) {
    exists k :: 0 <= k < |xs| && xs[k].StartsTurn()
  }

  /** Exchanges and events start alike: some or none, the first plainly or not. */
  ghost predicate StartAlike(xs: seq<Exchange>, events: seq<StreamEvent>) {
    && (SomeStarts(xs) <==> AnyStarts(events))
    && (OpensPlainly(xs, |xs|) <==> StartsPlainly(events))
  }

  /** Exchanges whose requests are as before start the same turns. */
  lemma SameStarts(xs: seq<Exchange>, ys: seq<Exchange>)
    requires |xs| == |ys| && forall k :: 0 <= k < |xs| ==> xs[k].request == ys[k].request
    ensures (SomeStarts(xs) <==> SomeStarts(ys)) && (OpensPlainly(xs, |xs|) <==> OpensPlainly(ys, |ys|))
  {
    forall k: nat | k < |xs| ensures xs[k].StartsTurn() <==> ys[k].StartsTurn() {
    }
    forall k: nat | k < |xs| ensures OpensUndeclared(xs, k) <==> OpensUndeclared(ys, k) {
    }
  }

  lemma OneMoreStart(xs: seq<Exchange>, x: Exchange)
    ensures var ys := xs + [x];
      && (SomeStarts(ys) <==> SomeStarts(xs) || x.StartsTurn())
      && (OpensPlainly(ys, |ys|) <==>
            OpensPlainly(xs, |xs|) || (x.StartsTurn() && !x.ContinuesContext() && !SomeStarts(xs)))
  {
    var ys := xs + [x];
    assert ys[|xs|] == x && forall k :: 0 <= k < |xs| ==> ys[k] == xs[k];
    forall k: nat | k < |xs| ensures OpensUndeclared(xs, k) <==> OpensUndeclared(ys, k) {
    }
  }

  lemma OpenedStarts(e: StreamEvent)
    ensures Added(Opened(e), e).StartsTurn() <==> Starts(e)
    ensures Starts(e) ==> (Added(Opened(e), e).ContinuesContext() <==> Continues(e))
  {
  }

  lemma JoinedKeepsRequests(xs: seq<Exchange>, e: StreamEvent, k: nat)
    requires k < |xs| && (e.facts.Request? ==> xs[k].request.Some?)
    ensures forall j :: 0 <= j < |xs| ==> Taken(xs, e, Some(k))[j].request == xs[j].request
  {
  }

  lemma {:induction false} GatheredStartAlike(events: seq<StreamEvent>)
    requires RequestsLead(events)
    ensures StartAlike(Gathered(events), events)
  {
    if events != [] {
      var before, e := events[..|events| - 1], events[|events| - 1];
      var xs := Gathered(before);
      LeadBefore(events);
      GatheredStartAlike(before);
      StartsPlainlyNext(events);
      match FirstPosition(xs, Answers(e.responseId)) {
        case None =>
          OpenedStarts(e);
          OneMoreStart(xs, Added(Opened(e), e));
        case Some(k) =>
          if e.facts.Request? {
            JoiningRequest(events, k);
          }
          JoinedKeepsRequests(xs, e, k);
          SameStarts(xs, Gathered(events));
      }
    }
  }

  /** A sequence in order is sorted already. */
  lemma {:induction false} SortedStays<T>(s: seq<T>, leq: (T, T) -> bool)
    requires Sorted(s, leq)
    ensures StableSort(s, leq) == s
  {
    if s != [] {
      var n := |s| - 1;
      SortedStays(s[..n], leq);
      assert n > 0 ==> leq(s[n - 1], s[n]);
      assert s == s[..n] + [s[n]];
    }
  }

  /** Exchanges in the order of their times, none after `last`. */
  ghost predicate InOrderUpTo(xs: seq<Exchange>, last: int) {
    && (forall k, l :: 0 <= k < l < |xs| ==> xs[k].at <= xs[l].at)
    && forall k :: 0 <= k < |xs| ==> xs[k].at <= last
  }

  lemma TimeBefore(events: seq<StreamEvent>)
    requires events != [] && InTimeOrder(events)
    ensures InTimeOrder(events[..|events| - 1])
    ensures |events| > 1 ==> events[|events| - 2].observedAt <= events[|events| - 1].observedAt
  {
  }

  /** In session order exchanges come up in the order of their times. */
  lemma {:induction false} GatheredInOrder(events: seq<StreamEvent>)
    requires InTimeOrder(events) && RequestsLead(events)
    ensures events != [] ==> InOrderUpTo(Gathered(events), events[|events| - 1].observedAt)
    ensures events == [] ==> Gathered(events) == []
  {
    if events != [] {
      var before, e := events[..|events| - 1], events[|events| - 1];
      TimeBefore(events);
      LeadBefore(events);
      GatheredInOrder(before);
      var found := FirstPosition(Gathered(before), Answers(e.responseId));
      if found.Some? && e.facts.Request? {
        JoiningRequest(events, found.value);
      }
      TakenInOrder(Gathered(before), e, found);
    }
  }

  lemma TakenInOrder(xs: seq<Exchange>, e: StreamEvent, found: Option<nat>)
    requires InOrderUpTo(xs, e.observedAt)
    requires found.Some? ==> found.value < |xs| && (e.facts.Request? ==> xs[found.value].request.Some?)
    ensures InOrderUpTo(Taken(xs, e, found), e.observedAt)
  {
    if found.Some? {
      assert Added(xs[found.value], e).at == xs[found.value].at;
    }
  }

  lemma GroupedIsGathered(events: seq<StreamEvent>)
    requires InTimeOrder(events) && RequestsLead(events)
    ensures Grouped(events) == Gathered(events)
  {
    var xs := Gathered(events);
    GatheredInOrder(events);
    forall k, l | 0 <= k < l < |xs| ensures NotLater()(xs[k], xs[l]) {
    }
    SortedStays(xs, NotLater());
  }

  /** In session order, with requests first, the count is the number of turns
      exactly when no two exchanges that open one share an id. */
  lemma LeadingRequestsAreCounted(events: seq<StreamEvent>)
    requires DeclaredValues(events) == {} && InTimeOrder(events) && RequestsLead(events)
    ensures var xs := Grouped(events);
      && TurnCount(events) <= CountedTurns(events)
      && (TurnCount(events) == CountedTurns(events) <==> IdsDiffer(xs, Openers(xs, |xs|)))
  {
    var xs := Grouped(events);
    UndeclaredTurnsAreCounted(events);
    NothingRepeats(events);
    GroupedIsGathered(events);
    GatheredStartAlike(events);
    NoneShared(xs, |xs|);
  }
}
