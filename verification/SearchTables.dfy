/** What the search tables hold: events, the distinct texts of their entries,
    the folded form of each, and a reference for every piece. */
module SearchTables {
  import opened Collections
  import opened Encodings
  import opened Exchanges
  import opened FactLaws
  import opened Facts
  import opened Matching
  import opened Trigrams

  datatype Field = Name | Text

  /** The string values of one conversation entry that can be searched. */
  datatype TextEntry = TextEntry(name: Option<string>, text: Option<string>)

  datatype StoredEvent = StoredEvent(
    owner: string,
    eventId: string,
    session: int,
    observedAt: int,
    agent: string,
    provider: string,
    model: string,
    responseId: Option<string>,
    previousResponseId: Option<string>,
    subagentId: Option<string>,
    parentSubagentId: Option<string>,
    turnId: Option<string>,
    facts: EventFacts,
    entries: seq<TextEntry>)

  /** One nonempty value of one entry. */
  datatype Piece = Piece(entryIndex: nat, field: Field, text: string)

  datatype Ref = Ref(event: int, entryIndex: nat, field: Field)

  datatype TextRow = TextRow(owner: string, digest: int, text: string)

  datatype Tables = Tables(
    events: map<int, StoredEvent>,
    texts: map<int, TextRow>,
    trigrams: map<int, string>,
    refs: map<Ref, int>,
    nextId: int)

  /** What the tables take from elsewhere: a text's digest, which tells texts
      apart, and the Unicode lowercase table. */
  datatype Outside = Outside(digest: string -> int, lower: char -> seq<char>)

  ghost predicate TellsApart(digest: string -> int) {
    forall a, b :: digest(a) == digest(b) ==> a == b
  }

  function ValueOf(e: TextEntry, field: Field): (text: Option<string>) {
    match field
    case Name => e.name
    case Text => e.text
  }

  /** The text an event holds at one place; an empty value is no piece. */
  function PieceAt(entries: seq<TextEntry>, i: nat, field: Field): (text: Option<string>) {
    if i < |entries| && ValueOf(entries[i], field).Some? && ValueOf(entries[i], field).value != "" then
      ValueOf(entries[i], field)
    else None
  }

  function PiecesOf(entries: seq<TextEntry>, i: nat, field: Field): seq<Piece> {
    match PieceAt(entries, i, field)
    case None => []
    case Some(text) => [Piece(i, field, text)]
  }

  /** The pieces of the first `n` entries, in order, names before texts. */
  function Pieces(entries: seq<TextEntry>, n: nat): (pieces: seq<Piece>)
    requires n <= |entries|
  {
    if n == 0 then []
    else Pieces(entries, n - 1) + PiecesOf(entries, n - 1, Name) + PiecesOf(entries, n - 1, Text)
  }

  /** Whether `pieces` lists exactly the pieces of the first `n` entries. */
  ghost predicate AreThePieces(entries: seq<TextEntry>, n: nat, pieces: seq<Piece>) {
    && (forall k :: 0 <= k < |pieces| ==>
          pieces[k].entryIndex < n
          && PieceAt(entries, pieces[k].entryIndex, pieces[k].field) == Some(pieces[k].text))
    && (forall i, f :: 0 <= i < n && PieceAt(entries, i, f).Some? ==>
          Piece(i, f, PieceAt(entries, i, f).value) in pieces)
  }

  lemma {:induction false} PiecesAreThePieces(entries: seq<TextEntry>, n: nat)
    requires n <= |entries|
    ensures AreThePieces(entries, n, Pieces(entries, n))
  {
    if n > 0 {
      PiecesAreThePieces(entries, n - 1);
      OneMoreEntry(entries, n - 1, Pieces(entries, n - 1));
    }
  }

  lemma OneMoreEntry(entries: seq<TextEntry>, n: nat, before: seq<Piece>)
    requires n < |entries| && AreThePieces(entries, n, before)
    ensures AreThePieces(entries, n + 1, before + PiecesOf(entries, n, Name) + PiecesOf(entries, n, Text))
  {
    var after := before + PiecesOf(entries, n, Name) + PiecesOf(entries, n, Text);
    forall i, f | 0 <= i < n + 1 && PieceAt(entries, i, f).Some?
      ensures Piece(i, f, PieceAt(entries, i, f).value) in after
    {
      if i == n {
        assert Piece(i, f, PieceAt(entries, i, f).value) in PiecesOf(entries, n, f);
      }
    }
  }

  // ----- What the tables keep

  /** One text per owner and digest. */
  ghost predicate TextsOk(out: Outside, t: Tables) {
    && (forall id :: id in t.texts ==> id < t.nextId && t.texts[id].digest == out.digest(t.texts[id].text))
    && forall a, b :: a in t.texts && b in t.texts && a != b ==>
         !(t.texts[a].owner == t.texts[b].owner && t.texts[a].digest == t.texts[b].digest)
  }

  /** The trigram index holds the folded form of each text under its id. */
  ghost predicate TrigramsOk(out: Outside, t: Tables) {
    && t.trigrams.Keys == t.texts.Keys
    && forall id :: id in t.texts ==> t.trigrams[id] == Fold(out.lower, t.texts[id].text)
  }

  /** A reference leads to the text its event holds there. */
  ghost predicate RefHolds(t: Tables, r: Ref)
    requires r in t.refs
  {
    && t.refs[r] in t.texts
    && r.event in t.events
    && t.texts[t.refs[r]].owner == t.events[r.event].owner
    && PieceAt(t.events[r.event].entries, r.entryIndex, r.field) == Some(t.texts[t.refs[r]].text)
  }

  ghost predicate RefsOk(t: Tables) {
    forall r :: r in t.refs ==> RefHolds(t, r)
  }

  /** Whether a reference's place holds a piece. */
  ghost predicate HasPiece(events: map<int, StoredEvent>, r: Ref) {
    r.event in events && PieceAt(events[r.event].entries, r.entryIndex, r.field).Some?
  }

  /** Every piece of the events among `pks` has its reference. */
  ghost predicate Referenced(t: Tables, pks: set<int>) {
    forall r: Ref :: r.event in pks && HasPiece(t.events, r) ==> r in t.refs
  }

  ghost predicate EventIdsDiffer(events: map<int, StoredEvent>) {
    forall a, b :: a in events && b in events && a != b ==> events[a].eventId != events[b].eventId
  }

  /** The tables between ingests. */
  ghost predicate Consistent(out: Outside, t: Tables) {
    && TextsOk(out, t) && TrigramsOk(out, t) && RefsOk(t)
    && Referenced(t, t.events.Keys) && EventIdsDiffer(t.events)
  }

  /** Equal texts of one owner are one row. */
  lemma OneRowPerText(out: Outside, t: Tables, a: int, b: int)
    requires TellsApart(out.digest) && TextsOk(out, t) && a in t.texts && b in t.texts
    ensures t.texts[a].owner == t.texts[b].owner && t.texts[a].text == t.texts[b].text ==> a == b
    ensures t.texts[a].digest == t.texts[b].digest ==> t.texts[a].text == t.texts[b].text
  {
  }

  // ----- Hits

  datatype Query = Query(
    from: Option<int>,
    to: Option<int>,
    agents: seq<string>,
    providers: seq<string>,
    models: seq<string>,
    eventType: Option<string>)

  /** Any of `values`; an empty list filters nothing. */
  predicate AnyOf(value: string, values: seq<string>) {
    values == [] || value in values
  }

  function TypeName(e: StoredEvent): string {
    if e.facts.Response? then "response" else "request"
  }

  predicate Passes(query: Query, e: StoredEvent) {
    && (query.from.Some? ==> query.from.value <= e.observedAt)
    && (query.to.Some? ==> e.observedAt < query.to.value)
    && AnyOf(e.agent, query.agents) && AnyOf(e.provider, query.providers) && AnyOf(e.model, query.models)
    && (query.eventType.Some? ==> TypeName(e) == query.eventType.value)
  }

  /** Whether a hit is outside its event's inherited context. */
  predicate IsNew(e: StoredEvent, entryIndex: nat) {
    e.facts.Response? || e.facts.request.newFrom <= entryIndex
  }

  /** A request's pieces are new exactly behind all model output it holds, or
      where a 32-bit index no longer tells. */
  lemma NewMeansBehindModelOutput(lib: Library, entries: seq<Entry>, e: StoredEvent, i: nat)
    requires e.facts == Request(ReadRequest(lib, entries))
    ensures IsNew(e, i) <==> BehindLast(entries) <= i || MAX_I32 <= i
    ensures BehindLast(entries) <= i <==> forall j :: i <= j < |entries| ==> !entries[j].role.IsModelSide()
  {
    NewPartFollowsModelOutput(lib, entries);
    assert OutputEndsAt(entries, BehindLast(entries));
  }

  datatype Hit = Hit(session: int, observedAt: int, isNew: bool, textId: int)

  /** Naive search in one text: the query stands somewhere, once it is folded. */
  ghost predicate Holds(lower: char -> seq<char>, q: string, text: string) {
    exists k :: 0 <= k <= |text| && OccursAt(Fold(lower, text), q, k)
  }

  /** Whether a piece of one of the owner's events is a hit, by folding it. */
  ghost predicate IsNaiveHit(lower: char -> seq<char>, events: map<int, StoredEvent>, owner: string, q: string, r: Ref)
  {
    && r.event in events && events[r.event].owner == owner
    && PieceAt(events[r.event].entries, r.entryIndex, r.field).Some?
    && Holds(lower, q, PieceAt(events[r.event].entries, r.entryIndex, r.field).value)
  }

  /** What the full-text index promises: every text whose folded form has all
      trigrams asked for, and nothing it does not hold. */
  ghost predicate MatchContract(t: Tables, q: string, matched: set<int>) {
    && matched <= t.trigrams.Keys
    && forall id :: id in t.trigrams && HoldsAll(t.trigrams[id], Terms(q, WindowCount(q))) ==> id in matched
  }

  /** Whether some event of the owner's session refers to the text. */
  predicate UsedInSession(t: Tables, owner: string, session: int, id: int) {
    exists r :: r in t.refs && t.refs[r] == id && r.event in t.events
                && t.events[r.event].owner == owner && t.events[r.event].session == session
  }

  /** What is left to verify: the matched rows of one owner, within a session. */
  function Candidates(t: Tables, owner: string, q: string, session: Option<int>, matched: set<int>): (ids: set<int>) {
    set id | id in t.texts
             && (Expression(q).Some? ==> id in matched)
             && t.texts[id].owner == owner
             && (session.Some? ==> UsedInSession(t, owner, session.value, id))
  }

  /** No text that holds the query is lost among the candidates. */
  lemma CandidatesMissNothing(out: Outside, t: Tables, owner: string, q: string, session: Option<int>,
                              matched: set<int>, id: int)
    requires TrigramsOk(out, t) && MatchContract(t, q, matched)
    requires id in t.texts && t.texts[id].owner == owner && Holds(out.lower, q, t.texts[id].text)
    requires session.Some? ==> UsedInSession(t, owner, session.value, id)
    ensures id in Candidates(t, owner, q, session, matched)
  {
    var folded := Fold(out.lower, t.texts[id].text);
    var k :| 0 <= k <= |folded| && OccursAt(folded, q, k);
    HoldersHoldEveryTerm(folded, q, k);
    assert t.trigrams[id] == folded;
  }
}
