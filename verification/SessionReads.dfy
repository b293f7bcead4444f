/** Searching within one session: every hit in order, up to a cap, with its
    text's occurrences and the segment of its event. */
module SessionReads {
  import opened Collections
  import opened Encodings
  import opened Exchanges
  import opened Intervals
  import opened Matching
  import opened Patterns
  import opened SearchReads
  import opened SearchTables
  import opened Sorting
  import opened StreamLaws
  import opened Streams

  /** The cap on the hits of one response. */
  const MAX_IN_SESSION_HITS: nat := 100_000

  /** The occurrences of the query in a text, in UTF-16 code units. */
  function RangesOf(lower: char -> seq<char>, q: string, text: string): (ranges: seq<Range>)
    requires q != ""
  {
    UnitRanges(text, RangesAt(Leftmost(Fold(lower, text), q, 0), |q|))
  }

  function UnitRanges(text: string, ranges: seq<Range>): (r: seq<Range>)
    ensures |r| == |ranges|
  {
    seq(|ranges|, i requires 0 <= i < |ranges| =>
      (OffsetOf(text, ranges[i].0, Width16()), OffsetOf(text, ranges[i].1, Width16())))
  }

  /** Each range holds, in UTF-16 code units, one place where the folded query
      stands in the folded text. */
  lemma RangesHoldOccurrences(lower: char -> seq<char>, q: string, text: string, k: nat)
    requires q != "" && k < |RangesOf(lower, q, text)|
    ensures exists p: nat :: OccursAt(Fold(lower, text), q, p) && p + |q| <= |text|
              && RangesOf(lower, q, text)[k] == (|Encode16(text[..p])|, |Encode16(text[..p + |q|])|)
  {
    var p := StartOfRange(Fold(lower, text), q, k);
    EncodedLengths(text[..p]);
    EncodedLengths(text[..p + |q|]);
  }

  lemma StartOfRange(folded: string, q: string, k: nat) returns (p: nat)
    requires q != "" && k < |Leftmost(folded, q, 0)|
    ensures OccursAt(folded, q, p) && RangesAt(Leftmost(folded, q, 0), |q|)[k] == (p, p + |q|)
  {
    p := Leftmost(folded, q, 0)[k];
    LeftmostIsLeftmost(folded, q, 0);
    assert Found(folded, q)(p);
  }

  lemma SameUnits(text: string, ranges: seq<Range>, r: seq<Range>)
    requires AreRanges(ranges, |text|) && |r| == |ranges|
    requires forall i :: 0 <= i < |r| ==>
               r[i] == (Units(text[..ranges[i].0], Width16()), Units(text[..ranges[i].1], Width16()))
    ensures r == UnitRanges(text, ranges)
  {
  }

  method TextRanges(lower: char -> seq<char>, pattern: Pattern, text: string) returns (ranges: seq<Range>)
    requires pattern.folded != ""
    ensures ranges == RangesOf(lower, pattern.folded, text)
    ensures ranges != [] <==> Holds(lower, pattern.folded, text)
  {
    var occurrences := Occurrences(lower, pattern, text);
    OccurrencesAreRanges(lower, pattern, text);
    OccurrencesWhenMatching(lower, pattern, text);
    MatchesCharacters(lower, pattern, text);
    ranges := Utf16Ranges(text, occurrences);
    SameUnits(text, occurrences, ranges);
  }

  /** The ranges of the texts among `candidates` that have any. */
  ghost predicate AreRangesOf(out: Outside, t: Tables, candidates: set<int>, q: string, ranges: map<int, seq<Range>>) {
    && AreMatching(out, t, candidates, q, ranges.Keys)
    && (q != "" ==> forall id :: id in ranges && id in t.texts ==>
          ranges[id] == RangesOf(out.lower, q, t.texts[id].text))
  }

  method FindRanges(out: Outside, t: Tables, candidates: set<int>, pattern: Pattern)
    returns (ranges: map<int, seq<Range>>)
    requires pattern.folded != "" && candidates <= t.texts.Keys
    ensures AreRangesOf(out, t, candidates, pattern.folded, ranges)
  {
    ranges := map[];
    var rest := candidates;
    while rest != {}
      invariant rest <= candidates
      invariant AreRangesOf(out, t, candidates - rest, pattern.folded, ranges)
      decreases rest
    {
      var id := Any(rest);
      var found := TextRanges(out.lower, pattern, t.texts[id].text);
      if found != [] {
        ranges := ranges[id := found];
      }
      rest := rest - {id};
    }
    assert candidates - rest == candidates;
  }

  function FieldRank(field: Field): nat {
    match field
    case Name => 0
    case Text => 1
  }

  function ObservedAt(events: map<int, StoredEvent>, pk: int): int {
    if pk in events then events[pk].observedAt else 0
  }

  /** Earlier observations first; ties are broken by the reference itself. */
  function HitOrder(events: map<int, StoredEvent>): (Ref, Ref) -> bool {
    (a: Ref, b: Ref) =>
      if ObservedAt(events, a.event) != ObservedAt(events, b.event)
      then ObservedAt(events, a.event) < ObservedAt(events, b.event)
      else if a.event != b.event then a.event < b.event
      else if a.entryIndex != b.entryIndex then a.entryIndex < b.entryIndex
      else FieldRank(a.field) <= FieldRank(b.field)
  }

  /** A hit at `a` is listed before one at `b`: it was observed earlier; or at
      the same time, in an event with a smaller key; or at an earlier entry of
      that; or there it is the name, and the other the text. */
  ghost predicate ListedBefore(events: map<int, StoredEvent>, a: Ref, b: Ref) {
    && a.event in events && b.event in events
    && var s, t := events[a.event].observedAt, events[b.event].observedAt;
       || s < t
       || (s == t && a.event < b.event)
       || (s == t && a.event == b.event && a.entryIndex < b.entryIndex)
       || (s == t && a.event == b.event && a.entryIndex == b.entryIndex && a.field.Name? && b.field.Text?)
  }

  lemma InOrderIsListedBefore(events: map<int, StoredEvent>, a: Ref, b: Ref)
    requires a.event in events && b.event in events && a != b
    ensures HitOrder(events)(a, b) <==> ListedBefore(events, a, b)
  {
  }

  lemma HitOrderIsTotal(events: map<int, StoredEvent>)
    ensures TotalPreorder(HitOrder(events))
    ensures forall a, b :: HitOrder(events)(a, b) && HitOrder(events)(b, a) ==> a == b
  {
  }

  /** Every hit of the owner's session, in order. */
  ghost predicate AreAllHits(lower: char -> seq<char>, events: map<int, StoredEvent>, owner: string, q: string,
                             session: int, all: seq<Ref>)
  {
    && Distinct(all) && Sorted(all, HitOrder(events))
    && forall r: Ref :: r in all <==> IsNaiveHit(lower, events, owner, q, r) && events[r.event].session == session
  }

  /** Nothing but their order tells two lists of all hits apart, so there is one. */
  lemma {:induction false} SortedListIsUnique(events: map<int, StoredEvent>, a: seq<Ref>, b: seq<Ref>)
    requires Distinct(a) && Sorted(a, HitOrder(events)) && Distinct(b) && Sorted(b, HitOrder(events))
    requires forall r :: r in a <==> r in b
    ensures a == b
    decreases |a|
  {
    DistinctCount(a);
    DistinctCount(b);
    assert Elements(a) == Elements(b);
    if a != [] {
      assert a[0] in b && b[0] in a;
      HitOrderIsTotal(events);
      var i :| 0 <= i < |b| && b[i] == a[0];
      var j :| 0 <= j < |a| && a[j] == b[0];
      assert HitOrder(events)(a[0], b[0]) && HitOrder(events)(b[0], a[0]);
      assert a == [a[0]] + a[1..] && b == [b[0]] + b[1..];
      forall r ensures r in a[1..] <==> r in b[1..] {
        assert r in a <==> r == a[0] || r in a[1..];
        assert r in b <==> r == b[0] || r in b[1..];
      }
      SortedListIsUnique(events, a[1..], b[1..]);
    }
  }

  /** One hit of a session: its place, whether it is outside its event's
      inherited context, its text and the segment of its event. */
  datatype InSessionHit = InSessionHit(ref: Ref, isNew: bool, textId: int, segment: Option<string>)

  datatype InSession = InSession(hits: seq<InSessionHit>, texts: map<int, seq<Range>>, truncated: bool)

  function Taken<T>(s: seq<T>, n: nat): (r: seq<T>) {
    if |s| <= n then s else s[..n]
  }

  // ----- Segments

  /** A stored event as the session's structure reads it. */
  function StreamOf(pk: int, e: StoredEvent): StreamEvent {
    StreamEvent(pk, e.eventId, e.observedAt, e.responseId, e.previousResponseId, e.subagentId, e.parentSubagentId,
                e.turnId, e.facts)
  }

  predicate AnswersAt(events: map<int, StoredEvent>, pk: int) {
    pk in events && events[pk].facts.Response?
  }

  /** Earlier observations first, at one time requests before responses. */
  function EventOrder(events: map<int, StoredEvent>): (int, int) -> bool {
    (a: int, b: int) =>
      if ObservedAt(events, a) != ObservedAt(events, b) then ObservedAt(events, a) < ObservedAt(events, b)
      else if AnswersAt(events, a) != AnswersAt(events, b) then AnswersAt(events, b)
      else a <= b
  }

  lemma EventOrderIsTotal(events: map<int, StoredEvent>)
    ensures TotalPreorder(EventOrder(events))
  {
  }

  /** `es` are the stored events of the session, in order. */
  ghost predicate AreSessionEvents(events: map<int, StoredEvent>, session: int, es: seq<StreamEvent>) {
    && Distinct(Pks(es)) && Sorted(Pks(es), EventOrder(events))
    && (forall pk :: pk in Pks(es) <==> pk in events && events[pk].session == session)
    && forall i :: 0 <= i < |es| ==> es[i].pk in events && es[i] == StreamOf(es[i].pk, events[es[i].pk])
  }

  /** `a` comes before `b` in its session: observed earlier, or at one time a
      request before a response, and of one side by the smaller key. */
  ghost predicate SentBefore(a: StreamEvent, b: StreamEvent) {
    || a.observedAt < b.observedAt
    || (a.observedAt == b.observedAt && a.facts.Request? && b.facts.Response?)
    || (a.observedAt == b.observedAt && a.facts.Request? == b.facts.Request? && a.pk < b.pk)
  }

  /** The event is read as it is stored. */
  ghost predicate ReadsStored(a: StreamEvent, e: StoredEvent) {
    && a.eventId == e.eventId && a.observedAt == e.observedAt && a.facts == e.facts
    && a.responseId == e.responseId && a.previousResponseId == e.previousResponseId
    && a.turnId == e.turnId && a.subagentId == e.subagentId && a.parentSubagentId == e.parentSubagentId
  }

  /** A session's events are read as stored, in session order. */
  lemma SessionEventsInOrder(events: map<int, StoredEvent>, session: int, es: seq<StreamEvent>, i: nat, j: nat)
    requires AreSessionEvents(events, session, es) && i < j < |es|
    ensures SentBefore(es[i], es[j])
    ensures es[i].pk in events && ReadsStored(es[i], events[es[i].pk])
    ensures es[j].pk in events && ReadsStored(es[j], events[es[j].pk])
  {
    assert Pks(es)[i] == es[i].pk && Pks(es)[j] == es[j].pk;
    assert EventOrder(events)(Pks(es)[i], Pks(es)[j]);
  }

  method SessionEvents(events: map<int, StoredEvent>, session: int) returns (es: seq<StreamEvent>)
    ensures AreSessionEvents(events, session, es)
  {
    EventOrderIsTotal(events);
    var pks := ListSorted((set pk | pk in events && events[pk].session == session), EventOrder(events));
    forall i | 0 <= i < |pks| ensures pks[i] in events {
      assert pks[i] in pks;
    }
    es := seq(|pks|, i requires 0 <= i < |pks| => StreamOf(pks[i], events[pks[i]]));
    assert Pks(es) == pks;
  }

  /** `head` names the segment that holds the exchange of event `pk`, in the
      structure derived from the session's events. */
  ghost predicate InItsSegment(es: seq<StreamEvent>, pk: int, head: Option<string>) {
    exists st, i: nat, location :: Derived(es, st) && StandsAt(es, st, i, location)
                                   && pk in Grouped(es)[i].eventPks && head == Some(location.segment)
  }

  /** Every hit names the segment of its own event, among all events of the session. */
  ghost predicate InTheirSegments(events: map<int, StoredEvent>, session: int, hits: seq<InSessionHit>) {
    hits != [] ==>
      exists es :: AreSessionEvents(events, session, es) && All(hits, NamesItsSegment(es))
  }

  ghost function NamesItsSegment(es: seq<StreamEvent>): InSessionHit -> bool {
    (hit: InSessionHit) => InItsSegment(es, hit.ref.event, hit.segment)
  }

  lemma SegmentIsFound(es: seq<StreamEvent>, st: SessionStructure, pk: int)
    requires Derived(es, st) && Distinct(Pks(es)) && pk in Pks(es)
    ensures InItsSegment(es, pk, st.EventSegment(pk))
  {
    EventsAreLocated(es, st, pk);
    EventSegmentIsItsPosition(es, st, pk);
  }

  /** The segment of each event. */
  method Segments(es: seq<StreamEvent>, pks: seq<int>) returns (heads: seq<Option<string>>)
    requires Distinct(Pks(es)) && forall k :: 0 <= k < |pks| ==> pks[k] in Pks(es)
    ensures |heads| == |pks| && forall k :: 0 <= k < |pks| ==> InItsSegment(es, pks[k], heads[k])
  {
    var st := Derive(es);
    assert Locates(st);
    heads := HeadsAt(st, pks);
    SegmentsAreFound(es, st, pks, heads);
  }

  /** A structure that can tell the segment of every event it knows. */
  ghost predicate Locates(st: SessionStructure) {
    st.Valid() && forall pk :: pk in st.eventToExchange ==> st.eventToExchange[pk] < |st.exchanges|
  }

  method HeadsAt(st: SessionStructure, pks: seq<int>) returns (heads: seq<Option<string>>)
    requires Locates(st)
    ensures |heads| == |pks| && forall k :: 0 <= k < |pks| ==> heads[k] == st.EventSegment(pks[k])
  {
    heads := [];
    for k := 0 to |pks|
      invariant |heads| == k && forall l :: 0 <= l < k ==> heads[l] == st.EventSegment(pks[l])
    {
      heads := heads + [st.EventSegment(pks[k])];
    }
  }

  lemma SegmentsAreFound(es: seq<StreamEvent>, st: SessionStructure, pks: seq<int>, heads: seq<Option<string>>)
    requires Derived(es, st) && Distinct(Pks(es)) && forall k :: 0 <= k < |pks| ==> pks[k] in Pks(es)
    requires |heads| == |pks| && forall k :: 0 <= k < |pks| ==> heads[k] == st.EventSegment(pks[k])
    ensures forall k :: 0 <= k < |pks| ==> InItsSegment(es, pks[k], heads[k])
  {
    forall k | 0 <= k < |pks| ensures InItsSegment(es, pks[k], heads[k]) {
      SegmentIsFound(es, st, pks[k]);
    }
  }

  /** Fills in the segments, once the session's structure is derived. */
  method FillSegments(events: map<int, StoredEvent>, session: int, hits: seq<InSessionHit>)
    returns (filled: seq<InSessionHit>)
    requires forall k :: 0 <= k < |hits| ==>
               hits[k].ref.event in events && events[hits[k].ref.event].session == session
    ensures |filled| == |hits| && InTheirSegments(events, session, filled)
    ensures forall k :: 0 <= k < |hits| ==> filled[k] == hits[k].(segment := filled[k].segment)
  {
    if hits == [] {
      return hits;
    }
    var es := SessionEvents(events, session);
    var heads := Segments(es, seq(|hits|, k requires 0 <= k < |hits| => hits[k].ref.event));
    filled := seq(|hits|, k requires 0 <= k < |hits| => hits[k].(segment := heads[k]));
  }

  // ----- The response

  /** What the response says of the hit at `r`, its segment aside. */
  ghost predicate Tells(lower: char -> seq<char>, events: map<int, StoredEvent>, q: string, r: Ref, hit: InSessionHit,
                        texts: map<int, seq<Range>>)
    requires q != ""
  {
    && hit.ref == r && r.event in events && (hit.isNew <==> IsNew(events[r.event], r.entryIndex))
    && PieceAt(events[r.event].entries, r.entryIndex, r.field).Some?
    && hit.textId in texts
    && texts[hit.textId] == RangesOf(lower, q, PieceAt(events[r.event].entries, r.entryIndex, r.field).value)
  }

  /** The response holds the first of all hits, each with its occurrences and
      its segment, no text no hit names, and whether any hit was left out. */
  ghost predicate IsResponse(lower: char -> seq<char>, events: map<int, StoredEvent>, session: int, q: string,
                             all: seq<Ref>, response: InSession)
    requires q != ""
  {
    && |response.hits| == Min(|all|, MAX_IN_SESSION_HITS)
    && (response.truncated <==> |all| > MAX_IN_SESSION_HITS)
    && (forall k :: 0 <= k < |response.hits| ==>
          Tells(lower, events, q, all[k], response.hits[k], response.texts))
    && (forall id :: id in response.texts ==> exists k :: 0 <= k < |response.hits| && response.hits[k].textId == id)
    && InTheirSegments(events, session, response.hits)
  }

  /** Every hit of the owner's session is shown, or else some were left out and
      it comes behind every hit shown; those are listed in order. */
  ghost predicate ShowsTheFirst(lower: char -> seq<char>, events: map<int, StoredEvent>, owner: string, q: string,
                                session: int, response: InSession)
  {
    && (forall k: nat, l: nat :: k < l < |response.hits| ==>
          ListedBefore(events, response.hits[k].ref, response.hits[l].ref))
    && (forall k: nat :: k < |response.hits| ==> IsHitOf(lower, events, owner, q, session, response.hits[k].ref))
    && forall r: Ref :: IsHitOf(lower, events, owner, q, session, r) ==>
         || (exists k :: 0 <= k < |response.hits| && response.hits[k].ref == r)
         || (response.truncated && |response.hits| == 100_000
             && forall k: nat :: k < |response.hits| ==> ListedBefore(events, response.hits[k].ref, r))
  }

  ghost predicate IsHitOf(lower: char -> seq<char>, events: map<int, StoredEvent>, owner: string, q: string,
                          session: int, r: Ref)
  {
    IsNaiveHit(lower, events, owner, q, r) && events[r.event].session == session
  }

  lemma AllInOrder(lower: char -> seq<char>, events: map<int, StoredEvent>, owner: string, q: string, session: int,
                   all: seq<Ref>, k: nat, l: nat)
    requires AreAllHits(lower, events, owner, q, session, all) && k < l < |all|
    ensures ListedBefore(events, all[k], all[l])
  {
    assert all[k] in all && all[l] in all && HitOrder(events)(all[k], all[l]);
    InOrderIsListedBefore(events, all[k], all[l]);
  }

  lemma ResponseShowsTheFirst(lower: char -> seq<char>, events: map<int, StoredEvent>, owner: string, q: string,
                              session: int, all: seq<Ref>, response: InSession)
    requires q != "" && AreAllHits(lower, events, owner, q, session, all)
    requires IsResponse(lower, events, session, q, all, response)
    ensures ShowsTheFirst(lower, events, owner, q, session, response)
  {
    var hits := response.hits;
    forall k: nat | k < |hits| ensures hits[k].ref == all[k] && all[k] in all {
      assert Tells(lower, events, q, all[k], hits[k], response.texts);
    }
    forall k: nat, l: nat | k < l < |hits| ensures ListedBefore(events, hits[k].ref, hits[l].ref) {
      AllInOrder(lower, events, owner, q, session, all, k, l);
    }
    forall r: Ref | IsHitOf(lower, events, owner, q, session, r)
      ensures || (exists k :: 0 <= k < |hits| && hits[k].ref == r)
              || (|hits| < |all| && forall k: nat :: k < |hits| ==> ListedBefore(events, hits[k].ref, r))
    {
      ShownOrBehind(lower, events, owner, q, session, all, hits, r);
    }
  }

  lemma ShownOrBehind(lower: char -> seq<char>, events: map<int, StoredEvent>, owner: string, q: string, session: int,
                      all: seq<Ref>, hits: seq<InSessionHit>, r: Ref)
    requires AreAllHits(lower, events, owner, q, session, all) && IsHitOf(lower, events, owner, q, session, r)
    requires |hits| <= |all| && forall k :: 0 <= k < |hits| ==> hits[k].ref == all[k]
    ensures || (exists k :: 0 <= k < |hits| && hits[k].ref == r)
            || (|hits| < |all| && forall k: nat :: k < |hits| ==> ListedBefore(events, hits[k].ref, r))
  {
    assert r in all;
    var l :| 0 <= l < |all| && all[l] == r;
    if l < |hits| {
      assert hits[l].ref == r;
    } else {
      forall k: nat | k < |hits| ensures ListedBefore(events, hits[k].ref, r) {
        AllInOrder(lower, events, owner, q, session, all, k, l);
      }
    }
  }

  /** The hits at `refs`, without their segments. */
  function HitsAt(t: Tables, refs: seq<Ref>): (hits: seq<InSessionHit>)
    requires forall k :: 0 <= k < |refs| ==> refs[k] in t.refs && refs[k].event in t.events
    ensures |hits| == |refs|
    ensures forall k :: 0 <= k < |refs| ==>
              hits[k] == InSessionHit(refs[k], IsNew(t.events[refs[k].event], refs[k].entryIndex), t.refs[refs[k]],
                                      None)
  {
    seq(|refs|, k requires 0 <= k < |refs| =>
      InSessionHit(refs[k], IsNew(t.events[refs[k].event], refs[k].entryIndex), t.refs[refs[k]], None))
  }

  /** The ranges of the texts the hits name. */
  function NamedTexts(hits: seq<InSessionHit>, ranges: map<int, seq<Range>>): (texts: map<int, seq<Range>>)
    ensures forall id :: id in texts <==> id in ranges && exists k :: 0 <= k < |hits| && hits[k].textId == id
    ensures forall id :: id in texts ==> texts[id] == ranges[id]
  {
    var named := set k | 0 <= k < |hits| :: hits[k].textId;
    map id | id in named && id in ranges :: ranges[id]
  }

  /** Cuts the hits, of which there may be one too many, and names their texts. */
  function FromHits(hits: seq<InSessionHit>, ranges: map<int, seq<Range>>): InSession {
    var shown := Taken(hits, MAX_IN_SESSION_HITS);
    InSession(shown, NamedTexts(shown, ranges), |hits| > MAX_IN_SESSION_HITS)
  }

  lemma FewerInTheirSegments(events: map<int, StoredEvent>, session: int, hits: seq<InSessionHit>, n: nat)
    requires InTheirSegments(events, session, hits)
    ensures InTheirSegments(events, session, Taken(hits, n))
  {
    if Taken(hits, n) != [] {
      var es :| AreSessionEvents(events, session, es) && All(hits, NamesItsSegment(es));
      AllOfPrefix(hits, |Taken(hits, n)|, NamesItsSegment(es));
      assert Taken(hits, n) == hits[..|Taken(hits, n)|];
    }
  }

  /** A reference that leads to a text with ranges tells its hit. */
  lemma RefTells(out: Outside, t: Tables, q: string, candidates: set<int>, r: Ref, hit: InSessionHit,
                 ranges: map<int, seq<Range>>, texts: map<int, seq<Range>>)
    requires AreRangesOf(out, t, candidates, q, ranges) && q != ""
    requires r in t.refs && RefHolds(t, r) && t.refs[r] in ranges
    requires hit.ref == r && hit.textId == t.refs[r] && (hit.isNew <==> IsNew(t.events[r.event], r.entryIndex))
    requires hit.textId in texts && texts[hit.textId] == ranges[hit.textId]
    ensures Tells(out.lower, t.events, q, r, hit, texts)
  {
  }

  /** The hits list what the references lead to, up to one more than the cap. */
  ghost predicate AreHitsOf(t: Tables, all: seq<Ref>, hits: seq<InSessionHit>) {
    && |hits| == Min(|all|, MAX_IN_SESSION_HITS + 1)
    && forall k :: 0 <= k < |hits| ==>
         && hits[k].ref == all[k] && all[k] in t.refs && all[k].event in t.events && hits[k].textId == t.refs[all[k]]
         && (hits[k].isNew <==> IsNew(t.events[all[k].event], all[k].entryIndex))
  }

  lemma HitsTell(out: Outside, t: Tables, q: string, candidates: set<int>, all: seq<Ref>, hits: seq<InSessionHit>,
                 ranges: map<int, seq<Range>>)
    requires AreRangesOf(out, t, candidates, q, ranges) && q != "" && AreHitsOf(t, all, hits)
    requires forall r :: r in all ==> r in t.refs && RefHolds(t, r) && t.refs[r] in ranges
    ensures var response := FromHits(hits, ranges);
      forall k :: 0 <= k < |response.hits| ==>
        Tells(out.lower, t.events, q, all[k], response.hits[k], response.texts)
  {
    var response := FromHits(hits, ranges);
    forall k | 0 <= k < |response.hits|
      ensures Tells(out.lower, t.events, q, all[k], response.hits[k], response.texts)
    {
      assert all[k] in all && response.hits[k] == hits[k];
      RefTells(out, t, q, candidates, all[k], hits[k], ranges, response.texts);
    }
  }

  /** Lists the hits, with their segments. */
  method ListHits(t: Tables, session: int, all: seq<Ref>) returns (hits: seq<InSessionHit>)
    requires forall r :: r in all ==> r in t.refs && r.event in t.events && t.events[r.event].session == session
    ensures AreHitsOf(t, all, hits) && InTheirSegments(t.events, session, hits)
  {
    var loaded := Taken(all, MAX_IN_SESSION_HITS + 1);
    forall k | 0 <= k < |loaded| ensures loaded[k] == all[k] && loaded[k] in all {
    }
    hits := FillSegments(t.events, session, HitsAt(t, loaded));
  }

  /** The response to the references found, in order. */
  method Respond(out: Outside, t: Tables, session: int, q: string, ghost candidates: set<int>, all: seq<Ref>,
                 ranges: map<int, seq<Range>>)
    returns (response: InSession)
    requires AreRangesOf(out, t, candidates, q, ranges) && q != ""
    requires forall r :: r in all ==> r in t.refs && RefHolds(t, r) && t.refs[r] in ranges
                                      && t.events[r.event].session == session
    ensures IsResponse(out.lower, t.events, session, q, all, response)
  {
    var hits := ListHits(t, session, all);
    response := FromHits(hits, ranges);
    FewerInTheirSegments(t.events, session, hits, MAX_IN_SESSION_HITS);
    HitsTell(out, t, q, candidates, all, hits, ranges);
  }

  /** Every hit in one session, in order, and the ranges of all matching texts. */
  method FindHits(out: Outside, t: Tables, owner: string, session: int, pattern: Pattern, matched: set<int>)
    returns (all: seq<Ref>, ranges: map<int, seq<Range>>, ghost candidates: set<int>)
    requires Consistent(out, t) && pattern.folded != "" && MatchContract(t, pattern.folded, matched)
    ensures AreRangesOf(out, t, candidates, pattern.folded, ranges)
    ensures AreAllHits(out.lower, t.events, owner, pattern.folded, session, all)
    ensures forall r :: r in all ==> r in t.refs && RefHolds(t, r) && t.refs[r] in ranges
                                     && t.events[r.event].session == session
  {
    var texts := Candidates(t, owner, pattern.folded, Some(session), matched);
    candidates := texts;
    ranges := FindRanges(out, t, texts, pattern);
    var found := set r | r in t.refs && r.event in t.events && t.events[r.event].owner == owner
                         && t.events[r.event].session == session && t.refs[r] in ranges;
    FoundAreHits(out, t, owner, pattern.folded, session, matched, ranges, found);
    HitOrderIsTotal(t.events);
    all := ListSorted(found, HitOrder(t.events));
  }

  /** Every hit in one session of the owner, up to the cap; a session the owner
      does not have is not found. */
  method SearchInSession(out: Outside, t: Tables, owner: string, session: int, pattern: Pattern, matched: set<int>)
    returns (response: Option<InSession>)
    requires Consistent(out, t) && pattern.folded != "" && MatchContract(t, pattern.folded, matched)
    ensures response.None? <==>
              forall pk :: pk in t.events ==> !(t.events[pk].owner == owner && t.events[pk].session == session)
    ensures response.Some? ==>
              exists all :: AreAllHits(out.lower, t.events, owner, pattern.folded, session, all)
                            && IsResponse(out.lower, t.events, session, pattern.folded, all, response.value)
    ensures response.Some? ==>
              ShowsTheFirst(out.lower, t.events, owner, pattern.folded, session, response.value)
  {
    if forall pk :: pk in t.events ==> !(t.events[pk].owner == owner && t.events[pk].session == session) {
      return None;
    }
    ghost var candidates;
    var all, ranges;
    all, ranges, candidates := FindHits(out, t, owner, session, pattern, matched);
    var answer := Respond(out, t, session, pattern.folded, candidates, all, ranges);
    ResponseShowsTheFirst(out.lower, t.events, owner, pattern.folded, session, all, answer);
    response := Some(answer);
  }

  lemma FoundAreHits(out: Outside, t: Tables, owner: string, q: string, session: int, matched: set<int>,
                     ranges: map<int, seq<Range>>, found: set<Ref>)
    requires Consistent(out, t) && MatchContract(t, q, matched)
    requires AreRangesOf(out, t, Candidates(t, owner, q, Some(session), matched), q, ranges)
    requires found == set r | r in t.refs && r.event in t.events && t.events[r.event].owner == owner
                              && t.events[r.event].session == session && t.refs[r] in ranges
    ensures forall r: Ref :: r in found <==>
              IsNaiveHit(out.lower, t.events, owner, q, r) && t.events[r.event].session == session
    ensures forall r :: r in found ==> r in t.refs && RefHolds(t, r)
  {
    forall r: Ref
      ensures r in found <==> IsNaiveHit(out.lower, t.events, owner, q, r) && t.events[r.event].session == session
    {
      if r.event in t.events && t.events[r.event].session == session {
        MatchingRefsAreNaiveHits(out, t, owner, q, Some(session), matched, ranges.Keys, r);
      }
    }
    forall r | r in found ensures r in t.refs && RefHolds(t, r) {
    }
  }
}
