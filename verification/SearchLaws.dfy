/** What a batch leaves, what a hit is and which filters it passes, told by the
    events alone. */
module SearchLaws {
  import opened Collections
  import opened Encodings
  import opened Matching
  import opened SearchStore
  import opened SearchTables
  import opened Trigrams

  // ----- Batches

  /** No stored event, and none before `i` in the batch, has its event id. */
  ghost predicate IsFresh(events: map<int, StoredEvent>, batch: seq<Incoming>, i: nat) {
    && i < |batch|
    && (forall pk :: pk in events ==> events[pk].eventId != batch[i].event.eventId)
    && forall j :: 0 <= j < i ==> batch[j].event.eventId != batch[i].event.eventId
  }

  /** A nonempty value stands beyond the greatest 32-bit index. */
  ghost predicate ReachesTooFar(entries: seq<TextEntry>) {
    exists i: nat :: 2147483647 < i < |entries| && HoldsSomething(entries[i])
  }

  ghost predicate HoldsSomething(e: TextEntry) {
    (e.name.Some? && e.name.value != "") || (e.text.Some? && e.text.value != "")
  }

  lemma FarIsTooMany(entries: seq<TextEntry>)
    ensures TooManyEntries(entries) <==> ReachesTooFar(entries)
  {
    if i, f :| i > 2147483647 && PieceAt(entries, i, f).Some? {
      assert HoldsSomething(entries[i]);
    }
    if i: nat :| 2147483647 < i < |entries| && HoldsSomething(entries[i]) {
      assert PieceAt(entries, i, Name).Some? || PieceAt(entries, i, Text).Some?;
    }
  }

  /** `after` holds the events and what the batch brings anew, and nothing else. */
  ghost predicate HoldsBoth(events: map<int, StoredEvent>, batch: seq<Incoming>, after: map<int, StoredEvent>) {
    && (forall pk :: pk in events ==> pk in after && after[pk] == events[pk])
    && (forall i: nat :: IsFresh(events, batch, i) ==> batch[i].pk in after && after[batch[i].pk] == batch[i].event)
    && forall pk :: pk in after ==> pk in events || exists i: nat :: IsFresh(events, batch, i) && batch[i].pk == pk
  }

  /** Every event id of the batch is stored in the end. */
  ghost predicate AllKnown(batch: seq<Incoming>, after: map<int, StoredEvent>) {
    forall i :: 0 <= i < |batch| ==> Known(after, batch[i].event.eventId)
  }

  lemma FreshBefore(events: map<int, StoredEvent>, batch: seq<Incoming>, i: nat)
    requires batch != [] && i < |batch| - 1
    ensures IsFresh(events, batch, i) <==> IsFresh(events, batch[..|batch| - 1], i)
  {
  }

  /** The last event is fresh exactly when it is not known by then. */
  lemma FreshLast(events: map<int, StoredEvent>, batch: seq<Incoming>, before: map<int, StoredEvent>)
    requires batch != [] && HoldsBoth(events, batch[..|batch| - 1], before) && AllKnown(batch[..|batch| - 1], before)
    ensures IsFresh(events, batch, |batch| - 1) <==> !Known(before, batch[|batch| - 1].event.eventId)
  {
    var n := |batch| - 1;
    var id, rest := batch[n].event.eventId, batch[..n];
    if Known(before, id) {
      var pk :| pk in before && before[pk].eventId == id;
      if pk !in events {
        var i: nat :| IsFresh(events, rest, i) && rest[i].pk == pk;
        assert batch[i].event.eventId == id;
      }
    }
    if !IsFresh(events, batch, n) {
      if j: nat :| j < n && batch[j].event.eventId == id {
        assert Known(before, rest[j].event.eventId);
      } else {
        var pk :| pk in events && events[pk].eventId == id;
        assert before[pk].eventId == id;
      }
    }
  }

  lemma TakesLast(events: map<int, StoredEvent>, batch: seq<Incoming>, before: map<int, StoredEvent>,
                  after: map<int, StoredEvent>)
    requires AreFresh(events, batch) && batch != []
    requires HoldsBoth(events, batch[..|batch| - 1], before) && AllKnown(batch[..|batch| - 1], before)
    requires TakenIn(before, batch[|batch| - 1]) == Some(after)
    ensures HoldsBoth(events, batch, after) && AllKnown(batch, after)
  {
    var n := |batch| - 1;
    FreshLast(events, batch, before);
    forall i: nat | i < n ensures IsFresh(events, batch, i) <==> IsFresh(events, batch[..n], i) {
      FreshBefore(events, batch, i);
    }
    LastIsNew(events, batch, before);
    forall i | 0 <= i < |batch| ensures Known(after, batch[i].event.eventId) {
      if i < n {
        assert Known(before, batch[..n][i].event.eventId);
        var pk :| pk in before && before[pk].eventId == batch[i].event.eventId;
        assert after[pk].eventId == batch[i].event.eventId;
      } else if IsFresh(events, batch, n) {
        assert after[batch[n].pk].eventId == batch[n].event.eventId;
      }
    }
    forall i: nat | IsFresh(events, batch, i)
      ensures batch[i].pk in after && after[batch[i].pk] == batch[i].event
    {
      if i < n {
        assert batch[..n][i] == batch[i];
      }
    }
    forall pk | pk in after ensures pk in events || exists i: nat :: IsFresh(events, batch, i) && batch[i].pk == pk {
      if pk in before && pk !in events {
        var i: nat :| IsFresh(events, batch[..n], i) && batch[..n][i].pk == pk;
        assert IsFresh(events, batch, i) && batch[i].pk == pk;
      }
    }
  }

  lemma LastIsNew(events: map<int, StoredEvent>, batch: seq<Incoming>, before: map<int, StoredEvent>)
    requires AreFresh(events, batch) && batch != [] && HoldsBoth(events, batch[..|batch| - 1], before)
    ensures batch[|batch| - 1].pk !in before
  {
    var n := |batch| - 1;
    forall i: nat | IsFresh(events, batch[..n], i) ensures batch[..n][i].pk != batch[n].pk {
      assert batch[..n][i] == batch[i];
    }
  }

  /** A batch is refused exactly when an event it brings anew reaches too far;
      else the store holds what it held and what the batch brings anew. */
  lemma {:induction false} BatchesTakeWhatIsNew(events: map<int, StoredEvent>, batch: seq<Incoming>)
    requires AreFresh(events, batch)
    ensures BatchTakenIn(events, batch).None? <==>
              exists i: nat :: IsFresh(events, batch, i) && ReachesTooFar(batch[i].event.entries)
    ensures BatchTakenIn(events, batch).Some? ==>
              && HoldsBoth(events, batch, BatchTakenIn(events, batch).value)
              && AllKnown(batch, BatchTakenIn(events, batch).value)
  {
    if batch != [] {
      var n := |batch| - 1;
      BatchesTakeWhatIsNew(events, batch[..n]);
      forall i: nat | i < n ensures IsFresh(events, batch, i) <==> IsFresh(events, batch[..n], i) {
        FreshBefore(events, batch, i);
      }
      FarIsTooMany(batch[n].event.entries);
      match BatchTakenIn(events, batch[..n]) {
        case None =>
          var i: nat :| IsFresh(events, batch[..n], i) && ReachesTooFar(batch[..n][i].event.entries);
          assert IsFresh(events, batch, i) && ReachesTooFar(batch[i].event.entries);
        case Some(before) =>
          FreshLast(events, batch, before);
          forall i: nat | i < n && IsFresh(events, batch, i) ensures !ReachesTooFar(batch[i].event.entries) {
            assert batch[..n][i] == batch[i];
          }
          if TakenIn(before, batch[n]).Some? {
            TakesLast(events, batch, before, TakenIn(before, batch[n]).value);
          } else {
            assert IsFresh(events, batch, n) && ReachesTooFar(batch[n].event.entries);
          }
      }
    }
  }

  // ----- Hits

  /** The text an event holds at one place: its entry's name or text, not empty. */
  lemma PiecesAreValues(entries: seq<TextEntry>, i: nat, text: string)
    ensures PieceAt(entries, i, Name) == Some(text) <==> i < |entries| && entries[i].name == Some(text) && text != ""
    ensures PieceAt(entries, i, Text) == Some(text) <==> i < |entries| && entries[i].text == Some(text) && text != ""
  {
  }

  /** The folded query stands in the folded text, character for character. */
  ghost predicate StandsIn(lower: char -> seq<char>, q: string, text: string, p: nat) {
    p + |q| <= |text| && forall j :: 0 <= j < |q| ==> Fold(lower, text)[p + j] == q[j]
  }

  lemma OccurrencesStand(lower: char -> seq<char>, q: string, text: string, p: nat)
    ensures OccursAt(Fold(lower, text), q, p) <==> StandsIn(lower, q, text, p)
  {
    var hay := Fold(lower, text);
    if StandsIn(lower, q, text, p) {
      assert hay[p..p + |q|] == q;
    }
    if OccursAt(hay, q, p) {
      forall j | 0 <= j < |q| ensures hay[p + j] == q[j] {
        assert hay[p..p + |q|][j] == hay[p + j];
      }
    }
  }

  /** A hit is a piece of one of the owner's events in which the query stands. */
  lemma NaiveHitsAre(lower: char -> seq<char>, events: map<int, StoredEvent>, owner: string, q: string, r: Ref)
    ensures IsNaiveHit(lower, events, owner, q, r) <==>
              && r.event in events && events[r.event].owner == owner && r.entryIndex < |events[r.event].entries|
              && var e := events[r.event].entries[r.entryIndex];
                 var text := if r.field.Name? then e.name else e.text;
                 text.Some? && text.value != "" && exists p: nat :: StandsIn(lower, q, text.value, p)
  {
    if r.event in events && PieceAt(events[r.event].entries, r.entryIndex, r.field).Some? {
      var text := PieceAt(events[r.event].entries, r.entryIndex, r.field).value;
      forall p: nat ensures OccursAt(Fold(lower, text), q, p) <==> StandsIn(lower, q, text, p) {
        OccurrencesStand(lower, q, text, p);
      }
    }
  }

  /** Everything in a response is new. */
  lemma ResponsesAreNew(e: StoredEvent, i: nat)
    requires e.facts.Response?
    ensures IsNew(e, i)
  {
  }

  /** Which filters an event passes: those not set, the times from and up to,
      one of the names listed, and its own type. */
  lemma FiltersPass(query: Query, e: StoredEvent)
    ensures Passes(query, e) <==>
              && (query.from.None? || e.observedAt >= query.from.value)
              && (query.to.None? || e.observedAt < query.to.value)
              && (query.agents == [] || exists k :: 0 <= k < |query.agents| && query.agents[k] == e.agent)
              && (query.providers == [] || exists k :: 0 <= k < |query.providers| && query.providers[k] == e.provider)
              && (query.models == [] || exists k :: 0 <= k < |query.models| && query.models[k] == e.model)
              && (query.eventType == Some("request") ==> e.facts.Request?)
              && (query.eventType == Some("response") ==> e.facts.Response?)
              && (query.eventType.Some? ==> query.eventType.value == "request" || query.eventType.value == "response")
  {
    var requests, responses := "request", "response";
    assert |requests| != |responses|;
  }

  // ----- Trigrams

  /** Three characters of `q` from `i` on. */
  ghost predicate RunsAt(q: string, i: nat, t: string) {
    i + 3 <= |q| && q[i..i + 3] == t
  }

  /** The query's terms are exactly its runs of three characters without NUL. */
  lemma TermsAreRunsOfThree(q: string, t: string)
    ensures t in Terms(q, WindowCount(q)) <==>
              |t| == 3 && (0 as char) !in t && exists i: nat :: RunsAt(q, i, t)
  {
    TermsAreTrigrams(q, WindowCount(q));
    if i: nat :| RunsAt(q, i, t) {
      assert i < WindowCount(q) && Window(q, i) == t;
    }
    if t in Terms(q, WindowCount(q)) {
      var i :| 0 <= i < WindowCount(q) && Window(q, i) == t;
      assert RunsAt(q, i, t);
    }
  }

  /** The reference is of one of the owner's events in the session. */
  ghost predicate IsOf(t: Tables, r: Ref, owner: string, session: int) {
    r.event in t.events && t.events[r.event].owner == owner && t.events[r.event].session == session
  }

  /** The texts left to verify: of the owner and, within a session, referred to
      by one of its events; and when the query has three characters in a row
      without NUL, only those the index returned. */
  lemma CandidatesAre(t: Tables, owner: string, q: string, session: Option<int>, matched: set<int>, id: int)
    ensures id in Candidates(t, owner, q, session, matched) <==>
              && id in t.texts && t.texts[id].owner == owner
              && ((exists i: nat, w :: RunsAt(q, i, w) && (0 as char) !in w) ==> id in matched)
              && (session.Some? ==> exists r :: r in t.refs && t.refs[r] == id && IsOf(t, r, owner, session.value))
  {
    ExpressionAsksForTerms(q);
    if i: nat, w :| RunsAt(q, i, w) && (0 as char) !in w {
      assert Window(q, i) == w && i < WindowCount(q);
    }
    if i :| 0 <= i < WindowCount(q) && NUL !in Window(q, i) {
      assert RunsAt(q, i, Window(q, i));
    }
  }
}
