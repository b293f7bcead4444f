/** Searching after any run of ingests. */
module SearchRuns {
  import opened Collections
  import opened Matching
  import opened Patterns
  import opened SearchReads
  import opened SearchStore
  import opened SearchTables
  import opened SessionReads
  import opened Trigrams

  /** The events after a run of batches; a refused batch changes nothing. */
  ghost function RunTakenIn(events: map<int, StoredEvent>, batches: seq<seq<Incoming>>): map<int, StoredEvent> {
    if batches == [] then events
    else
      var before := RunTakenIn(events, batches[..|batches| - 1]);
      match BatchTakenIn(before, batches[|batches| - 1])
      case None => before
      case Some(after) => after
  }

  ghost function PksOf(batch: seq<Incoming>): set<int> {
    set i | 0 <= i < |batch| :: batch[i].pk
  }

  /** Keys made up over a whole run are new and differ. */
  ghost predicate RunIsFresh(events: map<int, StoredEvent>, batches: seq<seq<Incoming>>) {
    && (forall b :: 0 <= b < |batches| ==> AreFresh(events, batches[b]))
    && forall b, c :: 0 <= b < c < |batches| ==> PksOf(batches[b]) !! PksOf(batches[c])
  }

  lemma {:induction false} BatchKeys(events: map<int, StoredEvent>, batch: seq<Incoming>)
    requires BatchTakenIn(events, batch).Some?
    ensures BatchTakenIn(events, batch).value.Keys <= events.Keys + PksOf(batch)
  {
    if batch != [] {
      var rest := batch[..|batch| - 1];
      BatchKeys(events, rest);
      assert PksOf(rest) <= PksOf(batch) && batch[|batch| - 1].pk in PksOf(batch);
    }
  }

  lemma RunStaysFresh(events: map<int, StoredEvent>, batches: seq<seq<Incoming>>, more: map<int, StoredEvent>)
    requires batches != [] && RunIsFresh(events, batches)
    requires more.Keys <= events.Keys + PksOf(batches[0])
    ensures RunIsFresh(more, batches[1..])
  {
    forall b | 0 <= b < |batches[1..]| ensures AreFresh(more, batches[1..][b]) {
      var next := batches[b + 1];
      assert AreFresh(events, next) && PksOf(batches[0]) !! PksOf(next);
      forall i | 0 <= i < |next| ensures next[i].pk !in more {
        assert next[i].pk in PksOf(next);
      }
    }
  }

  /** Every run of batches leaves the tables consistent, with exactly the
      events it took in. */
  method IngestAll(store: Store, batches: seq<seq<Incoming>>)
    requires store.Valid() && TellsApart(store.out.digest) && RunIsFresh(store.events, batches)
    modifies store
    ensures store.Valid() && store.events == RunTakenIn(old(store.events), batches)
  {
    for b := 0 to |batches|
      invariant store.Valid() && RunIsFresh(store.events, batches[b..])
      invariant store.events == RunTakenIn(old(store.events), batches[..b])
    {
      ghost var before := store.events;
      assert batches[b..][0] == batches[b];
      var ok := store.IngestBatch(batches[b]);
      if ok {
        BatchKeys(before, batches[b]);
      }
      RunStaysFresh(before, batches[b..], store.events);
      assert batches[b..][1..] == batches[b + 1..];
      assert batches[..b + 1][..b] == batches[..b];
    }
    assert batches[..|batches|] == batches;
  }

  /** A full-text index: the rows an expression matches among folded texts. */
  type FullText = (map<int, string>, string) -> set<int>

  /** All that is asked of it: rows it has, and every row that holds all the
      trigrams the expression reads as. */
  ghost predicate IsFullText(fts: FullText) {
    forall trigrams: map<int, string>, e: string :: Finds(fts(trigrams, e), trigrams, e)
  }

  ghost predicate Finds(matched: set<int>, trigrams: map<int, string>, e: string) {
    && matched <= trigrams.Keys
    && (ReadTerms(e).Some? ==>
          forall id :: id in trigrams && HoldsAll(trigrams[id], ReadTerms(e).value) ==> id in matched)
  }

  method AskIndex(out: Outside, fts: FullText, t: Tables, q: string) returns (matched: set<int>)
    requires IsFullText(fts)
    ensures MatchContract(t, q, matched)
  {
    var e := Expression(q);
    ExpressionAsksForTerms(q);
    if e.None? {
      return t.trigrams.Keys;
    }
    matched := fts(t.trigrams, e.value);
    assert Finds(matched, t.trigrams, e.value);
  }

  /** After any run of ingests, replays and refused batches included, search
      finds exactly what folding every piece of every stored event of the
      owner and looking for the folded query finds. */
  method SearchAfter(out: Outside, fts: FullText, batches: seq<seq<Incoming>>, owner: string, text: string,
                     query: Query)
    returns (hits: map<Ref, Hit>)
    requires TellsApart(out.digest) && IsFullText(fts) && RunIsFresh(map[], batches) && text != ""
    ensures var events := RunTakenIn(map[], batches);
      forall r: Ref :: r in hits <==>
        IsNaiveHit(out.lower, events, owner, Fold(out.lower, text), r) && Passes(query, events[r.event])
  {
    var store := new Store(out);
    IngestAll(store, batches);
    var t := store.Now();
    var pattern := NewPattern(out.lower, text);
    var matched := AskIndex(out, fts, t, pattern.folded);
    hits := SessionSearch(out, t, owner, pattern, query, matched);
  }

  /** The same within one session: the hits are all of the session's in order,
      up to the cap, and each names the segment that its own event stands in. */
  method SearchInSessionAfter(out: Outside, fts: FullText, batches: seq<seq<Incoming>>, owner: string, session: int,
                              text: string)
    returns (response: Option<InSession>)
    requires TellsApart(out.digest) && IsFullText(fts) && RunIsFresh(map[], batches) && text != ""
    ensures var events := RunTakenIn(map[], batches);
      response.None? <==> forall pk :: pk in events ==> !(events[pk].owner == owner && events[pk].session == session)
    ensures var events := RunTakenIn(map[], batches);
      response.Some? ==>
        exists all :: AreAllHits(out.lower, events, owner, Fold(out.lower, text), session, all)
                      && IsResponse(out.lower, events, session, Fold(out.lower, text), all, response.value)
    ensures var events := RunTakenIn(map[], batches);
      response.Some? ==> ShowsTheFirst(out.lower, events, owner, Fold(out.lower, text), session, response.value)
  {
    var store := new Store(out);
    IngestAll(store, batches);
    var t := store.Now();
    var pattern := NewPattern(out.lower, text);
    var matched := AskIndex(out, fts, t, pattern.folded);
    response := SearchInSession(out, t, owner, session, pattern, matched);
  }
}
