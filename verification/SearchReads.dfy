/** Searching the tables of one snapshot: candidates by trigram, each verified,
    and the references that lead to what matches. */
module SearchReads {
  import opened Collections
  import opened Patterns
  import opened SearchTables

  /** The candidates that hold the query. */
  ghost predicate AreMatching(out: Outside, t: Tables, candidates: set<int>, q: string, matching: set<int>) {
    forall id :: id in matching <==> id in candidates && id in t.texts && Holds(out.lower, q, t.texts[id].text)
  }

  /** Verifies each candidate text. */
  method Verify(out: Outside, t: Tables, candidates: set<int>, pattern: Pattern) returns (matching: set<int>)
    requires pattern.folded != "" && candidates <= t.texts.Keys
    ensures AreMatching(out, t, candidates, pattern.folded, matching)
  {
    matching := {};
    var rest := candidates;
    while rest != {}
      invariant rest <= candidates
      invariant AreMatching(out, t, candidates - rest, pattern.folded, matching)
      decreases rest
    {
      var id := Any(rest);
      MatchesCharacters(out.lower, pattern, t.texts[id].text);
      if pattern.Matches(out.lower, t.texts[id].text) {
        matching := matching + {id};
      }
      rest := rest - {id};
    }
    assert candidates - rest == candidates;
  }

  lemma MatchingHold(out: Outside, t: Tables, candidates: set<int>, q: string, matching: set<int>, id: int)
    requires AreMatching(out, t, candidates, q, matching)
    ensures id in matching <==> id in candidates && id in t.texts && Holds(out.lower, q, t.texts[id].text)
  {
  }

  /** A reference leads to a matching text exactly when its piece is a hit. */
  lemma MatchingRefsAreNaiveHits(out: Outside, t: Tables, owner: string, q: string, session: Option<int>,
                                 matched: set<int>, matching: set<int>, r: Ref)
    requires Consistent(out, t) && MatchContract(t, q, matched)
    requires AreMatching(out, t, Candidates(t, owner, q, session, matched), q, matching)
    requires session.Some? ==> r.event in t.events && t.events[r.event].session == session.value
    ensures r in t.refs && t.refs[r] in matching && r.event in t.events && t.events[r.event].owner == owner
            <==> IsNaiveHit(out.lower, t.events, owner, q, r)
  {
    if r in t.refs {
      assert RefHolds(t, r);
      MatchingHold(out, t, Candidates(t, owner, q, session, matched), q, matching, t.refs[r]);
    }
    if IsNaiveHit(out.lower, t.events, owner, q, r) {
      assert HasPiece(t.events, r);
      assert r in t.refs;
      assert RefHolds(t, r);
      assert session.Some? ==> UsedInSession(t, owner, session.value, t.refs[r]);
      CandidatesMissNothing(out, t, owner, q, session, matched, t.refs[r]);
    }
  }

  /** What a hit says of its event, and the text it names. */
  ghost predicate Describes(t: Tables, r: Ref, hit: Hit) {
    && r.event in t.events
    && hit.session == t.events[r.event].session && hit.observedAt == t.events[r.event].observedAt
    && (hit.isNew <==> IsNew(t.events[r.event], r.entryIndex))
    && hit.textId in t.texts
    && PieceAt(t.events[r.event].entries, r.entryIndex, r.field) == Some(t.texts[hit.textId].text)
  }

  function HitOf(t: Tables, r: Ref): Hit
    requires r in t.refs && r.event in t.events
  {
    var e := t.events[r.event];
    Hit(e.session, e.observedAt, IsNew(e, r.entryIndex), t.refs[r])
  }

  /** Exactly the naive hits that pass the filters, each with what is stored. */
  method SessionSearch(out: Outside, t: Tables, owner: string, pattern: Pattern, query: Query, matched: set<int>)
    returns (hits: map<Ref, Hit>)
    requires Consistent(out, t) && pattern.folded != "" && MatchContract(t, pattern.folded, matched)
    ensures forall r: Ref :: r in hits <==>
              IsNaiveHit(out.lower, t.events, owner, pattern.folded, r) && Passes(query, t.events[r.event])
    ensures forall r :: r in hits ==> Describes(t, r, hits[r])
  {
    var candidates := Candidates(t, owner, pattern.folded, None, matched);
    var matching := Verify(out, t, candidates, pattern);
    forall r: Ref {
      MatchingRefsAreNaiveHits(out, t, owner, pattern.folded, None, matched, matching, r);
    }
    hits := map r | r in t.refs && t.refs[r] in matching && r.event in t.events
                    && t.events[r.event].owner == owner && Passes(query, t.events[r.event]) :: HitOf(t, r);
    forall r | r in hits ensures Describes(t, r, hits[r]) {
      assert RefHolds(t, r);
    }
  }
}
