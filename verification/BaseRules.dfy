/** The rules by which an exchange is led back to its base, in terms of what
    the exchanges hold, and what the first pass makes of them. */
module BaseRules {
  import opened BaseLaws
  import opened Bases
  import opened Collections
  import opened Exchanges

  /** Request `i` names a previous response, and `e` is the last exchange that has it. */
  ghost predicate PointsTo(xs: seq<Exchange>, i: nat, e: nat) {
    && i < |xs| && xs[i].request.Some? && xs[i].request.value.previousResponseId.Some?
    && e < |xs| && xs[e].responseId == xs[i].request.value.previousResponseId
    && forall j: nat :: e < j < |xs| ==> xs[j].responseId != xs[i].request.value.previousResponseId
  }

  /** There is a request `i`, and no response it names is of the session. */
  ghost predicate PointsNowhere(xs: seq<Exchange>, i: nat) {
    && i < |xs| && xs[i].request.Some?
    && (xs[i].request.value.previousResponseId.Some? ==>
          forall e: nat :: e < |xs| ==> xs[e].responseId != xs[i].request.value.previousResponseId)
  }

  /** Request `i` has the last identity `last`, and no pointer of it leads anywhere. */
  ghost predicate LooksFor(xs: seq<Exchange>, i: nat, last: string) {
    PointsNowhere(xs, i) && xs[i].request.value.facts.lastIdentity == Some(last)
  }

  /** Request `i` holds no model output and answers calls, without a pointer. */
  ghost predicate OnlyAnswers(xs: seq<Exchange>, i: nat) {
    && PointsNowhere(xs, i) && xs[i].request.value.facts.lastIdentity.None?
    && xs[i].request.value.facts.newFrom <= 0 && xs[i].request.value.facts.resultIds != []
  }

  /** `e` and no other exchange, `i` aside, emitted `id`. */
  ghost predicate AloneEmitted(xs: seq<Exchange>, i: nat, id: string, e: nat) {
    && e < |xs| && e != i
    && forall x: nat :: x < |xs| && x != i ==> (Emits(xs[x], id) <==> x == e)
  }

  ghost predicate SeveralEmitted(xs: seq<Exchange>, i: nat, id: string) {
    exists a: nat, b: nat :: a < b < |xs| && a != i && b != i && Emits(xs[a], id) && Emits(xs[b], id)
  }

  /** Another exchange that emitted a call request `i` answers. */
  ghost predicate IsAnswered(xs: seq<Exchange>, i: nat, e: nat)
    requires OnlyAnswers(xs, i)
  {
    e < |xs| && e != i && exists id :: id in xs[i].request.value.facts.resultIds && Emits(xs[e], id)
  }

  /** `e` alone emitted any of the calls request `i` answers. */
  ghost predicate AloneIsAnswered(xs: seq<Exchange>, i: nat, e: nat)
    requires OnlyAnswers(xs, i)
  {
    IsAnswered(xs, i, e) && forall x: nat :: IsAnswered(xs, i, x) ==> x == e
  }

  /** The response of `e` said what trails the last identity of request `i`. */
  ghost predicate Said(xs: seq<Exchange>, i: nat, last: string, e: nat)
    requires LooksFor(xs, i, last)
  {
    && e < |xs| && xs[e].response.Some?
    && exists at :: SaysBehind(xs[e].response.value.facts.outputSkeleton, at, last,
                               xs[i].request.value.facts.trailing)
  }

  /** `x` is led to `b` without telling emitters apart. */
  ghost predicate BuildsOn(xs: seq<Exchange>, x: nat, b: nat) {
    || PointsTo(xs, x, b)
    || (exists last :: LooksFor(xs, x, last) && AloneEmitted(xs, x, last, b) && Said(xs, x, last, b))
    || (OnlyAnswers(xs, x) && AloneIsAnswered(xs, x, b))
  }

  // ----- The tables in these terms

  lemma PointersAreKnown(xs: seq<Exchange>, i: nat)
    requires i < |xs| && xs[i].request.Some?
    ensures PointsNowhere(xs, i) <==> xs[i].request.value.previousResponseId.Some? ==>
              xs[i].request.value.previousResponseId.value !in ByResponseId(xs)
    ensures forall e: nat :: PointsTo(xs, i, e) <==>
              && xs[i].request.value.previousResponseId.Some?
              && xs[i].request.value.previousResponseId.value in ByResponseId(xs)
              && ByResponseId(xs)[xs[i].request.value.previousResponseId.value] == e
  {
    var m := ByResponseId(xs);
    if xs[i].request.value.previousResponseId.Some? {
      var r := xs[i].request.value.previousResponseId.value;
      forall e: nat ensures PointsTo(xs, i, e) <==> r in m && m[r] == e {
        if r in m {
          assert xs[m[r]].responseId == Some(r);
        }
        if PointsTo(xs, i, e) {
          assert r in m && e <= m[r];
        }
      }
    }
  }

  lemma OnlyIsAlone(xs: seq<Exchange>, byId: map<string, seq<nat>>, i: nat, id: string)
    requires IsEmitters(xs, byId)
    ensures forall e: nat :: OnlyEmitter([id], i, byId) == Ok(e) <==> AloneEmitted(xs, i, id, e)
    ensures OnlyEmitter([id], i, byId) == Err(MultipleResponses) <==> SeveralEmitted(xs, i, id)
  {
    OthersOf(xs, byId, i, id);
    var others := OtherEmitters([id], i, byId);
    forall e: nat ensures OnlyEmitter([id], i, byId) == Ok(e) <==> AloneEmitted(xs, i, id, e) {
      OnlyMember(others, OnlyEmitter([id], i, byId), e);
      if AloneEmitted(xs, i, id, e) {
        assert e in others;
      }
    }
    if SeveralEmitted(xs, i, id) {
      var a: nat, b: nat :| a < b < |xs| && a != i && b != i && Emits(xs[a], id) && Emits(xs[b], id);
      assert a in others && b in others;
    }
    if a, b :| a in others && b in others && a != b {
      assert if a < b then Emits(xs[a], id) && Emits(xs[b], id) else b < a && Emits(xs[b], id) && Emits(xs[a], id);
    }
  }

  lemma OnlyMember(es: set<nat>, found: Result<nat, NoBaseReason>, e: nat)
    requires found == Sole(es)
    ensures found == Ok(e) <==> e in es && forall x :: x in es ==> x == e
  {
    if e in es && forall x :: x in es ==> x == e {
      assert es == {e};
    }
  }

  /** The first pass, where no pointer leads anywhere. */
  lemma FirstPassIs(xs: seq<Exchange>, byId: map<string, seq<nat>>, i: nat, last: string, e: nat)
    requires IsEmitters(xs, byId) && Within(xs, byId) && LooksFor(xs, i, last)
    ensures var found := FindBase(i, xs, ByResponseId(xs), byId);
      && (found == Ok((e, LastOutput)) <==> AloneEmitted(xs, i, last, e) && Said(xs, i, last, e))
      && (found == Err(MultipleResponses) <==> SeveralEmitted(xs, i, last))
  {
    OnlyIsAlone(xs, byId, i, last);
    PointersAreKnown(xs, i);
    if e < |xs| {
      LastOutputIsExact(xs, byId, i, e, last, xs[i].request.value.facts.trailing);
    }
  }

  lemma AnswersAreThose(xs: seq<Exchange>, byId: map<string, seq<nat>>, i: nat)
    requires IsEmitters(xs, byId) && OnlyAnswers(xs, i)
    ensures forall x: nat :: x in OtherEmitters(xs[i].request.value.facts.resultIds, i, byId) <==> IsAnswered(xs, i, x)
  {
    var ids := xs[i].request.value.facts.resultIds;
    var others := OtherEmitters(ids, i, byId);
    forall x: nat ensures x in others <==> IsAnswered(xs, i, x) {
      if x in others {
        var k :| 0 <= k < |ids| && x in At(byId, ids[k]);
        EmitterIsIn(xs, byId, ids[k], x);
      }
      if IsAnswered(xs, i, x) {
        var id :| id in ids && Emits(xs[x], id);
        EmitterIsIn(xs, byId, id, x);
      }
    }
  }

  /** The first pass, where a request only answers calls. */
  lemma FirstPassAnswers(xs: seq<Exchange>, byId: map<string, seq<nat>>, i: nat)
    requires IsEmitters(xs, byId) && Within(xs, byId) && OnlyAnswers(xs, i)
    ensures var found := FindBase(i, xs, ByResponseId(xs), byId);
      && (forall e: nat :: found == Ok((e, ResultsOnly)) <==> AloneIsAnswered(xs, i, e))
      && (found == Err(UnknownIds) <==> forall x: nat :: !IsAnswered(xs, i, x))
      && (found == Err(MultipleResponses) <==>
            exists a: nat, b: nat :: a != b && IsAnswered(xs, i, a) && IsAnswered(xs, i, b))
      && (found.Ok? ==> found.value.1 == ResultsOnly)
      && (found.Err? ==> found.error == UnknownIds || found.error == MultipleResponses)
  {
    AnswersAreThose(xs, byId, i);
    FindsAnswered(xs, byId, i);
    var others := OtherEmitters(xs[i].request.value.facts.resultIds, i, byId);
    forall e: nat ensures Sole(others) == Ok(e) <==> AloneIsAnswered(xs, i, e) {
      OnlyMember(others, Sole(others), e);
    }
  }

  lemma FindsAnswered(xs: seq<Exchange>, byId: map<string, seq<nat>>, i: nat)
    requires Within(xs, byId) && OnlyAnswers(xs, i)
    ensures FindBase(i, xs, ByResponseId(xs), byId)
            == match Sole(OtherEmitters(xs[i].request.value.facts.resultIds, i, byId))
               case Ok(e) => Ok((e, ResultsOnly))
               case Err(reason) => Err(reason)
  {
    PointersAreKnown(xs, i);
  }

  /** The first pass, whatever the request. */
  lemma FirstPassLeads(xs: seq<Exchange>, byId: map<string, seq<nat>>, x: nat, b: nat)
    requires IsEmitters(xs, byId) && Within(xs, byId) && x < |xs|
    ensures var found := FindBase(x, xs, ByResponseId(xs), byId);
      BuildsOn(xs, x, b) <==> found.Ok? && found.value.0 == b
  {
    if xs[x].request.Some? {
      PointersAreKnown(xs, x);
      var facts := xs[x].request.value.facts;
      if PointsNowhere(xs, x) && facts.lastIdentity.Some? {
        FirstPassIs(xs, byId, x, facts.lastIdentity.value, b);
        OnlyByLastOutput(xs, byId, x, facts.lastIdentity.value);
      } else if OnlyAnswers(xs, x) {
        FirstPassAnswers(xs, byId, x);
      }
    }
  }

  lemma OnlyByLastOutput(xs: seq<Exchange>, byId: map<string, seq<nat>>, i: nat, last: string)
    requires Within(xs, byId) && LooksFor(xs, i, last)
    ensures var found := FindBase(i, xs, ByResponseId(xs), byId);
      found == FindByLastIdentity(i, xs, byId, last, xs[i].request.value.facts.trailing)
      && (found.Ok? ==> found.value.1 == LastOutput)
  {
    PointersAreKnown(xs, i);
  }
}
