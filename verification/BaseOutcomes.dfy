/** For every base and every reason, exactly when both passes give it. */
module BaseOutcomes {
  import opened BaseLaws
  import opened BaseRules
  import opened Bases
  import opened Collections
  import opened Exchanges
  import opened SecondPass

  /** Request `i` has model output without any identity, and no pointer. */
  ghost predicate OnlyText(xs: seq<Exchange>, i: nat) {
    && PointsNowhere(xs, i) && xs[i].request.value.facts.lastIdentity.None?
    && xs[i].request.value.facts.newFrom > 0
  }

  /** Request `i` holds no model output, answers nothing and has no pointer. */
  ghost predicate AsksAnew(xs: seq<Exchange>, i: nat) {
    && PointsNowhere(xs, i) && xs[i].request.value.facts.lastIdentity.None?
    && xs[i].request.value.facts.newFrom <= 0 && xs[i].request.value.facts.resultIds == []
  }

  /** Of the emitters of the last identity `e` is the one to continue: the only
      one, or the only one of several that saw what comes before it. */
  ghost predicate Chosen(xs: seq<Exchange>, i: nat, last: string, e: nat)
    requires LooksFor(xs, i, last)
  {
    AloneEmitted(xs, i, last, e) || (SeveralEmitted(xs, i, last) && AloneSaw(xs, i, last, e))
  }

  /** Another exchange that emitted `last` and saw what comes before it. */
  ghost predicate EmittedAndSaw(xs: seq<Exchange>, i: nat, last: string, x: nat)
    requires LooksFor(xs, i, last)
  {
    x < |xs| && x != i && Emits(xs[x], last) && SawBefore(xs, i, last, x)
  }

  /** Nobody else emitted the last identity; or several did, and nobody of
      them saw what is known to come before it. */
  ghost predicate NobodyFits(xs: seq<Exchange>, i: nat, last: string)
    requires LooksFor(xs, i, last)
  {
    || (forall x: nat :: x < |xs| && x != i ==> !Emits(xs[x], last))
    || (SeveralEmitted(xs, i, last) && KnowsBefore(xs, i, last)
        && forall x: nat :: !EmittedAndSaw(xs, i, last, x))
  }

  /** Several emitted the last identity, and what comes before it is not one
      exchange's, or several saw it. */
  ghost predicate SeveralFit(xs: seq<Exchange>, i: nat, last: string)
    requires LooksFor(xs, i, last)
  {
    && SeveralEmitted(xs, i, last)
    && (KnowsBefore(xs, i, last) ==>
          exists a: nat, b: nat :: a != b && EmittedAndSaw(xs, i, last, a) && EmittedAndSaw(xs, i, last, b))
  }

  // ----- Kinds of requests

  /** A request points to an exchange, or nowhere. */
  lemma PointsOrNot(xs: seq<Exchange>, i: nat)
    requires i < |xs| && xs[i].request.Some?
    ensures PointsNowhere(xs, i) <==> forall e: nat :: !PointsTo(xs, i, e)
  {
    PointersAreKnown(xs, i);
    var p := xs[i].request.value.previousResponseId;
    if p.Some? && p.value in ByResponseId(xs) {
      assert PointsTo(xs, i, ByResponseId(xs)[p.value]);
    }
  }

  /** What the first pass settles alone stays. */
  lemma SettledAtOnce(xs: seq<Exchange>, byId: map<string, seq<nat>>, bases: seq<Base>, i: nat)
    requires AreBases(xs, byId, bases) && i < |xs|
    requires xs[i].request.None? || xs[i].request.value.facts.lastIdentity.None? || !PointsNowhere(xs, i)
    ensures bases[i] == FindBase(i, xs, ByResponseId(xs), byId)
  {
    SecondPassOnlyTellsApart(xs, byId, bases, i);
    if xs[i].request.Some? {
      PointersAreKnown(xs, i);
    }
  }

  lemma MissingRequests(xs: seq<Exchange>, byId: map<string, seq<nat>>, bases: seq<Base>, i: nat)
    requires AreBases(xs, byId, bases) && i < |xs| && xs[i].request.None?
    ensures bases[i] == Err(MissingRequest)
  {
    SettledAtOnce(xs, byId, bases, i);
  }

  lemma Pointers(xs: seq<Exchange>, byId: map<string, seq<nat>>, bases: seq<Base>, i: nat, e: nat)
    requires AreBases(xs, byId, bases) && PointsTo(xs, i, e)
    ensures bases[i] == Ok((e, Pointer))
  {
    PointersAreKnown(xs, i);
    PointsOrNot(xs, i);
    SettledAtOnce(xs, byId, bases, i);
  }

  lemma Texts(xs: seq<Exchange>, byId: map<string, seq<nat>>, bases: seq<Base>, i: nat)
    requires AreBases(xs, byId, bases) && OnlyText(xs, i)
    ensures bases[i] == Err(TextOnly)
  {
    PointersAreKnown(xs, i);
    SettledAtOnce(xs, byId, bases, i);
  }

  lemma Beginnings(xs: seq<Exchange>, byId: map<string, seq<nat>>, bases: seq<Base>, i: nat)
    requires AreBases(xs, byId, bases) && AsksAnew(xs, i)
    ensures bases[i] == Err(NoOutput)
  {
    PointersAreKnown(xs, i);
    SettledAtOnce(xs, byId, bases, i);
  }

  /** A request that only answers calls. */
  lemma Answers(xs: seq<Exchange>, byId: map<string, seq<nat>>, bases: seq<Base>, i: nat)
    requires AreBases(xs, byId, bases) && OnlyAnswers(xs, i)
    ensures forall e: nat :: bases[i] == Ok((e, ResultsOnly)) <==> AloneIsAnswered(xs, i, e)
    ensures bases[i] == Err(UnknownIds) <==> forall x: nat :: !IsAnswered(xs, i, x)
    ensures bases[i] == Err(MultipleResponses) <==>
              exists a: nat, b: nat :: a != b && IsAnswered(xs, i, a) && IsAnswered(xs, i, b)
    ensures bases[i].Ok? ==> bases[i].value.1 == ResultsOnly
    ensures bases[i].Err? ==> bases[i].error == UnknownIds || bases[i].error == MultipleResponses
  {
    SettledAtOnce(xs, byId, bases, i);
    FirstPassAnswers(xs, byId, i);
  }

  /** A request with a last identity that one other exchange emitted, or none. */
  lemma FewEmitters(xs: seq<Exchange>, byId: map<string, seq<nat>>, bases: seq<Base>, i: nat, last: string)
    requires AreBases(xs, byId, bases) && LooksFor(xs, i, last) && !SeveralEmitted(xs, i, last)
    ensures bases[i] == Err(UnknownIds) <==> forall x: nat :: x < |xs| && x != i ==> !Emits(xs[x], last)
    ensures bases[i] == Err(TextOnly) <==> exists e: nat :: AloneEmitted(xs, i, last, e) && !Said(xs, i, last, e)
    ensures bases[i].Ok? ==> bases[i].value.1 == LastOutput
    ensures bases[i].Err? ==> bases[i].error == UnknownIds || bases[i].error == TextOnly
  {
    SecondPassOnlyTellsApart(xs, byId, bases, i);
    OnlyByLastOutput(xs, byId, i, last);
    OnlyIsAlone(xs, byId, i, last);
    OthersOf(xs, byId, i, last);
    var only := OnlyEmitter([last], i, byId);
    if only.Ok? {
      assert AloneEmitted(xs, i, last, only.value) && Emits(xs[only.value], last);
      FirstPassIs(xs, byId, i, last, only.value);
      assert forall e: nat :: AloneEmitted(xs, i, last, e) ==> e == only.value;
    } else {
      assert OtherEmitters([last], i, byId) == {};
    }
  }

  /** A request with a last identity that several other exchanges emitted. */
  lemma ManyEmitters(xs: seq<Exchange>, byId: map<string, seq<nat>>, bases: seq<Base>, i: nat, last: string)
    requires AreBases(xs, byId, bases) && LooksFor(xs, i, last) && SeveralEmitted(xs, i, last)
    ensures bases[i].Ok? ==> bases[i].value.1 == LastOutput
    ensures bases[i].Err? ==> bases[i].error in {UnknownIds, TextOnly, MultipleResponses}
    ensures bases[i] == Err(MultipleResponses) <==> SeveralFit(xs, i, last)
  {
    WhyNoneIsToldApart(xs, byId, bases, i, last);
    var kept := SecondPassIs(xs, byId, bases, i, last);
    if KnowsBefore(xs, i, last) {
      SeveralKept(xs, i, last, kept);
      OneKept(xs, i, last, kept);
      ToldApartIs(xs, i, last, kept, 0);
    }
  }

  lemma SeveralKept(xs: seq<Exchange>, i: nat, last: string, kept: seq<nat>)
    requires LooksFor(xs, i, last) && AreThoseThatSaw(xs, i, last, kept)
    ensures |kept| > 1 <==>
              exists a: nat, b: nat :: a != b && EmittedAndSaw(xs, i, last, a) && EmittedAndSaw(xs, i, last, b)
  {
    forall x: nat ensures x in kept <==> EmittedAndSaw(xs, i, last, x) {
    }
    if |kept| > 1 {
      assert kept[0] in kept && kept[1] in kept && kept[0] < kept[1];
    }
    if a: nat, b: nat :| a != b && EmittedAndSaw(xs, i, last, a) && EmittedAndSaw(xs, i, last, b) {
      assert a in kept && b in kept;
    }
  }

  // ----- Every base and every reason

  /** What both passes make of a request of each kind. */
  lemma Outcome(xs: seq<Exchange>, byId: map<string, seq<nat>>, bases: seq<Base>, i: nat)
    requires AreBases(xs, byId, bases) && i < |xs|
    ensures xs[i].request.None? ==> bases[i] == Err(MissingRequest)
    ensures forall e: nat :: PointsTo(xs, i, e) ==> bases[i] == Ok((e, Pointer))
    ensures OnlyText(xs, i) ==> bases[i] == Err(TextOnly)
    ensures AsksAnew(xs, i) ==> bases[i] == Err(NoOutput)
    ensures OnlyAnswers(xs, i) ==>
              if bases[i].Ok? then bases[i].value.1 == ResultsOnly
              else bases[i].error == UnknownIds || bases[i].error == MultipleResponses
    ensures forall last :: LooksFor(xs, i, last) ==>
              if bases[i].Ok? then bases[i].value.1 == LastOutput
              else bases[i].error in {UnknownIds, TextOnly, MultipleResponses}
    ensures || xs[i].request.None? || (exists e: nat :: PointsTo(xs, i, e)) || OnlyText(xs, i) || AsksAnew(xs, i)
            || OnlyAnswers(xs, i) || exists last :: LooksFor(xs, i, last)
  {
    if xs[i].request.None? {
      MissingRequests(xs, byId, bases, i);
    } else if e: nat :| PointsTo(xs, i, e) {
      Pointers(xs, byId, bases, i, e);
      PointsOrNot(xs, i);
      forall d: nat | PointsTo(xs, i, d) ensures bases[i] == Ok((d, Pointer)) {
        Pointers(xs, byId, bases, i, d);
      }
    } else {
      PointsOrNot(xs, i);
      var facts := xs[i].request.value.facts;
      if facts.lastIdentity.Some? {
        var last := facts.lastIdentity.value;
        assert LooksFor(xs, i, last);
        if SeveralEmitted(xs, i, last) {
          ManyEmitters(xs, byId, bases, i, last);
        } else {
          FewEmitters(xs, byId, bases, i, last);
        }
      } else if facts.newFrom > 0 {
        Texts(xs, byId, bases, i);
      } else if facts.resultIds == [] {
        Beginnings(xs, byId, bases, i);
      } else {
        Answers(xs, byId, bases, i);
      }
    }
  }

  /** A base by pointer: the exchange with the response the request names,
      whatever else the request holds. */
  lemma PointerIsExact(xs: seq<Exchange>, byId: map<string, seq<nat>>, bases: seq<Base>, i: nat, e: nat)
    requires AreBases(xs, byId, bases) && i < |xs|
    ensures bases[i] == Ok((e, Pointer)) <==> PointsTo(xs, i, e)
  {
    Outcome(xs, byId, bases, i);
  }

  /** A base by results: the one other exchange that emitted any of the calls
      a request without model output and without a pointer answers. */
  lemma ResultsOnlyIsExact(xs: seq<Exchange>, byId: map<string, seq<nat>>, bases: seq<Base>, i: nat, e: nat)
    requires AreBases(xs, byId, bases) && i < |xs|
    ensures bases[i] == Ok((e, ResultsOnly)) <==> OnlyAnswers(xs, i) && AloneIsAnswered(xs, i, e)
  {
    Outcome(xs, byId, bases, i);
    if OnlyAnswers(xs, i) {
      Answers(xs, byId, bases, i);
    }
  }

  /** A base by last output, of either pass. */
  lemma LastOutputIsExactly(xs: seq<Exchange>, byId: map<string, seq<nat>>, bases: seq<Base>, i: nat, e: nat)
    requires AreBases(xs, byId, bases) && i < |xs|
    ensures bases[i] == Ok((e, LastOutput)) <==>
              exists last :: LooksFor(xs, i, last) && Said(xs, i, last, e) && Chosen(xs, i, last, e)
  {
    Outcome(xs, byId, bases, i);
    forall last | LooksFor(xs, i, last)
      ensures bases[i] == Ok((e, LastOutput)) <==> Said(xs, i, last, e) && Chosen(xs, i, last, e)
    {
      BaseByLastIdentity(xs, byId, bases, i, last, e);
    }
  }

  /** No base for want of a request, or of anything to look for. */
  lemma NothingToLookFor(xs: seq<Exchange>, byId: map<string, seq<nat>>, bases: seq<Base>, i: nat)
    requires AreBases(xs, byId, bases) && i < |xs|
    ensures bases[i] == Err(MissingRequest) <==> xs[i].request.None?
    ensures bases[i] == Err(NoOutput) <==> AsksAnew(xs, i)
  {
    Outcome(xs, byId, bases, i);
  }

  /** No base for text alone: output without identities, or the exchange to
      continue said something else behind the last one. */
  lemma TextOnlyIsExact(xs: seq<Exchange>, byId: map<string, seq<nat>>, bases: seq<Base>, i: nat)
    requires AreBases(xs, byId, bases) && i < |xs|
    ensures bases[i] == Err(TextOnly) <==>
              || OnlyText(xs, i)
              || exists last, e: nat :: LooksFor(xs, i, last) && Chosen(xs, i, last, e) && !Said(xs, i, last, e)
  {
    Outcome(xs, byId, bases, i);
    forall last | LooksFor(xs, i, last)
      ensures bases[i] == Err(TextOnly) <==> exists e: nat :: Chosen(xs, i, last, e) && !Said(xs, i, last, e)
    {
      TextByLastIdentity(xs, byId, bases, i, last);
    }
  }

  lemma TextByLastIdentity(xs: seq<Exchange>, byId: map<string, seq<nat>>, bases: seq<Base>, i: nat, last: string)
    requires AreBases(xs, byId, bases) && LooksFor(xs, i, last)
    ensures bases[i] == Err(TextOnly) <==> exists e: nat :: Chosen(xs, i, last, e) && !Said(xs, i, last, e)
  {
    forall e: nat ensures SeveralEmitted(xs, i, last) ==> !AloneEmitted(xs, i, last, e) {
    }
    if SeveralEmitted(xs, i, last) {
      WhyNoneIsToldApart(xs, byId, bases, i, last);
    } else {
      FewEmitters(xs, byId, bases, i, last);
    }
  }

  /** No base for unknown ids: nobody fits, or nobody emitted what is answered. */
  lemma UnknownIdsAreExact(xs: seq<Exchange>, byId: map<string, seq<nat>>, bases: seq<Base>, i: nat)
    requires AreBases(xs, byId, bases) && i < |xs|
    ensures bases[i] == Err(UnknownIds) <==>
              || (OnlyAnswers(xs, i) && forall x: nat :: !IsAnswered(xs, i, x))
              || exists last :: LooksFor(xs, i, last) && NobodyFits(xs, i, last)
  {
    Outcome(xs, byId, bases, i);
    if OnlyAnswers(xs, i) {
      Answers(xs, byId, bases, i);
    }
    forall last | LooksFor(xs, i, last) ensures bases[i] == Err(UnknownIds) <==> NobodyFits(xs, i, last) {
      UnknownByLastIdentity(xs, byId, bases, i, last);
    }
  }

  lemma UnknownByLastIdentity(xs: seq<Exchange>, byId: map<string, seq<nat>>, bases: seq<Base>, i: nat, last: string)
    requires AreBases(xs, byId, bases) && LooksFor(xs, i, last)
    ensures bases[i] == Err(UnknownIds) <==> NobodyFits(xs, i, last)
  {
    if SeveralEmitted(xs, i, last) {
      var a: nat, b: nat :| a < b < |xs| && a != i && b != i && Emits(xs[a], last) && Emits(xs[b], last);
      WhyNoneIsToldApart(xs, byId, bases, i, last);
      NobodySaw(xs, i, last);
    } else {
      FewEmitters(xs, byId, bases, i, last);
    }
  }

  lemma NobodySaw(xs: seq<Exchange>, i: nat, last: string)
    requires LooksFor(xs, i, last)
    ensures (forall x: nat :: !EmittedAndSaw(xs, i, last, x)) <==>
              forall x: nat :: x < |xs| && x != i && Emits(xs[x], last) ==> !SawBefore(xs, i, last, x)
  {
    if forall x: nat :: !EmittedAndSaw(xs, i, last, x) {
      forall x: nat | x < |xs| && x != i && Emits(xs[x], last) ensures !SawBefore(xs, i, last, x) {
        assert !EmittedAndSaw(xs, i, last, x);
      }
    }
  }

  /** No base for several that fit, or that emitted what is answered. */
  lemma MultipleResponsesAreExact(xs: seq<Exchange>, byId: map<string, seq<nat>>, bases: seq<Base>, i: nat)
    requires AreBases(xs, byId, bases) && i < |xs|
    ensures bases[i] == Err(MultipleResponses) <==>
              || (OnlyAnswers(xs, i)
                  && exists a: nat, b: nat :: a != b && IsAnswered(xs, i, a) && IsAnswered(xs, i, b))
              || exists last :: LooksFor(xs, i, last) && SeveralFit(xs, i, last)
  {
    Outcome(xs, byId, bases, i);
    if OnlyAnswers(xs, i) {
      Answers(xs, byId, bases, i);
    }
    forall last | LooksFor(xs, i, last) ensures bases[i] == Err(MultipleResponses) <==> SeveralFit(xs, i, last) {
      if SeveralEmitted(xs, i, last) {
        ManyEmitters(xs, byId, bases, i, last);
      } else {
        FewEmitters(xs, byId, bases, i, last);
      }
    }
  }
}
