/** Which exchange both passes find by the last identity, when several emitted
    it: the one that alone saw what the request has before. Then, for every
    base and every reason, exactly when it is given. */
module SecondPass {
  import opened BaseLaws
  import opened BaseRules
  import opened Bases
  import opened Collections
  import opened Exchanges
  import opened Facts

  /** A request that holds and answers nothing, whose response begins with `id`. */
  ghost predicate SpokeFirst(x: Exchange, id: string) {
    && x.request.Some? && x.request.value.previousResponseId.None?
    && x.request.value.facts.lastIdentity.None? && x.request.value.facts.newFrom <= 0
    && x.request.value.facts.resultIds == []
    && x.response.Some? && x.response.value.facts.emittedIds != [] && x.response.value.facts.emittedIds[0] == id
  }

  /** `x` saw what request `i` has before its last identity: it is, or builds
      on, the one exchange that emitted that; or it spoke first, if nothing is. */
  ghost predicate SawBefore(xs: seq<Exchange>, i: nat, last: string, x: nat)
    requires LooksFor(xs, i, last)
  {
    && x < |xs|
    && match xs[i].request.value.facts.previousIdentity
       case None => SpokeFirst(xs[x], last)
       case Some(p) => exists b: nat :: AloneEmitted(xs, i, p, b) && (x == b || BuildsOn(xs, x, b))
  }

  /** Of those that emitted `last`, `e` alone saw what request `i` has before. */
  ghost predicate AloneSaw(xs: seq<Exchange>, i: nat, last: string, e: nat)
    requires LooksFor(xs, i, last)
  {
    && e < |xs| && e != i && Emits(xs[e], last) && SawBefore(xs, i, last, e)
    && forall x: nat :: x < |xs| && x != i && x != e && Emits(xs[x], last) ==> !SawBefore(xs, i, last, x)
  }

  /** What comes before the last identity is nothing, or one exchange's. */
  ghost predicate KnowsBefore(xs: seq<Exchange>, i: nat, last: string)
    requires LooksFor(xs, i, last)
  {
    xs[i].request.value.facts.previousIdentity.Some? ==>
      exists b: nat :: AloneEmitted(xs, i, xs[i].request.value.facts.previousIdentity.value, b)
  }

  // ----- The tables in these terms

  lemma SpokeFirstIsWithoutContext(xs: seq<Exchange>, byId: map<string, seq<nat>>, x: nat, last: string)
    requires x < |xs| && Within(xs, byId)
    ensures SaidFirstWithoutContext(x, xs, last, FirstBases(xs, ByResponseId(xs), byId)) <==> SpokeFirst(xs[x], last)
  {
    FirstBaseAt(xs, byId, x);
    if xs[x].request.Some? && xs[x].request.value.previousResponseId.None? {
      NothingThere(xs, byId, x);
    }
  }

  /** The first pass finds no output exactly in a request that has none. */
  lemma NothingThere(xs: seq<Exchange>, byId: map<string, seq<nat>>, x: nat)
    requires x < |xs| && Within(xs, byId) && xs[x].request.Some? && xs[x].request.value.previousResponseId.None?
    ensures FindBase(x, xs, ByResponseId(xs), byId) == Err(NoOutput) <==>
              var facts := xs[x].request.value.facts;
              facts.lastIdentity.None? && facts.newFrom <= 0 && facts.resultIds == []
  {
    var facts := xs[x].request.value.facts;
    if facts.lastIdentity.Some? {
      LastIdentityReasons(xs, byId, x, facts.lastIdentity.value, facts.trailing);
    } else if facts.newFrom <= 0 && facts.resultIds != [] {
      assert OnlyEmitter(facts.resultIds, x, byId) != Err(NoOutput);
    }
  }

  lemma LastIdentityReasons(xs: seq<Exchange>, byId: map<string, seq<nat>>, x: nat, last: string, trailing: seq<Role>)
    requires Within(xs, byId)
    ensures FindByLastIdentity(x, xs, byId, last, trailing) != Err(NoOutput)
  {
  }

  lemma BeforeIs(xs: seq<Exchange>, byId: map<string, seq<nat>>, i: nat, last: string)
    requires IsEmitters(xs, byId) && LooksFor(xs, i, last)
    ensures var facts := xs[i].request.value.facts;
      && (Before(facts, i, byId).Ok? <==> KnowsBefore(xs, i, last))
      && (Before(facts, i, byId) == Ok(None) <==> facts.previousIdentity.None?)
      && forall b: nat :: Before(facts, i, byId) == Ok(Some(b)) <==>
           facts.previousIdentity.Some? && AloneEmitted(xs, i, facts.previousIdentity.value, b)
  {
    var facts := xs[i].request.value.facts;
    if facts.previousIdentity.Some? {
      var p := facts.previousIdentity.value;
      OnlyIsAlone(xs, byId, i, p);
      if b: nat :| AloneEmitted(xs, i, p, b) {
        assert OnlyEmitter([p], i, byId) == Ok(b);
      }
    }
  }

  /** What the second pass asks of an emitter is `SawBefore`. */
  lemma SawIsSawBefore(xs: seq<Exchange>, byId: map<string, seq<nat>>, i: nat, last: string, before: Option<nat>,
                       x: nat)
    requires IsEmitters(xs, byId) && Within(xs, byId) && LooksFor(xs, i, last) && x < |xs|
    requires Before(xs[i].request.value.facts, i, byId) == Ok(before)
    ensures Saw(x, xs, last, before, FirstBases(xs, ByResponseId(xs), byId)) <==> SawBefore(xs, i, last, x)
  {
    BeforeIs(xs, byId, i, last);
    SpokeFirstIsWithoutContext(xs, byId, x, last);
    FirstBaseAt(xs, byId, x);
    if before.Some? {
      FirstPassLeads(xs, byId, x, before.value);
      var p := xs[i].request.value.facts.previousIdentity.value;
      forall b: nat | AloneEmitted(xs, i, p, b) ensures b == before.value {
        assert Emits(xs[b], p);
      }
    }
  }

  /** The emitters kept, in these terms. */
  ghost predicate AreThoseThatSaw(xs: seq<Exchange>, i: nat, last: string, kept: seq<nat>)
    requires LooksFor(xs, i, last)
  {
    && Increasing(kept)
    && forall x: nat :: x in kept <==> x < |xs| && x != i && Emits(xs[x], last) && SawBefore(xs, i, last, x)
  }

  lemma KeptSaw(xs: seq<Exchange>, byId: map<string, seq<nat>>, i: nat, last: string, before: Option<nat>)
    requires IsEmitters(xs, byId) && Within(xs, byId) && LooksFor(xs, i, last)
    requires Before(xs[i].request.value.facts, i, byId) == Ok(before)
    ensures AreThoseThatSaw(xs, i, last,
                            Kept(i, xs, byId, last, before, FirstBases(xs, ByResponseId(xs), byId)))
  {
    var first := FirstBases(xs, ByResponseId(xs), byId);
    assert At(byId, last) == EmittersOf(xs, |xs|, last);
    FilterIncreasing(At(byId, last), Keeps(i, xs, last, before, first));
    forall x: nat
      ensures x in Kept(i, xs, byId, last, before, first) <==>
                x < |xs| && x != i && Emits(xs[x], last) && SawBefore(xs, i, last, x)
    {
      EmitterIsIn(xs, byId, last, x);
      if x < |xs| {
        SawIsSawBefore(xs, byId, i, last, before, x);
      }
    }
  }

  lemma OneKept(xs: seq<Exchange>, i: nat, last: string, kept: seq<nat>)
    requires LooksFor(xs, i, last) && AreThoseThatSaw(xs, i, last, kept)
    ensures forall e: nat :: kept == [e] <==> AloneSaw(xs, i, last, e)
    ensures |kept| == 1 <==> exists e: nat :: AloneSaw(xs, i, last, e)
  {
    forall e: nat ensures kept == [e] <==> AloneSaw(xs, i, last, e) {
      OnlyElement(kept, e);
      assert e in kept && (forall x :: x in kept ==> x == e) <==> AloneSaw(xs, i, last, e);
    }
    if |kept| == 1 {
      assert kept == [kept[0]];
    }
  }

  lemma OnlyElement(s: seq<nat>, e: nat)
    requires Increasing(s)
    ensures s == [e] <==> e in s && forall x :: x in s ==> x == e
  {
    if e in s && forall x :: x in s ==> x == e {
      assert s[0] in s && s[|s| - 1] in s;
    }
    assert s == [e] ==> s[0] == e;
  }

  /** What the second pass makes of the emitters it keeps. */
  lemma ToldApartIs(xs: seq<Exchange>, i: nat, last: string, kept: seq<nat>, e: nat)
    requires LooksFor(xs, i, last) && forall x :: x in kept ==> x < |xs| && Emits(xs[x], last)
    ensures var told := ToldApart(kept, xs, last, xs[i].request.value.facts.trailing);
      && (told == Ok((e, LastOutput)) <==> kept == [e] && Said(xs, i, last, e))
      && (told == Err(TextOnly) <==> |kept| == 1 && !Said(xs, i, last, kept[0]))
      && (told == Err(UnknownIds) <==> kept == [])
  {
    if |kept| == 1 {
      assert kept[0] in kept && kept == [kept[0]];
      SaidAfterIsExact(xs[kept[0]].response.value.facts.outputSkeleton, last, xs[i].request.value.facts.trailing);
    }
  }

  /** The second pass, where several emitted the last identity: nothing new
      without one exchange before, else what is made of those that saw it. */
  lemma SecondPassIs(xs: seq<Exchange>, byId: map<string, seq<nat>>, bases: seq<Base>, i: nat, last: string)
    returns (kept: seq<nat>)
    requires AreBases(xs, byId, bases) && LooksFor(xs, i, last) && SeveralEmitted(xs, i, last)
    ensures !KnowsBefore(xs, i, last) ==> bases[i] == Err(MultipleResponses)
    ensures KnowsBefore(xs, i, last) ==>
              && AreThoseThatSaw(xs, i, last, kept)
              && bases[i] == ToldApart(kept, xs, last, xs[i].request.value.facts.trailing)
  {
    var first := FirstBases(xs, ByResponseId(xs), byId);
    assert bases[i] == SettledBase(i, xs, byId, first);
    SeveralGoOn(xs, byId, i, last);
    BeforeIs(xs, byId, i, last);
    SettledIs(xs, byId, i, last, first);
    kept := [];
    var before := Before(xs[i].request.value.facts, i, byId);
    if before.Ok? {
      kept := Kept(i, xs, byId, last, before.value, first);
      KeptSaw(xs, byId, i, last, before.value);
    }
  }

  lemma SeveralGoOn(xs: seq<Exchange>, byId: map<string, seq<nat>>, i: nat, last: string)
    requires IsEmitters(xs, byId) && Within(xs, byId) && LooksFor(xs, i, last) && SeveralEmitted(xs, i, last)
    ensures FirstBases(xs, ByResponseId(xs), byId)[i] == Err(MultipleResponses)
  {
    FirstBaseAt(xs, byId, i);
    FirstPassIs(xs, byId, i, last, 0);
  }

  lemma SettledIs(xs: seq<Exchange>, byId: map<string, seq<nat>>, i: nat, last: string, first: seq<Base>)
    requires LooksFor(xs, i, last) && |first| == |xs| && first[i] == Err(MultipleResponses)
    ensures var facts := xs[i].request.value.facts;
      SettledBase(i, xs, byId, first)
      == match Before(facts, i, byId)
         case Err(_) => Err(MultipleResponses)
         case Ok(before) => ToldApart(Kept(i, xs, byId, last, before, first), xs, last, facts.trailing)
  {
  }

  /** A request with a last identity and no pointer has `e` as its base exactly
      when `e` said what trails and either alone emitted the identity, or
      alone saw what comes before it among several that did. */
  lemma BaseByLastIdentity(xs: seq<Exchange>, byId: map<string, seq<nat>>, bases: seq<Base>, i: nat, last: string,
                           e: nat)
    requires AreBases(xs, byId, bases) && LooksFor(xs, i, last)
    ensures bases[i] == Ok((e, LastOutput)) <==>
              && Said(xs, i, last, e)
              && (AloneEmitted(xs, i, last, e)
                  || (SeveralEmitted(xs, i, last) && AloneSaw(xs, i, last, e)))
  {
    FirstPassIs(xs, byId, i, last, e);
    if SeveralEmitted(xs, i, last) {
      var kept := SecondPassIs(xs, byId, bases, i, last);
      if KnowsBefore(xs, i, last) {
        OneKept(xs, i, last, kept);
        ToldApartIs(xs, i, last, kept, e);
      }
    } else {
      SecondPassOnlyTellsApart(xs, byId, bases, i);
    }
  }

  /** Why no exchange is told apart: nobody saw what comes before, or the one
      that did said something else; what several saw, or several said, stays open. */
  lemma WhyNoneIsToldApart(xs: seq<Exchange>, byId: map<string, seq<nat>>, bases: seq<Base>, i: nat, last: string)
    requires AreBases(xs, byId, bases) && LooksFor(xs, i, last) && SeveralEmitted(xs, i, last)
    ensures bases[i] == Err(UnknownIds) <==>
              && KnowsBefore(xs, i, last)
              && forall x: nat :: x < |xs| && x != i && Emits(xs[x], last) ==> !SawBefore(xs, i, last, x)
    ensures bases[i] == Err(TextOnly) <==>
              exists e: nat :: AloneSaw(xs, i, last, e) && !Said(xs, i, last, e)
    ensures bases[i].Err? ==> bases[i].error in {UnknownIds, TextOnly, MultipleResponses}
  {
    var kept := SecondPassIs(xs, byId, bases, i, last);
    if KnowsBefore(xs, i, last) {
      OneKept(xs, i, last, kept);
      ToldApartIs(xs, i, last, kept, 0);
      if kept != [] {
        assert kept[0] in kept;
      }
    }
  }
}
