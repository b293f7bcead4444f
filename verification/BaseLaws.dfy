/** What a found base means, that it does not depend on the order of the
    exchanges, and that a replayed answer is always found. */
module BaseLaws {
  import opened Bases
  import opened Collections
  import opened Exchanges
  import opened Facts

  /** The bases of a session, as the pipeline finds them. */
  ghost predicate AreBases(xs: seq<Exchange>, byId: map<string, seq<nat>>, bases: seq<Base>) {
    && IsEmitters(xs, byId)
    && Within(xs, byId)
    && bases == FindBases(xs, ByResponseId(xs), byId)
  }

  /** What an output spoke, entry by entry: the roles of its model-side entries. */
  lemma {:induction false} SpokenRolesInTurn(a: seq<SkeletonEntry>, b: seq<SkeletonEntry>)
    ensures SpokenRoles(a + b) == SpokenRoles(a) + SpokenRoles(b)
  {
    if a == [] {
      assert a + b == b;
    } else {
      var entry, rest := a[0], a[1..];
      assert a == [entry] + rest && a + b == [entry] + (rest + b);
      SpokenRolesInTurn(rest, b);
      SpokenRolesFirst(entry, rest);
      SpokenRolesFirst(entry, rest + b);
    }
  }

  lemma SpokenRolesFirst(entry: SkeletonEntry, rest: seq<SkeletonEntry>)
    ensures SpokenRoles([entry] + rest) == SpokenRoles([entry]) + SpokenRoles(rest)
  {
    assert ([entry] + rest)[1..] == rest && [entry][1..] == [];
  }

  lemma SpokenRolesOfOne(entry: SkeletonEntry)
    ensures SpokenRoles([entry]) ==
              if entry.0.Assistant? || entry.0.Reasoning? || entry.0.ToolCall? then [entry.0] else []
  {
    assert [entry][1..] == [];
  }

  /** `at` is the last model-side entry of `output` keyed by `last`, and what
      `output` said behind it holds `trailing` in order. */
  ghost predicate SaysBehind(output: seq<SkeletonEntry>, at: nat, last: string, trailing: seq<Role>) {
    && at < |output|
    && output[at].0.IsModelSide() && output[at].1 == Some(last)
    && (forall i :: at < i < |output| ==> !(output[i].0.IsModelSide() && output[i].1 == Some(last)))
    && Subsequence(trailing, SpokenRoles(output[at + 1..]))
  }

  lemma SaidAfterIsExact(output: seq<SkeletonEntry>, last: string, trailing: seq<Role>)
    ensures SaidAfter(output, last, trailing) <==> exists at :: SaysBehind(output, at, last, trailing)
  {
    var held := LastPosition(output, KeyedBy(last));
    forall i | 0 <= i < |output|
      ensures KeyedBy(last)(output[i]) <==> output[i].0.IsModelSide() && output[i].1 == Some(last)
    {
    }
    if held.Some? {
      GreedyIsExact(SpokenRoles(output[held.value + 1..]), trailing);
      if SaidAfter(output, last, trailing) {
        assert SaysBehind(output, held.value, last, trailing);
      }
    }
    forall at: nat | SaysBehind(output, at, last, trailing) ensures SaidAfter(output, last, trailing) {
      assert KeyedBy(last)(output[at]);
      assert held == Some(at);
    }
  }

  /** Soundness of `LastOutput`: the base is not `i` itself, its response holds
      the last identity, and behind that it said all that trails. */
  lemma LastOutputIsSound(xs: seq<Exchange>, byId: map<string, seq<nat>>, bases: seq<Base>, i: nat, e: nat)
    requires AreBases(xs, byId, bases) && i < |xs| && bases[i] == Ok((e, LastOutput))
    ensures e < |xs| && e != i
    ensures xs[i].request.Some? && xs[i].request.value.facts.lastIdentity.Some?
    ensures Emits(xs[e], xs[i].request.value.facts.lastIdentity.value)
    ensures exists at :: SaysBehind(xs[e].response.value.facts.outputSkeleton, at,
                                    xs[i].request.value.facts.lastIdentity.value, xs[i].request.value.facts.trailing)
  {
    var first := FirstBases(xs, ByResponseId(xs), byId);
    assert bases[i] == SettledBase(i, xs, byId, first);
    if first[i].Ok? {
      FirstPassEmitter(xs, byId, i, e);
    } else {
      SecondPassEmitter(xs, byId, i, first, e);
    }
    var facts := xs[i].request.value.facts;
    EmitterIsIn(xs, byId, facts.lastIdentity.value, e);
    SaidAfterIsExact(xs[e].response.value.facts.outputSkeleton, facts.lastIdentity.value, facts.trailing);
  }

  /** `e` is another emitter of the last identity that said what trails it. */
  ghost predicate ContinuedBy(xs: seq<Exchange>, byId: map<string, seq<nat>>, i: nat, e: nat)
    requires i < |xs|
  {
    && xs[i].request.Some? && xs[i].request.value.facts.lastIdentity.Some?
    && e != i && e < |xs| && e in At(byId, xs[i].request.value.facts.lastIdentity.value)
    && Continued(e, xs, xs[i].request.value.facts.lastIdentity.value, xs[i].request.value.facts.trailing).Ok?
  }

  lemma FoundByLastIdentity(xs: seq<Exchange>, byId: map<string, seq<nat>>, i: nat, e: nat)
    requires Within(xs, byId) && i < |xs|
    requires FindBase(i, xs, ByResponseId(xs), byId) == Ok((e, LastOutput))
    ensures xs[i].request.Some? && xs[i].request.value.facts.lastIdentity.Some?
    ensures FindByLastIdentity(i, xs, byId, xs[i].request.value.facts.lastIdentity.value,
                               xs[i].request.value.facts.trailing) == Ok((e, LastOutput))
  {
  }

  lemma FirstPassEmitter(xs: seq<Exchange>, byId: map<string, seq<nat>>, i: nat, e: nat)
    requires Within(xs, byId) && i < |xs|
    requires FindBase(i, xs, ByResponseId(xs), byId) == Ok((e, LastOutput))
    ensures ContinuedBy(xs, byId, i, e)
  {
    FoundByLastIdentity(xs, byId, i, e);
    var last := xs[i].request.value.facts.lastIdentity.value;
    assert OnlyEmitter([last], i, byId) == Ok(e);
    assert e in OtherEmitters([last], i, byId);
  }

  lemma SecondPassEmitter(xs: seq<Exchange>, byId: map<string, seq<nat>>, i: nat, first: seq<Base>, e: nat)
    requires i < |xs| == |first|
    requires TellApart(i, xs, byId, first) == Some(Ok((e, LastOutput)))
    ensures ContinuedBy(xs, byId, i, e)
  {
    var facts := xs[i].request.value.facts;
    var last := facts.lastIdentity.value;
    var before := Before(facts, i, byId).value;
    var kept := Kept(i, xs, byId, last, before, first);
    assert kept[0] in kept && kept[0] == e;
    assert Keeps(i, xs, last, before, first)(e);
  }

  lemma EmitterIsIn(xs: seq<Exchange>, byId: map<string, seq<nat>>, id: string, e: nat)
    requires IsEmitters(xs, byId)
    ensures e in At(byId, id) <==> e < |xs| && Emits(xs[e], id)
  {
    assert At(byId, id) == EmittersOf(xs, |xs|, id);
  }

  lemma FirstBaseAt(xs: seq<Exchange>, byId: map<string, seq<nat>>, i: nat)
    requires Within(xs, byId) && i < |xs|
    ensures FirstBases(xs, ByResponseId(xs), byId)[i] == FindBase(i, xs, ByResponseId(xs), byId)
  {
  }

  lemma SettlingOnlyTellsApart(xs: seq<Exchange>, byId: map<string, seq<nat>>, i: nat, first: seq<Base>)
    requires i < |xs| == |first|
    ensures SettledBase(i, xs, byId, first) != first[i] ==>
              && first[i] == Err(MultipleResponses)
              && xs[i].request.Some? && xs[i].request.value.facts.lastIdentity.Some?
              && (SettledBase(i, xs, byId, first).Ok? ==> SettledBase(i, xs, byId, first).value.1 == LastOutput)
  {
  }

  /** The first pass settles every base but those it found several emitters for. */
  lemma SecondPassOnlyTellsApart(xs: seq<Exchange>, byId: map<string, seq<nat>>, bases: seq<Base>, i: nat)
    requires AreBases(xs, byId, bases) && i < |xs|
    ensures bases[i] != FindBase(i, xs, ByResponseId(xs), byId) ==>
              && FindBase(i, xs, ByResponseId(xs), byId) == Err(MultipleResponses)
              && xs[i].request.Some? && xs[i].request.value.facts.lastIdentity.Some?
              && (bases[i].Ok? ==> bases[i].value.1 == LastOutput)
  {
    var first := FirstBases(xs, ByResponseId(xs), byId);
    assert bases[i] == SettledBase(i, xs, byId, first);
    FirstBaseAt(xs, byId, i);
    SettlingOnlyTellsApart(xs, byId, i, first);
  }

  /** A `ResultsOnly` base is the one other exchange that emitted any of the
      answered calls. */
  lemma ResultsOnlyIsSound(xs: seq<Exchange>, byId: map<string, seq<nat>>, bases: seq<Base>, i: nat, e: nat)
    requires AreBases(xs, byId, bases) && i < |xs| && bases[i] == Ok((e, ResultsOnly))
    ensures xs[i].request.Some? && e < |xs| && e != i
    ensures var ids := xs[i].request.value.facts.resultIds;
      && (exists id :: id in ids && Emits(xs[e], id))
      && (forall x, id :: 0 <= x < |xs| && x != i && id in ids && Emits(xs[x], id) ==> x == e)
  {
    SecondPassOnlyTellsApart(xs, byId, bases, i);
    SoleEmitter(xs, byId, i, xs[i].request.value.facts.resultIds, e);
  }

  lemma SoleEmitter(xs: seq<Exchange>, byId: map<string, seq<nat>>, i: nat, ids: seq<string>, e: nat)
    requires IsEmitters(xs, byId) && OtherEmitters(ids, i, byId) == {e}
    ensures e < |xs| && e != i && exists id :: id in ids && Emits(xs[e], id)
    ensures forall x, id :: 0 <= x < |xs| && x != i && id in ids && Emits(xs[x], id) ==> x == e
  {
    assert e in OtherEmitters(ids, i, byId);
    var k :| 0 <= k < |ids| && e in At(byId, ids[k]);
    EmitterIsIn(xs, byId, ids[k], e);
    forall x, id | 0 <= x < |xs| && x != i && id in ids && Emits(xs[x], id) ensures x == e {
      EmitterIsIn(xs, byId, id, x);
      assert x in OtherEmitters(ids, i, byId);
    }
  }

  /** It emitted every answered call exactly when no answered call is one
      that only the request's own exchange, or no exchange, emitted. */
  lemma ResultsOnlyAnswersEveryCall(xs: seq<Exchange>, byId: map<string, seq<nat>>, bases: seq<Base>, i: nat, e: nat)
    requires AreBases(xs, byId, bases) && i < |xs| && bases[i] == Ok((e, ResultsOnly))
    ensures xs[i].request.Some? && e < |xs|
    ensures (forall id :: id in xs[i].request.value.facts.resultIds ==> Emits(xs[e], id))
            <==> (forall id :: id in xs[i].request.value.facts.resultIds ==>
                    exists x :: 0 <= x < |xs| && x != i && Emits(xs[x], id))
  {
    ResultsOnlyIsSound(xs, byId, bases, i, e);
  }

  /** The first pass finds `e` by the last identity exactly when `e` alone,
      the request's own exchange aside, emitted it and said everything
      trailing it. */
  lemma LastOutputIsExact(xs: seq<Exchange>, byId: map<string, seq<nat>>, i: nat, e: nat, last: string,
                          trailing: seq<Role>)
    requires IsEmitters(xs, byId) && Within(xs, byId) && e < |xs|
    ensures FindByLastIdentity(i, xs, byId, last, trailing) == Ok((e, LastOutput))
            <==> (forall x :: 0 <= x < |xs| && x != i ==> (Emits(xs[x], last) <==> x == e))
                 && e != i
                 && exists at :: SaysBehind(xs[e].response.value.facts.outputSkeleton, at, last, trailing)
  {
    OthersOf(xs, byId, i, last);
    var others := OtherEmitters([last], i, byId);
    if others == {e} {
      assert e in others;
      SaidAfterIsExact(xs[e].response.value.facts.outputSkeleton, last, trailing);
    }
  }

  lemma OthersOf(xs: seq<Exchange>, byId: map<string, seq<nat>>, i: nat, id: string)
    requires IsEmitters(xs, byId)
    ensures forall x: nat :: x in OtherEmitters([id], i, byId) <==> x < |xs| && x != i && Emits(xs[x], id)
  {
    forall x: nat ensures x in OtherEmitters([id], i, byId) <==> x < |xs| && x != i && Emits(xs[x], id) {
      EmitterIsIn(xs, byId, id, x);
      assert [id][0] == id;
    }
  }

  // ----- Order independence

  /** `p` moves the exchange at `i` to `p[i]`, losing none. */
  ghost predicate Permutes(p: seq<nat>, n: nat) {
    && |p| == n
    && Distinct(p)
    && forall i :: 0 <= i < n ==> p[i] < n
  }

  /** `ys` is `xs` with the exchange at `i` moved to `p[i]`. */
  ghost predicate Permuted(xs: seq<Exchange>, ys: seq<Exchange>, p: seq<nat>) {
    && Permutes(p, |xs|)
    && |ys| == |xs|
    && forall i :: 0 <= i < |xs| ==> ys[p[i]] == xs[i]
  }

  function Moved(p: seq<nat>, b: Base): Base {
    if b.Ok? && b.value.0 < |p| then Ok((p[b.value.0], b.value.1)) else b
  }

  lemma Onto(p: seq<nat>, n: nat, j: nat) returns (i: nat)
    requires Permutes(p, n) && j < n
    ensures i < n && p[i] == j
  {
    DistinctCount(p);
    if j !in p {
      Fewer(Elements(p), Below(n) - {j});
      assert false;
    }
    i :| 0 <= i < n && p[i] == j;
  }

  /** `b` holds what `a` holds, moved along `p`. */
  ghost predicate Corresponds(p: seq<nat>, n: nat, a: set<nat>, b: set<nat>)
    requires |p| == n
  {
    && (forall e :: e in a ==> e < n)
    && (forall f :: f in b ==> f < n)
    && (forall e :: 0 <= e < n ==> (e in a <==> p[e] in b))
  }

  /** Emitters move along. */
  lemma EmittersMove(xs: seq<Exchange>, ys: seq<Exchange>, p: seq<nat>,
                     mx: map<string, seq<nat>>, my: map<string, seq<nat>>, ids: seq<string>, own: nat)
    requires Permuted(xs, ys, p) && IsEmitters(xs, mx) && IsEmitters(ys, my) && own < |xs|
    ensures Corresponds(p, |xs|, OtherEmitters(ids, own, mx), OtherEmitters(ids, p[own], my))
  {
    var ox, oy := OtherEmitters(ids, own, mx), OtherEmitters(ids, p[own], my);
    forall e | e in ox ensures e < |xs| {
      var k :| 0 <= k < |ids| && e in At(mx, ids[k]) && e != own;
      EmitterIsIn(xs, mx, ids[k], e);
    }
    forall f | f in oy ensures f < |xs| {
      var k :| 0 <= k < |ids| && f in At(my, ids[k]) && f != p[own];
      EmitterIsIn(ys, my, ids[k], f);
    }
    forall e | 0 <= e < |xs| ensures e in ox <==> p[e] in oy {
      forall k | 0 <= k < |ids| ensures e in At(mx, ids[k]) <==> p[e] in At(my, ids[k]) {
        EmitterIsIn(xs, mx, ids[k], e);
        EmitterIsIn(ys, my, ids[k], p[e]);
      }
    }
  }

  /** The only member moves along; none and several stay none and several. */
  lemma SoleMoves(p: seq<nat>, n: nat, a: set<nat>, b: set<nat>)
    requires Permutes(p, n) && Corresponds(p, n, a, b)
    ensures Sole(a).Ok? ==> Sole(a).value < n && Sole(b) == Ok(p[Sole(a).value])
    ensures Sole(a).Err? ==> Sole(b) == Sole(a)
  {
    if Sole(a).Ok? {
      var e := Sole(a).value;
      assert e in a && p[e] in b;
      forall f | f in b ensures f == p[e] {
        var d := Onto(p, n, f);
      }
      assert b == {p[e]};
    } else if a == {} {
      forall f | f in b ensures false {
        var d := Onto(p, n, f);
      }
      assert b == {};
    } else {
      var x, y :| x in a && y in a && x != y;
      assert p[x] != p[y] && p[x] in b && p[y] in b;
    }
  }

  lemma OnlyEmitterMoves(xs: seq<Exchange>, ys: seq<Exchange>, p: seq<nat>,
                         mx: map<string, seq<nat>>, my: map<string, seq<nat>>, ids: seq<string>, own: nat)
    requires Permuted(xs, ys, p) && IsEmitters(xs, mx) && IsEmitters(ys, my) && own < |xs|
    ensures
      var x, y := OnlyEmitter(ids, own, mx), OnlyEmitter(ids, p[own], my);
      && (x.Ok? ==> x.value < |p| && y == Ok(p[x.value]))
      && (x.Err? ==> y == x)
  {
    EmittersMove(xs, ys, p, mx, my, ids, own);
    SoleMoves(p, |xs|, OtherEmitters(ids, own, mx), OtherEmitters(ids, p[own], my));
  }

  lemma ResponseStays(xs: seq<Exchange>, ys: seq<Exchange>, p: seq<nat>, r: string)
    requires Permuted(xs, ys, p) && r in ByResponseId(xs)
    ensures ByResponseId(xs)[r] < |p| && p[ByResponseId(xs)[r]] < |ys|
    ensures ys[p[ByResponseId(xs)[r]]].responseId == Some(r) && r in ByResponseId(ys)
  {
    var i := ByResponseId(xs)[r];
    assert ys[p[i]] == xs[i];
  }

  lemma ResponseWasThere(xs: seq<Exchange>, ys: seq<Exchange>, p: seq<nat>, r: string) returns (i: nat)
    requires Permuted(xs, ys, p) && r in ByResponseId(ys)
    ensures i < |xs| && xs[i].responseId == Some(r) && p[i] == ByResponseId(ys)[r] && r in ByResponseId(xs)
  {
    i := Onto(p, |xs|, ByResponseId(ys)[r]);
  }

  lemma ResponsesMove(xs: seq<Exchange>, ys: seq<Exchange>, p: seq<nat>, r: string)
    requires Permuted(xs, ys, p) && ResponseIdsDiffer(xs)
    ensures r in ByResponseId(xs) <==> r in ByResponseId(ys)
    ensures r in ByResponseId(xs) ==> ByResponseId(xs)[r] < |p| && ByResponseId(ys)[r] == p[ByResponseId(xs)[r]]
  {
    if r in ByResponseId(xs) {
      ResponseStays(xs, ys, p, r);
    }
    if r in ByResponseId(ys) {
      var i := ResponseWasThere(xs, ys, p, r);
      SoleHolder(xs, i, ByResponseId(xs)[r], r);
    }
  }

  lemma SoleHolder(xs: seq<Exchange>, i: nat, j: nat, r: string)
    requires ResponseIdsDiffer(xs) && i < |xs| && j < |xs|
    requires xs[i].responseId == Some(r) && xs[j].responseId == Some(r)
    ensures i == j
  {
  }

  lemma ByLastIdentityMoves(xs: seq<Exchange>, ys: seq<Exchange>, p: seq<nat>, mx: map<string, seq<nat>>,
                            my: map<string, seq<nat>>, i: nat, last: string, trailing: seq<Role>)
    requires Permuted(xs, ys, p) && IsEmitters(xs, mx) && IsEmitters(ys, my)
    requires Within(xs, mx) && Within(ys, my) && i < |xs|
    ensures FindByLastIdentity(p[i], ys, my, last, trailing) == Moved(p, FindByLastIdentity(i, xs, mx, last, trailing))
  {
    OnlyEmitterMoves(xs, ys, p, mx, my, [last], i);
  }

  lemma FindBaseMoves(xs: seq<Exchange>, ys: seq<Exchange>, p: seq<nat>,
                      mx: map<string, seq<nat>>, my: map<string, seq<nat>>, i: nat)
    requires Permuted(xs, ys, p) && IsEmitters(xs, mx) && IsEmitters(ys, my) && ResponseIdsDiffer(xs)
    requires Within(xs, mx) && Within(ys, my) && i < |xs|
    ensures FindBase(p[i], ys, ByResponseId(ys), my) == Moved(p, FindBase(i, xs, ByResponseId(xs), mx))
  {
    if xs[i].request.Some? {
      var request := xs[i].request.value;
      if request.previousResponseId.Some? {
        ResponsesMove(xs, ys, p, request.previousResponseId.value);
      }
      if request.facts.lastIdentity.Some? {
        ByLastIdentityMoves(xs, ys, p, mx, my, i, request.facts.lastIdentity.value, request.facts.trailing);
      }
      OnlyEmitterMoves(xs, ys, p, mx, my, request.facts.resultIds, i);
    }
  }

  /** The elements a filter keeps of an increasing list, counted to two. */
  lemma KeptSole(list: seq<nat>, p: nat -> bool)
    requires Increasing(list)
    ensures var kept := Filter<nat>(list, p);
      && Sole(Elements(kept)) == if |kept| == 0 then Err(UnknownIds)
                                    else if |kept| == 1 then Ok(kept[0]) else Err(MultipleResponses)
  {
    FilterIncreasing(list, p);
    var kept := Filter<nat>(list, p);
    var es := Elements(kept);
    if |kept| == 1 {
      assert kept == [kept[0]];
      assert es == {kept[0]};
      assert Sole(es).Ok?;
    } else if |kept| > 1 {
      assert kept[0] in es && kept[1] in es && kept[0] < kept[1];
    }
  }

  ghost predicate BasesWithin(bs: seq<Base>, n: nat) {
    forall i :: 0 <= i < |bs| && bs[i].Ok? ==> bs[i].value.0 < n
  }

  /** Every base is an exchange of the session. */
  lemma FoundBasesAreWithin(xs: seq<Exchange>, byId: map<string, seq<nat>>, bases: seq<Base>)
    requires AreBases(xs, byId, bases)
    ensures BasesWithin(bases, |xs|)
    ensures BasesWithin(FirstBases(xs, ByResponseId(xs), byId), |xs|)
  {
    forall i | 0 <= i < |bases| && bases[i].Ok? ensures bases[i].value.0 < |xs| {
      FoundBaseIsWithin(xs, byId, bases, i);
    }
    forall i | 0 <= i < |bases| ensures FirstBases(xs, ByResponseId(xs), byId)[i].Ok? ==>
                                          bases[i] == FirstBases(xs, ByResponseId(xs), byId)[i] {
      SecondPassOnlyTellsApart(xs, byId, bases, i);
    }
  }

  lemma FoundBaseIsWithin(xs: seq<Exchange>, byId: map<string, seq<nat>>, bases: seq<Base>, i: nat)
    requires AreBases(xs, byId, bases) && i < |bases| && bases[i].Ok?
    ensures bases[i].value.0 < |xs|
  {
    var (e, rule) := bases[i].value;
    match rule {
      case Pointer => SecondPassOnlyTellsApart(xs, byId, bases, i);
      case LastOutput => LastOutputIsSound(xs, byId, bases, i, e);
      case ResultsOnly => ResultsOnlyIsSound(xs, byId, bases, i, e);
    }
  }

  ghost predicate BasesMove(p: seq<nat>, a: seq<Base>, b: seq<Base>) {
    && |a| == |b| == |p|
    && BasesWithin(a, |p|)
    && forall i :: 0 <= i < |p| ==> p[i] < |p| && b[p[i]] == Moved(p, a[i])
  }

  lemma KeepsMove(xs: seq<Exchange>, ys: seq<Exchange>, p: seq<nat>, i: nat, e: nat, last: string,
                  before: Option<nat>, fx: seq<Base>, fy: seq<Base>)
    requires Permuted(xs, ys, p) && BasesMove(p, fx, fy) && i < |xs| && e < |xs|
    requires before.Some? ==> before.value < |xs|
    ensures Keeps(i, xs, last, before, fx)(e)
            <==> Keeps(p[i], ys, last, if before.Some? then Some(p[before.value]) else None, fy)(p[e])
  {
    assert ys[p[e]] == xs[e] && fy[p[e]] == Moved(p, fx[e]);
  }

  lemma BeforeMoves(xs: seq<Exchange>, ys: seq<Exchange>, p: seq<nat>, mx: map<string, seq<nat>>,
                    my: map<string, seq<nat>>, facts: RequestFacts, i: nat)
    requires Permuted(xs, ys, p) && IsEmitters(xs, mx) && IsEmitters(ys, my) && i < |xs|
    ensures
      var x, y := Before(facts, i, mx), Before(facts, p[i], my);
      && (x.Err? ==> y.Err?)
      && (x == Ok(None) ==> y == Ok(None))
      && (x.Ok? && x.value.Some? ==> x.value.value < |xs| && y == Ok(Some(p[x.value.value])))
  {
    if facts.previousIdentity.Some? {
      OnlyEmitterMoves(xs, ys, p, mx, my, [facts.previousIdentity.value], i);
    }
  }

  lemma ListsMove(xs: seq<Exchange>, ys: seq<Exchange>, p: seq<nat>, mx: map<string, seq<nat>>,
                  my: map<string, seq<nat>>, last: string)
    requires Permuted(xs, ys, p) && IsEmitters(xs, mx) && IsEmitters(ys, my)
    ensures Increasing(At(mx, last)) && Increasing(At(my, last))
    ensures Corresponds(p, |xs|, Elements(At(mx, last)), Elements(At(my, last)))
  {
    assert At(mx, last) == EmittersOf(xs, |xs|, last) && At(my, last) == EmittersOf(ys, |ys|, last);
    forall e | 0 <= e < |xs| ensures e in At(mx, last) <==> p[e] in At(my, last) {
      assert ys[p[e]] == xs[e];
    }
  }

  lemma FilterMoves(p: seq<nat>, n: nat, a: seq<nat>, b: seq<nat>, ka: nat -> bool, kb: nat -> bool)
    requires Permutes(p, n) && Corresponds(p, n, Elements(a), Elements(b))
    requires forall e: nat :: e < n ==> (ka(e) <==> kb(p[e]))
    ensures Corresponds(p, n, Elements(Filter<nat>(a, ka)), Elements(Filter<nat>(b, kb)))
  {
    var sx, sy := Elements(Filter<nat>(a, ka)), Elements(Filter<nat>(b, kb));
    forall e | e in sx ensures e < n { assert e in Elements(a); }
    forall f | f in sy ensures f < n { assert f in Elements(b); }
    forall e | 0 <= e < n ensures e in sx <==> p[e] in sy { assert e in Elements(a) <==> p[e] in Elements(b); }
  }

  lemma KeptMove(p: seq<nat>, n: nat, a: seq<nat>, b: seq<nat>, ka: nat -> bool, kb: nat -> bool)
    requires Permutes(p, n) && Increasing(a) && Increasing(b)
    requires Corresponds(p, n, Elements(a), Elements(b))
    requires forall e: nat :: e < n ==> (ka(e) <==> kb(p[e]))
    ensures
      var x, y := Filter<nat>(a, ka), Filter<nat>(b, kb);
      && (|x| == 0 ==> |y| == 0)
      && (|x| == 1 ==> |y| == 1 && x[0] < n && y[0] == p[x[0]])
      && (|x| > 1 ==> |y| > 1)
  {
    KeptSole(a, ka);
    KeptSole(b, kb);
    FilterMoves(p, n, a, b, ka, kb);
    SoleMoves(p, n, Elements(Filter<nat>(a, ka)), Elements(Filter<nat>(b, kb)));
  }

  ghost predicate ListMoves(p: seq<nat>, x: seq<nat>, y: seq<nat>) {
    && (|x| == 0 ==> |y| == 0)
    && (|x| == 1 ==> |y| == 1 && x[0] < |p| && y[0] == p[x[0]])
    && (|x| > 1 ==> |y| > 1)
  }

  /** Where what came before the last identity moves to. */
  function MovedBefore(p: seq<nat>, before: Option<nat>): Option<nat>
    requires before.Some? ==> before.value < |p|
  {
    if before.Some? then Some(p[before.value]) else None
  }

  lemma KeepsMoveEverywhere(xs: seq<Exchange>, ys: seq<Exchange>, p: seq<nat>, i: nat, last: string, bx: Option<nat>,
                            fx: seq<Base>, fy: seq<Base>)
    requires Permuted(xs, ys, p) && BasesMove(p, fx, fy) && i < |xs| && (bx.Some? ==> bx.value < |xs|)
    ensures forall e: nat :: e < |xs| ==>
              (Keeps(i, xs, last, bx, fx)(e) <==> Keeps(p[i], ys, last, MovedBefore(p, bx), fy)(p[e]))
  {
    forall e: nat | e < |xs|
      ensures Keeps(i, xs, last, bx, fx)(e) <==> Keeps(p[i], ys, last, MovedBefore(p, bx), fy)(p[e])
    {
      KeepsMove(xs, ys, p, i, e, last, bx, fx, fy);
    }
  }

  lemma KeptListMoves(xs: seq<Exchange>, ys: seq<Exchange>, p: seq<nat>, mx: map<string, seq<nat>>,
                      my: map<string, seq<nat>>, i: nat, fx: seq<Base>, fy: seq<Base>, last: string, bx: Option<nat>)
    requires Permuted(xs, ys, p) && IsEmitters(xs, mx) && IsEmitters(ys, my)
    requires i < |xs| && BasesMove(p, fx, fy) && (bx.Some? ==> bx.value < |xs|)
    ensures ListMoves(p, Kept(i, xs, mx, last, bx, fx), Kept(p[i], ys, my, last, MovedBefore(p, bx), fy))
  {
    KeepsMoveEverywhere(xs, ys, p, i, last, bx, fx, fy);
    ListsMove(xs, ys, p, mx, my, last);
    KeptMove(p, |xs|, At(mx, last), At(my, last), Keeps(i, xs, last, bx, fx),
             Keeps(p[i], ys, last, MovedBefore(p, bx), fy));
  }

  lemma ToldApartMoves(xs: seq<Exchange>, ys: seq<Exchange>, p: seq<nat>, x: seq<nat>, y: seq<nat>, last: string,
                       trailing: seq<Role>)
    requires Permuted(xs, ys, p) && ListMoves(p, x, y)
    requires (forall e :: e in x ==> e < |xs|) && (forall e :: e in y ==> e < |ys|)
    ensures ToldApart(y, ys, last, trailing) == Moved(p, ToldApart(x, xs, last, trailing))
  {
    if |x| == 1 {
      assert ys[p[x[0]]] == xs[x[0]];
    }
  }

  lemma ToldMoves(xs: seq<Exchange>, ys: seq<Exchange>, p: seq<nat>, mx: map<string, seq<nat>>,
                  my: map<string, seq<nat>>, i: nat, fx: seq<Base>, fy: seq<Base>, last: string, bx: Option<nat>,
                  trailing: seq<Role>)
    requires Permuted(xs, ys, p) && IsEmitters(xs, mx) && IsEmitters(ys, my)
    requires i < |xs| && BasesMove(p, fx, fy) && (bx.Some? ==> bx.value < |xs|)
    ensures ToldApart(Kept(p[i], ys, my, last, MovedBefore(p, bx), fy), ys, last, trailing)
            == Moved(p, ToldApart(Kept(i, xs, mx, last, bx, fx), xs, last, trailing))
  {
    KeptListMoves(xs, ys, p, mx, my, i, fx, fy, last, bx);
    ToldApartMoves(xs, ys, p, Kept(i, xs, mx, last, bx, fx), Kept(p[i], ys, my, last, MovedBefore(p, bx), fy), last,
                   trailing);
  }

  /** The second pass once what came before is known. */
  lemma TellApartFrom(i: nat, xs: seq<Exchange>, byId: map<string, seq<nat>>, first: seq<Base>)
    requires i < |xs| == |first|
    requires xs[i].request.Some? && xs[i].request.value.facts.lastIdentity.Some?
    ensures
      var facts := xs[i].request.value.facts;
      TellApart(i, xs, byId, first)
      == match Before(facts, i, byId)
         case Err(_) => None
         case Ok(b) => Some(ToldApart(Kept(i, xs, byId, facts.lastIdentity.value, b, first), xs,
                                      facts.lastIdentity.value, facts.trailing))
  {
  }

  lemma TellApartMoves(xs: seq<Exchange>, ys: seq<Exchange>, p: seq<nat>, mx: map<string, seq<nat>>,
                       my: map<string, seq<nat>>, i: nat, fx: seq<Base>, fy: seq<Base>)
    requires Permuted(xs, ys, p) && IsEmitters(xs, mx) && IsEmitters(ys, my)
    requires i < |xs| && BasesMove(p, fx, fy)
    ensures TellApart(p[i], ys, my, fy)
            == if TellApart(i, xs, mx, fx).None? then None else Some(Moved(p, TellApart(i, xs, mx, fx).value))
  {
    assert ys[p[i]] == xs[i];
    if xs[i].request.Some? && xs[i].request.value.facts.lastIdentity.Some? {
      var facts := xs[i].request.value.facts;
      TellApartFrom(i, xs, mx, fx);
      TellApartFrom(p[i], ys, my, fy);
      BeforeMoves(xs, ys, p, mx, my, facts, i);
      if Before(facts, i, mx).Ok? {
        ToldMoves(xs, ys, p, mx, my, i, fx, fy, facts.lastIdentity.value, Before(facts, i, mx).value, facts.trailing);
      }
    }
  }

  /** Bases do not depend on session order: with distinct response ids,
      reordering the exchanges reorders the bases, rules and reasons with them. */
  lemma BasesDoNotDependOnOrder(xs: seq<Exchange>, ys: seq<Exchange>, p: seq<nat>,
                                mx: map<string, seq<nat>>, my: map<string, seq<nat>>, bx: seq<Base>, cy: seq<Base>)
    requires Permuted(xs, ys, p) && ResponseIdsDiffer(xs)
    requires AreBases(xs, mx, bx) && AreBases(ys, my, cy)
    ensures forall i :: 0 <= i < |xs| ==> cy[p[i]] == Moved(p, bx[i])
    ensures BasesWithin(bx, |xs|)
  {
    var fx, fy := FirstBases(xs, ByResponseId(xs), mx), FirstBases(ys, ByResponseId(ys), my);
    FoundBasesAreWithin(xs, mx, bx);
    forall i | 0 <= i < |xs| ensures fy[p[i]] == Moved(p, fx[i]) {
      FindBaseMoves(xs, ys, p, mx, my, i);
    }
    assert BasesMove(p, fx, fy);
    forall i | 0 <= i < |xs| ensures cy[p[i]] == Moved(p, bx[i]) {
      SettledMoves(xs, ys, p, mx, my, i, fx, fy);
    }
  }

  lemma SettledMoves(xs: seq<Exchange>, ys: seq<Exchange>, p: seq<nat>, mx: map<string, seq<nat>>,
                     my: map<string, seq<nat>>, i: nat, fx: seq<Base>, fy: seq<Base>)
    requires Permuted(xs, ys, p) && IsEmitters(xs, mx) && IsEmitters(ys, my)
    requires i < |xs| && BasesMove(p, fx, fy)
    ensures SettledBase(p[i], ys, my, fy) == Moved(p, SettledBase(i, xs, mx, fx))
  {
    assert fy[p[i]] == Moved(p, fx[i]);
    TellApartMoves(xs, ys, p, mx, my, i, fx, fy);
  }
}
