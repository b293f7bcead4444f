/** Which turn an exchange has: the one it begins, its base's, or the latest. */
module TurnLaws {
  import opened Bases
  import opened Collections
  import opened Exchanges
  import opened Turns

  /** The request of `x` starts a turn. */
  ghost predicate Asks(x: Exchange) {
    x.request.Some? && x.request.value.facts.startsTurn
  }

  ghost predicate SomeDeclare(xs: seq<Exchange>) {
    exists i :: 0 <= i < |xs| && xs[i].turnId.Some?
  }

  /** Exchange `i` begins the turn `id`: as it declares, in a session where any
      does; else by a start behind a context or before every other. */
  ghost predicate Begins(xs: seq<Exchange>, i: nat, id: string) {
    && i < |xs|
    && if SomeDeclare(xs) then xs[i].turnId == Some(id)
       else
         && Asks(xs[i]) && id == xs[i].id
         && (xs[i].request.value.facts.newFrom > 0 || xs[i].request.value.previousResponseId.Some?
             || forall j :: 0 <= j < i ==> !Asks(xs[j]))
  }

  /** Exchange `i` has an earlier exchange as its base. */
  ghost predicate Behind(bases: seq<Base>, i: nat, b: nat) {
    i < |bases| && bases[i].Ok? && bases[i].value.0 == b && b < i
  }

  /** The turns of a session, as they are assigned. */
  ghost predicate AreTurns(xs: seq<Exchange>, bases: seq<Base>, turns: Turns) {
    && |bases| == |xs| == |turns.of|
    && turns.ids == TurnIds(xs, |xs|) && FollowsChains(xs, bases, turns.ids, turns.of)
  }

  lemma BeginsIsOpened(xs: seq<Exchange>, i: nat)
    requires i < |xs|
    ensures forall id :: Begins(xs, i, id) <==> OpenedId(xs, i) == Some(id)
  {
    forall j | 0 <= j < |xs| ensures Asks(xs[j]) <==> xs[j].StartsTurn() {
    }
  }

  /** Of what exchanges before `n` began, each once; nothing else is a turn. */
  lemma TurnsAreBegun(xs: seq<Exchange>, n: nat, id: string)
    requires n <= |xs|
    ensures id in TurnIds(xs, n) <==> exists j: nat :: j < n && Begins(xs, j, id)
    ensures Distinct(TurnIds(xs, n))
  {
    TurnIdsAreDistinct(xs, n);
    if id in TurnIds(xs, n) {
      var k :| 0 <= k < |TurnIds(xs, n)| && TurnIds(xs, n)[k] == id;
      EachTurnIsOpened(xs, n, k);
      var j :| 0 <= j < n && OpenedId(xs, j) == Some(id);
      BeginsIsOpened(xs, j);
      assert Begins(xs, j, id);
    }
    forall j: nat | j < n && Begins(xs, j, id) ensures id in TurnIds(xs, n) {
      BeginsIsOpened(xs, j);
      EachOpenedIdIsATurn(xs, n, j);
    }
  }

  /** Whoever begins a turn has it. */
  lemma BeginnersHaveTheirTurn(xs: seq<Exchange>, bases: seq<Base>, turns: Turns, i: nat, id: string)
    requires AreTurns(xs, bases, turns) && Begins(xs, i, id)
    ensures turns.of[i].Some? && turns.of[i].value < |turns.ids| && turns.ids[turns.of[i].value] == id
  {
    BeginsIsOpened(xs, i);
    assert IsChain(xs, bases, i, [i]);
    assert SettledBy(xs, [i][0], turns.ids, turns.of[i]);
  }

  /** Whoever begins none has the turn of an earlier base. */
  lemma BasesShareTheirTurn(xs: seq<Exchange>, bases: seq<Base>, turns: Turns, i: nat, b: nat)
    requires AreTurns(xs, bases, turns) && Behind(bases, i, b) && forall id :: !Begins(xs, i, id)
    ensures turns.of[i] == turns.of[b]
  {
    BeginsIsOpened(xs, i);
    var tail := EveryExchangeHasAChain(xs, bases, b);
    var chain := [i] + tail;
    forall k | 0 <= k < |chain| - 1
      ensures OpenedId(xs, chain[k]).None? && EarlierBase(bases, chain[k]) == Some(chain[k + 1])
    {
      if k > 0 {
        assert chain[k] == tail[k - 1] && chain[k + 1] == tail[k];
      }
    }
    assert IsChain(xs, bases, i, chain);
    var end := tail[|tail| - 1];
    assert chain[|chain| - 1] == end;
    assert SettledBy(xs, end, turns.ids, turns.of[i]) && SettledBy(xs, end, turns.ids, turns.of[b]);
    TurnIdsAreDistinct(xs, |xs|);
  }

  /** Without an earlier base it has the latest turn begun before it, if any. */
  lemma OthersJoinTheLatest(xs: seq<Exchange>, bases: seq<Base>, turns: Turns, i: nat)
    requires AreTurns(xs, bases, turns) && i < |xs|
    requires (forall id :: !Begins(xs, i, id)) && forall b: nat :: !Behind(bases, i, b)
    ensures turns.of[i].None? <==> forall j: nat, id :: j < i ==> !Begins(xs, j, id)
    ensures turns.of[i].Some? ==>
              var t := turns.of[i].value;
              && t < |turns.ids| && (exists j: nat :: j < i && Begins(xs, j, turns.ids[t]))
              && forall u: nat :: t < u < |turns.ids| ==> forall j: nat :: j < i ==> !Begins(xs, j, turns.ids[u])
  {
    BeginsIsOpened(xs, i);
    assert bases[i].Ok? ==> !Behind(bases, i, bases[i].value.0);
    assert IsChain(xs, bases, i, [i]);
    assert SettledBy(xs, [i][0], turns.ids, turns.of[i]);
    assert turns.of[i] == if TurnIds(xs, i) == [] then None else Some(|TurnIds(xs, i)| - 1);
    NoneBegunBefore(xs, i);
    if TurnIds(xs, i) != [] {
      LatestBefore(xs, i);
    }
  }

  /** No turn is open at `i` exactly when nothing earlier begins one. */
  lemma NoneBegunBefore(xs: seq<Exchange>, i: nat)
    requires i < |xs|
    ensures TurnIds(xs, i) == [] <==> forall j: nat, id :: j < i ==> !Begins(xs, j, id)
  {
    var before := TurnIds(xs, i);
    forall j: nat, id | j < i && Begins(xs, j, id) ensures id in before {
      TurnsAreBegun(xs, i, id);
    }
    if before != [] {
      TurnsAreBegun(xs, i, before[|before| - 1]);
    }
  }

  /** The last turn of those begun before `i` is the latest. */
  lemma LatestBefore(xs: seq<Exchange>, i: nat)
    requires i < |xs| && TurnIds(xs, i) != []
    ensures |TurnIds(xs, i)| <= |TurnIds(xs, |xs|)|
    ensures var t: nat := |TurnIds(xs, i)| - 1;
            exists j: nat :: j < i && Begins(xs, j, TurnIds(xs, |xs|)[t])
    ensures forall u: nat :: |TurnIds(xs, i)| <= u < |TurnIds(xs, |xs|)| ==>
              forall j: nat :: j < i ==> !Begins(xs, j, TurnIds(xs, |xs|)[u])
  {
    var before, ids := TurnIds(xs, i), TurnIds(xs, |xs|);
    TurnIdsGrow(xs, i, |xs|);
    TurnsAreBegun(xs, i, before[|before| - 1]);
    forall u: nat | |before| <= u < |ids| ensures forall j: nat :: j < i ==> !Begins(xs, j, ids[u]) {
      NotBefore(xs, i, u);
    }
  }

  lemma NotBefore(xs: seq<Exchange>, i: nat, u: nat)
    requires i < |xs| && |TurnIds(xs, i)| <= u < |TurnIds(xs, |xs|)|
    ensures forall j: nat :: j < i ==> !Begins(xs, j, TurnIds(xs, |xs|)[u])
  {
    TurnIdsGrow(xs, i, |xs|);
    TurnIdsAreDistinct(xs, |xs|);
    var id := TurnIds(xs, |xs|)[u];
    TurnsAreBegun(xs, i, id);
    forall m | 0 <= m < |TurnIds(xs, i)| ensures TurnIds(xs, i)[m] != id {
      assert TurnIds(xs, |xs|)[m] == TurnIds(xs, i)[m];
    }
  }
}
