/** Turns: who opens one, and how everyone else comes by one. */
module Turns {
  import opened Bases
  import opened Collections
  import opened Exchanges
  import opened Intervals

  /** For each exchange the place of its turn among `ids`, if it has one. */
  datatype Turns = Turns(of: seq<Option<nat>>, ids: seq<string>)

  predicate AnyDeclares(xs: seq<Exchange>) {
    exists i :: 0 <= i < |xs| && xs[i].turnId.Some?
  }

  /** Whether exchange `i` opens a turn in a session without declarations: its
      request starts one and continues a context, or is the first to start one. */
  predicate OpensUndeclared(xs: seq<Exchange>, i: nat)
    requires i < |xs|
  {
    && xs[i].StartsTurn()
    && (xs[i].ContinuesContext() || forall j :: 0 <= j < i ==> !xs[j].StartsTurn())
  }

  /** The turn exchange `i` opens or joins by itself, if any. */
  function OpenedId(xs: seq<Exchange>, i: nat): Option<string>
    requires i < |xs|
  {
    if AnyDeclares(xs) then xs[i].turnId
    else if OpensUndeclared(xs, i) then Some(xs[i].id)
    else None
  }

  /** The turns begun among the first `n` exchanges, in order of first appearance. */
  function TurnIds(xs: seq<Exchange>, n: nat): (ids: seq<string>)
    requires n <= |xs|
  {
    if n == 0 then []
    else
      var before := TurnIds(xs, n - 1);
      match OpenedId(xs, n - 1)
      case None => before
      case Some(id) => if id in before then before else before + [id]
  }

  /** The base of `i` when it is strictly earlier. */
  function EarlierBase(bases: seq<Base>, i: nat): (b: Option<nat>)
    requires i < |bases|
    ensures b.Some? ==> b.value < i
  {
    if bases[i].Ok? && bases[i].value.0 < i then Some(bases[i].value.0) else None
  }

  /** `chain` follows strictly earlier bases from `i` to an exchange that
      opens a turn or has no such base; nothing before its end opens one. */
  ghost predicate IsChain(xs: seq<Exchange>, bases: seq<Base>, i: nat, chain: seq<nat>)
    requires |bases| == |xs|
  {
    && chain != [] && chain[0] == i
    && (forall k :: 0 <= k < |chain| ==> chain[k] < |xs|)
    && (forall k :: 0 <= k < |chain| - 1 ==>
          OpenedId(xs, chain[k]).None? && EarlierBase(bases, chain[k]) == Some(chain[k + 1]))
    && (OpenedId(xs, chain[|chain| - 1]).Some? || EarlierBase(bases, chain[|chain| - 1]).None?)
  }

  /** The turn a chain's end settles: the one it opens, else the latest begun
      before it, else none. */
  ghost predicate SettledBy(xs: seq<Exchange>, end: nat, ids: seq<string>, turn: Option<nat>)
    requires end < |xs|
  {
    match OpenedId(xs, end)
    case Some(id) => turn.Some? && turn.value < |ids| && ids[turn.value] == id
    case None => turn == if TurnIds(xs, end) == [] then None else Some(|TurnIds(xs, end)| - 1)
  }

  /** Every exchange has the turn its chain settles. */
  ghost predicate FollowsChains(xs: seq<Exchange>, bases: seq<Base>, ids: seq<string>, of: seq<Option<nat>>)
    requires |bases| == |xs| && |of| <= |xs|
  {
    forall i, chain :: 0 <= i < |of| && IsChain(xs, bases, i, chain) ==>
      SettledBy(xs, chain[|chain| - 1], ids, of[i])
  }

  lemma {:induction false} TurnIdsGrow(xs: seq<Exchange>, m: nat, n: nat)
    requires m <= n <= |xs|
    ensures TurnIds(xs, m) <= TurnIds(xs, n)
  {
    if m < n {
      TurnIdsGrow(xs, m, n - 1);
    }
  }

  lemma {:induction false} TurnIdsAreDistinct(xs: seq<Exchange>, n: nat)
    requires n <= |xs|
    ensures Distinct(TurnIds(xs, n))
  {
    if n > 0 {
      TurnIdsAreDistinct(xs, n - 1);
    }
  }

  lemma {:induction false} NoTurnMeansNoStart(xs: seq<Exchange>, n: nat)
    requires n <= |xs| && !AnyDeclares(xs)
    ensures TurnIds(xs, n) == [] <==> forall j :: 0 <= j < n ==> !xs[j].StartsTurn()
  {
    if n > 0 {
      NoTurnMeansNoStart(xs, n - 1);
      if TurnIds(xs, n - 1) == [] && xs[n - 1].StartsTurn() {
        assert OpensUndeclared(xs, n - 1);
      }
    }
  }

  /** A chain continues through its second exchange. */
  lemma ChainTail(xs: seq<Exchange>, bases: seq<Base>, i: nat, chain: seq<nat>)
    requires |bases| == |xs| && IsChain(xs, bases, i, chain) && |chain| > 1
    ensures EarlierBase(bases, i) == Some(chain[1]) && IsChain(xs, bases, chain[1], chain[1..])
  {
    var tail := chain[1..];
    forall k | 0 <= k < |tail| - 1
      ensures OpenedId(xs, tail[k]).None? && EarlierBase(bases, tail[k]) == Some(tail[k + 1])
    {
      assert chain[k + 1] == tail[k] && chain[k + 2] == tail[k + 1];
    }
  }

  /** One more turn settled, by opening or by base, follows its chains. */
  lemma SettleNext(xs: seq<Exchange>, bases: seq<Base>, ids: seq<string>, of: seq<Option<nat>>, more: seq<string>,
                   turn: Option<nat>)
    requires |bases| == |xs| && |of| < |xs| && ids <= more
    requires FollowsChains(xs, bases, ids, of)
    requires OpenedId(xs, |of|).Some? || EarlierBase(bases, |of|).None? ==> SettledBy(xs, |of|, more, turn)
    requires OpenedId(xs, |of|).None? && EarlierBase(bases, |of|).Some? ==> turn == of[EarlierBase(bases, |of|).value]
    ensures FollowsChains(xs, bases, more, of + [turn])
  {
    forall i, chain | 0 <= i < |of| + 1 && IsChain(xs, bases, i, chain)
      ensures SettledBy(xs, chain[|chain| - 1], more, (of + [turn])[i])
    {
      if i < |of| {
        assert SettledBy(xs, chain[|chain| - 1], ids, of[i]);
      } else if |chain| > 1 {
        ChainTail(xs, bases, i, chain);
        assert SettledBy(xs, chain[1..][|chain| - 2], ids, of[chain[1]]);
      }
    }
  }

  /** Where an id already known stands. */
  ghost predicate Knows(known: map<string, nat>, ids: seq<string>) {
    && (forall id :: id in known ==> known[id] < |ids| && ids[known[id]] == id)
    && (forall id :: id in ids ==> id in known)
  }

  /** The turn of an exchange that opens none: its base's when that is
      earlier, else the latest begun. */
  function JoinedTurn(bases: seq<Base>, of: seq<Option<nat>>, ids: seq<string>): Option<nat>
    requires |of| < |bases|
  {
    match EarlierBase(bases, |of|)
    case Some(base) => of[base]
    case None => if ids == [] then None else Some(|ids| - 1)
  }

  /** The place of `id` among the turns, behind the others when it is new. */
  method OpenTurn(id: string, ids: seq<string>, known: map<string, nat>)
    returns (turn: nat, more: seq<string>, knows: map<string, nat>)
    requires Knows(known, ids)
    ensures more == (if id in ids then ids else ids + [id]) && Knows(knows, more)
    ensures turn < |more| && more[turn] == id
  {
    more, knows := ids, known;
    if id !in known {
      knows := knows[id := |ids|];
      more := more + [id];
    }
    turn := knows[id];
  }

  /** What exchange `n` opens, as the loop tells it: whether a turn has begun
      says whether one was started. */
  lemma OpensAsTold(xs: seq<Exchange>, n: nat, declared: bool)
    requires n < |xs| && (declared <==> AnyDeclares(xs))
    ensures var starts := xs[n].StartsTurn() && (xs[n].ContinuesContext() || TurnIds(xs, n) == []);
      OpenedId(xs, n) == if declared then xs[n].turnId else if starts then Some(xs[n].id) else None
  {
    if !declared {
      NoTurnMeansNoStart(xs, n);
    }
  }

  /** One pass with a table of known ids settles every chain. */
  method Assign(xs: seq<Exchange>, bases: seq<Base>) returns (turns: Turns)
    requires |bases| == |xs|
    ensures turns.ids == TurnIds(xs, |xs|)
    ensures |turns.of| == |xs| && FollowsChains(xs, bases, turns.ids, turns.of)
  {
    var declared := exists i :: 0 <= i < |xs| && xs[i].turnId.Some?;
    var ids: seq<string> := [];
    var known: map<string, nat> := map[];
    var of: seq<Option<nat>> := [];
    for index := 0 to |xs|
      invariant ids == TurnIds(xs, index)
      invariant Knows(known, ids)
      invariant |of| == index && FollowsChains(xs, bases, ids, of)
    {
      OpensAsTold(xs, index, declared);
      var starts := xs[index].StartsTurn() && (xs[index].ContinuesContext() || ids == []);
      var opens := if declared then xs[index].turnId else if starts then Some(xs[index].id) else None;
      ghost var was := ids;
      var turn: Option<nat>;
      match opens {
        case Some(id) =>
          var at;
          at, ids, known := OpenTurn(id, ids, known);
          turn := Some(at);
        case None =>
          turn := JoinedTurn(bases, of, ids);
      }
      SettleNext(xs, bases, was, of, ids, turn);
      of := of + [turn];
    }
    turns := Turns(of, ids);
  }

  /** Every exchange has a chain, so its turn is settled by one. */
  lemma {:induction false} EveryExchangeHasAChain(xs: seq<Exchange>, bases: seq<Base>, i: nat) returns (chain: seq<nat>)
    requires |bases| == |xs| && i < |xs|
    ensures IsChain(xs, bases, i, chain)
  {
    var base := EarlierBase(bases, i);
    if OpenedId(xs, i).Some? || base.None? {
      chain := [i];
    } else {
      var tail := EveryExchangeHasAChain(xs, bases, base.value);
      chain := [i] + tail;
      forall k | 0 <= k < |chain| - 1
        ensures OpenedId(xs, chain[k]).None? && EarlierBase(bases, chain[k]) == Some(chain[k + 1])
      {
        if k > 0 {
          assert chain[k] == tail[k - 1] && chain[k + 1] == tail[k];
        }
      }
    }
  }

  /** Turns are numbered by first appearance: whoever opens a later turn comes
      after someone who opened the earlier one. */
  lemma TurnsByFirstAppearance(xs: seq<Exchange>, n: nat, k: nat, l: nat, j: nat)
    requires n <= |xs| && k < l < |TurnIds(xs, n)|
    requires j < n && OpenedId(xs, j) == Some(TurnIds(xs, n)[l])
    ensures exists i :: 0 <= i < j && OpenedId(xs, i) == Some(TurnIds(xs, n)[k])
  {
    NoLaterThanOpened(xs, n, l, j);
    TurnIdsGrow(xs, j, n);
    EachTurnIsOpened(xs, j, k);
  }

  /** When exchange `j` opens turn `l`, every earlier turn has begun. */
  lemma NoLaterThanOpened(xs: seq<Exchange>, n: nat, l: nat, j: nat)
    requires j < n <= |xs| && l < |TurnIds(xs, n)| && OpenedId(xs, j) == Some(TurnIds(xs, n)[l])
    ensures l <= |TurnIds(xs, j)|
  {
    TurnIdsAreDistinct(xs, n);
    TurnIdsGrow(xs, j + 1, n);
    EachOpenedIdIsATurn(xs, j + 1, j);
    var m :| 0 <= m < |TurnIds(xs, j + 1)| && TurnIds(xs, j + 1)[m] == TurnIds(xs, n)[l];
    assert TurnIds(xs, n)[m] == TurnIds(xs, n)[l];
  }

  lemma {:induction false} EachTurnIsOpened(xs: seq<Exchange>, n: nat, k: nat)
    requires n <= |xs| && k < |TurnIds(xs, n)|
    ensures exists i :: 0 <= i < n && OpenedId(xs, i) == Some(TurnIds(xs, n)[k])
  {
    if k < |TurnIds(xs, n - 1)| {
      EachTurnIsOpened(xs, n - 1, k);
    }
  }

  lemma {:induction false} EachOpenedIdIsATurn(xs: seq<Exchange>, n: nat, i: nat)
    requires i < n <= |xs| && OpenedId(xs, i).Some?
    ensures OpenedId(xs, i).value in TurnIds(xs, n)
  {
    TurnIdsGrow(xs, i + 1, n);
    assert OpenedId(xs, i).value in TurnIds(xs, i + 1);
  }

  /** With declarations, the turns are the distinct declared values. */
  lemma DeclaredTurnCount(xs: seq<Exchange>)
    requires AnyDeclares(xs)
    ensures |TurnIds(xs, |xs|)| == |set i | 0 <= i < |xs| && xs[i].turnId.Some? :: xs[i].turnId.value|
  {
    var ids := TurnIds(xs, |xs|);
    var values := set i | 0 <= i < |xs| && xs[i].turnId.Some? :: xs[i].turnId.value;
    TurnIdsAreDistinct(xs, |xs|);
    DistinctCount(ids);
    forall id ensures id in values <==> id in ids {
      if id in values {
        var i :| 0 <= i < |xs| && xs[i].turnId == Some(id);
        EachOpenedIdIsATurn(xs, |xs|, i);
      }
      if id in ids {
        var k :| 0 <= k < |ids| && ids[k] == id;
        EachTurnIsOpened(xs, |xs|, k);
      }
    }
    assert values == Elements(ids);
  }

  /** The exchanges among the first `n` that open a turn, undeclared. */
  ghost function Openers(xs: seq<Exchange>, n: nat): set<nat>
    requires n <= |xs|
  {
    set i | 0 <= i < n && OpensUndeclared(xs, i)
  }

  ghost predicate IdsDiffer(xs: seq<Exchange>, es: set<nat>)
    requires forall e :: e in es ==> e < |xs|
  {
    forall i, j :: i in es && j in es && i != j ==> xs[i].id != xs[j].id
  }

  /** The openers among the first `n` whose id an earlier one has. */
  ghost function Shared(xs: seq<Exchange>, n: nat): set<nat>
    requires n <= |xs|
  {
    set i | 0 <= i < n && SharesId(xs, i)
  }

  /** `i` opens a turn under the id of an earlier opener. */
  ghost predicate SharesId(xs: seq<Exchange>, i: nat)
    requires i < |xs|
  {
    OpensUndeclared(xs, i) && exists j: nat :: j < i && OpensUndeclared(xs, j) && xs[j].id == xs[i].id
  }

  lemma NoneShared(xs: seq<Exchange>, n: nat)
    requires n <= |xs|
    ensures |Shared(xs, n)| == 0 <==> IdsDiffer(xs, Openers(xs, n))
  {
    forall i | i in Shared(xs, n) ensures !IdsDiffer(xs, Openers(xs, n)) {
      var j: nat :| j < i && OpensUndeclared(xs, j) && xs[j].id == xs[i].id;
      assert i in Openers(xs, n) && j in Openers(xs, n);
    }
    if !IdsDiffer(xs, Openers(xs, n)) {
      var i, j :| i in Openers(xs, n) && j in Openers(xs, n) && i != j && xs[i].id == xs[j].id;
      assert Max(i, j) in Shared(xs, n);
    }
  }

  /** The ids known before exchange `n` are those of the openers before. */
  lemma KnownId(xs: seq<Exchange>, n: nat, id: string)
    requires n <= |xs| && !AnyDeclares(xs)
    ensures id in TurnIds(xs, n) <==> exists j: nat :: j < n && OpensUndeclared(xs, j) && xs[j].id == id
  {
    if id in TurnIds(xs, n) {
      var k :| 0 <= k < |TurnIds(xs, n)| && TurnIds(xs, n)[k] == id;
      EachTurnIsOpened(xs, n, k);
    }
    forall j: nat | j < n && OpensUndeclared(xs, j) && xs[j].id == id ensures id in TurnIds(xs, n) {
      EachOpenedIdIsATurn(xs, n, j);
    }
  }

  /** Without declarations there is a turn for every exchange that opens one,
      but for those whose id an earlier one has. */
  lemma UndeclaredTurnCount(xs: seq<Exchange>, n: nat)
    requires n <= |xs| && !AnyDeclares(xs)
    ensures |TurnIds(xs, n)| + |Shared(xs, n)| == |Openers(xs, n)|
    ensures |TurnIds(xs, n)| == |Openers(xs, n)| <==> IdsDiffer(xs, Openers(xs, n))
  {
    TurnsButShared(xs, n);
    NoneShared(xs, n);
  }

  lemma {:induction false} TurnsButShared(xs: seq<Exchange>, n: nat)
    requires n <= |xs| && !AnyDeclares(xs)
    ensures |TurnIds(xs, n)| + |Shared(xs, n)| == |Openers(xs, n)|
  {
    if n == 0 {
      assert Openers(xs, n) == {} && Shared(xs, n) == {};
    } else {
      TurnsButShared(xs, n - 1);
      OneMoreTurn(xs, n - 1);
    }
  }

  lemma OneMoreTurn(xs: seq<Exchange>, n: nat)
    requires n < |xs| && !AnyDeclares(xs)
    ensures |TurnIds(xs, n + 1)| + |Shared(xs, n + 1)| + |Openers(xs, n)|
            == |TurnIds(xs, n)| + |Shared(xs, n)| + |Openers(xs, n + 1)|
  {
    KnownId(xs, n, xs[n].id);
    OpenersNext(xs, n);
    assert Shared(xs, n + 1) == Shared(xs, n) + if SharesId(xs, n) then {n} else {};
  }

  lemma OpenersNext(xs: seq<Exchange>, n: nat)
    requires n < |xs|
    ensures |Openers(xs, n + 1)| == |Openers(xs, n)| + if OpensUndeclared(xs, n) then 1 else 0
  {
    assert Openers(xs, n + 1) == Openers(xs, n) + if OpensUndeclared(xs, n) then {n} else {};
  }
}
