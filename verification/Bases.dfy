/** Bases: each exchange is led back to at most one other, by pointer, by last
    output or by the calls it answers, through tables of keys. */
module Bases {
  import opened Collections
  import opened Exchanges
  import opened Facts

  datatype BaseRule = Pointer | LastOutput | ResultsOnly

  datatype NoBaseReason = TextOnly | NoOutput | UnknownIds | MultipleResponses | MissingRequest

  type Base = Result<(nat, BaseRule), NoBaseReason>

  /** Whether exchange `x`'s response emitted `id`. */
  predicate Emits(x: Exchange, id: string) {
    x.response.Some? && id in x.response.value.facts.emittedIds
  }

  /** The emitters of `id` among the first `n` exchanges, in order. */
  function EmittersOf(xs: seq<Exchange>, n: nat, id: string): (es: seq<nat>)
    requires n <= |xs|
    ensures forall e: int :: e in es <==> 0 <= e < n && Emits(xs[e], id)
    ensures Increasing(es)
  {
    if n == 0 then []
    else
      var before := EmittersOf(xs, n - 1, id);
      assert forall k :: 0 <= k < |before| ==> before[k] in before;
      if Emits(xs[n - 1], id) then before + [n - 1] else before
  }

  /** The list of `id`; none when no exchange emitted it. */
  function At(byId: map<string, seq<nat>>, id: string): seq<nat> {
    if id in byId then byId[id] else []
  }

  /** The emitters of every identity among the first `n` exchanges. */
  ghost predicate ListsUpTo(xs: seq<Exchange>, n: nat, byId: map<string, seq<nat>>)
    requires n <= |xs|
  {
    forall id :: At(byId, id) == EmittersOf(xs, n, id)
  }

  ghost predicate IsEmitters(xs: seq<Exchange>, byId: map<string, seq<nat>>) {
    ListsUpTo(xs, |xs|, byId)
  }

  /** Fills the table in one pass over the exchanges. */
  method Emitters(xs: seq<Exchange>) returns (byId: map<string, seq<nat>>)
    ensures IsEmitters(xs, byId)
  {
    byId := map[];
    for index := 0 to |xs|
      invariant ListsUpTo(xs, index, byId)
    {
      if xs[index].response.Some? {
        byId := EmitAll(xs, index, byId);
      }
    }
  }

  /** Lists exchange `index` under each id it emitted, once. */
  method EmitAll(xs: seq<Exchange>, index: nat, before: map<string, seq<nat>>) returns (byId: map<string, seq<nat>>)
    requires index < |xs| && xs[index].response.Some?
    requires ListsUpTo(xs, index, before)
    ensures ListsUpTo(xs, index + 1, byId)
  {
    byId := before;
    var ids := xs[index].response.value.facts.emittedIds;
    ghost var listed: set<string> := {};
    for i := 0 to |ids|
      invariant listed == set k | 0 <= k < i :: ids[k]
      invariant forall id :: At(byId, id) == Listed(xs, index, listed, id)
    {
      var id := ids[i];
      var list := At(byId, id);
      ListedOnce(xs, index, listed, id);
      ghost var was, wasListed := byId, listed;
      if list == [] || list[|list| - 1] != index {
        byId := byId[id := list + [index]];
      }
      listed := listed + {id};
      forall other ensures At(byId, other) == Listed(xs, index, listed, other) {
        assert At(was, other) == Listed(xs, index, wasListed, other);
      }
    }
    forall id ensures At(byId, id) == EmittersOf(xs, index + 1, id) {
      assert id in listed <==> Emits(xs[index], id);
    }
  }

  /** The list of `id` once exchange `index` has been listed under `listed`. */
  ghost function Listed(xs: seq<Exchange>, index: nat, listed: set<string>, id: string): seq<nat>
    requires index < |xs|
  {
    if id in listed then EmittersOf(xs, index, id) + [index] else EmittersOf(xs, index, id)
  }

  lemma ListedOnce(xs: seq<Exchange>, index: nat, listed: set<string>, id: string)
    requires index < |xs|
    ensures var list := Listed(xs, index, listed, id);
            id in listed <==> list != [] && list[|list| - 1] == index
  {
    var es := EmittersOf(xs, index, id);
    if es != [] {
      assert es[|es| - 1] in es;
    }
  }

  /** The exchanges other than `own` that emitted one of `ids`. */
  function OtherEmitters(ids: seq<string>, own: nat, byId: map<string, seq<nat>>): (es: set<nat>) {
    set i, e | 0 <= i < |ids| && e in At(byId, ids[i]) && e != own :: e
  }

  /** The only member of `es`; otherwise whether it has none or several. */
  function Sole(es: set<nat>): (r: Result<nat, NoBaseReason>)
    ensures r.Ok? ==> es == {r.value}
    ensures r == Err(UnknownIds) <==> es == {}
    ensures r == Err(MultipleResponses) <==> exists a, b :: a in es && b in es && a != b
    ensures r.Err? ==> r.error == UnknownIds || r.error == MultipleResponses
  {
    if es == {} then Err(UnknownIds)
    else if exists e :: e in es && es == {e} then
      var e :| e in es;
      Ok(e)
    else
      assert exists a, b :: a in es && b in es && a != b by {
        var a :| a in es;
        assert es != {a};
        var b :| b in es && b != a;
      }
      Err(MultipleResponses)
  }

  /** The single member of `OtherEmitters`, or which way it fails to be single. */
  function OnlyEmitter(ids: seq<string>, own: nat, byId: map<string, seq<nat>>): (r: Result<nat, NoBaseReason>) {
    Sole(OtherEmitters(ids, own, byId))
  }

  ghost predicate Agrees(found: Option<nat>, es: set<nat>) {
    if found.None? then es == {} else es == {found.value}
  }

  ghost function Others(list: seq<nat>, own: nat): set<nat> {
    set e | e in list && e != own
  }

  /** Scans one list of emitters; `many` when it found a second one. */
  method ScanList(list: seq<nat>, own: nat, before: Option<nat>, ghost earlier: set<nat>)
    returns (found: Option<nat>, many: bool)
    requires Agrees(before, earlier)
    ensures !many ==> Agrees(found, earlier + Others(list, own))
    ensures many ==> exists a, b :: a in earlier + Others(list, own) && b in earlier + Others(list, own) && a != b
  {
    found, many := before, false;
    for j := 0 to |list|
      invariant Agrees(found, earlier + Others(list[..j], own))
    {
      assert list[..j + 1] == list[..j] + [list[j]];
      assert Others(list[..j + 1], own) == Others(list[..j], own) + (if list[j] == own then {} else {list[j]});
      if list[j] == own || found == Some(list[j]) {
        continue;
      }
      if found.Some? {
        assert found.value in earlier + Others(list, own) && list[j] in earlier + Others(list, own);
        return found, true;
      }
      found := Some(list[j]);
    }
    assert list[..|list|] == list;
  }

  lemma OtherEmittersNext(ids: seq<string>, i: nat, own: nat, byId: map<string, seq<nat>>)
    requires i < |ids|
    ensures OtherEmitters(ids[..i + 1], own, byId) == OtherEmitters(ids[..i], own, byId) + Others(At(byId, ids[i]), own)
    ensures OtherEmitters(ids[..i + 1], own, byId) <= OtherEmitters(ids, own, byId)
  {
    assert ids[..i + 1] == ids[..i] + [ids[i]];
  }

  /** Scans the emitters of `ids`, stopping at the second one found. */
  method ScanEmitters(ids: seq<string>, own: nat, byId: map<string, seq<nat>>)
    returns (r: Result<nat, NoBaseReason>)
    ensures r == OnlyEmitter(ids, own, byId)
  {
    var found: Option<nat> := None;
    for i := 0 to |ids|
      invariant Agrees(found, OtherEmitters(ids[..i], own, byId))
    {
      OtherEmittersNext(ids, i, own, byId);
      var many;
      found, many := ScanList(At(byId, ids[i]), own, found, OtherEmitters(ids[..i], own, byId));
      if many {
        return Err(MultipleResponses);
      }
    }
    assert ids[..|ids|] == ids;
    r := if found.Some? then Ok(found.value) else Err(UnknownIds);
  }

  /** Skeleton entries of model output keyed by `key`. */
  function KeyedBy(key: string): SkeletonEntry -> bool {
    (entry: SkeletonEntry) => entry.0.IsModelSide() && entry.1 == Some(key)
  }

  /** Roles of the model-side entries of an output, in order. */
  function SpokenRoles(output: seq<SkeletonEntry>): seq<Role> {
    if output == [] then []
    else (if output[0].0.IsModelSide() then [output[0].0] else []) + SpokenRoles(output[1..])
  }

  function Is(role: Role): Role -> bool {
    (other: Role) => other == role
  }

  /** Takes each trailing role from the first place left that spoke it. */
  predicate GreedyScan(said: seq<Role>, trailing: seq<Role>) {
    trailing == []
    || match FirstPosition(said, Is(trailing[0]))
       case None => false
       case Some(k) => GreedyScan(said[k + 1..], trailing[1..])
  }

  /** The greedy scan over what follows the last entry keyed by `last` succeeds. */
  predicate SaidAfter(output: seq<SkeletonEntry>, last: string, trailing: seq<Role>) {
    match LastPosition(output, KeyedBy(last))
    case None => false
    case Some(held) => GreedyScan(SpokenRoles(output[held + 1..]), trailing)
  }

  /** `sub` stands in `s` at the positions `at`. */
  ghost predicate Embeds<T>(sub: seq<T>, s: seq<T>, at: seq<nat>) {
    && |at| == |sub|
    && Increasing(at)
    && forall i :: 0 <= i < |sub| ==> at[i] < |s| && s[at[i]] == sub[i]
  }

  ghost predicate Subsequence<T>(sub: seq<T>, s: seq<T>) {
    exists at :: Embeds(sub, s, at)
  }

  lemma {:induction false} GreedyFindsAnEmbedding(said: seq<Role>, trailing: seq<Role>) returns (at: seq<nat>)
    requires GreedyScan(said, trailing)
    ensures Embeds(trailing, said, at)
  {
    if trailing == [] {
      at := [];
    } else {
      var k := FirstPosition(said, Is(trailing[0])).value;
      var rest := GreedyFindsAnEmbedding(said[k + 1..], trailing[1..]);
      at := EmbeddingBehind(said, trailing, k, rest);
    }
  }

  /** The first trailing role at `k`, and the others embedded behind it. */
  lemma EmbeddingBehind(said: seq<Role>, trailing: seq<Role>, k: nat, rest: seq<nat>) returns (at: seq<nat>)
    requires trailing != [] && k < |said| && said[k] == trailing[0]
    requires Embeds(trailing[1..], said[k + 1..], rest)
    ensures Embeds(trailing, said, at)
  {
    var tail := seq(|rest|, i requires 0 <= i < |rest| => rest[i] + k + 1);
    at := [k] + tail;
    forall i | 0 <= i < |rest| ensures tail[i] < |said| && said[tail[i]] == trailing[i + 1] {
      assert said[k + 1..][rest[i]] == trailing[1..][i];
    }
  }

  lemma {:induction false} AnEmbeddingFeedsGreedy(said: seq<Role>, trailing: seq<Role>, at: seq<nat>)
    requires Embeds(trailing, said, at)
    ensures GreedyScan(said, trailing)
  {
    if trailing != [] {
      assert said[at[0]] == trailing[0];
      assert Is(trailing[0])(said[at[0]]);
      var k := FirstPosition(said, Is(trailing[0])).value;
      assert k <= at[0];
      var rest := seq(|at| - 1, i requires 0 <= i < |at| - 1 => at[i + 1] - k - 1);
      forall i | 0 <= i < |trailing| - 1
        ensures rest[i] < |said[k + 1..]| && said[k + 1..][rest[i]] == trailing[1..][i]
      {
        assert said[at[i + 1]] == trailing[i + 1];
      }
      AnEmbeddingFeedsGreedy(said[k + 1..], trailing[1..], rest);
    }
  }

  /** The greedy scan succeeds exactly when some embedding exists. */
  lemma GreedyIsExact(said: seq<Role>, trailing: seq<Role>)
    ensures GreedyScan(said, trailing) <==> Subsequence(trailing, said)
  {
    if GreedyScan(said, trailing) {
      var at := GreedyFindsAnEmbedding(said, trailing);
    }
    if at :| Embeds(trailing, said, at) {
      AnEmbeddingFeedsGreedy(said, trailing, at);
    }
  }

  /** A base by last output if the emitter's skeleton passes `SaidAfter`, else
      the reason that it does not. */
  function Continued(emitter: nat, xs: seq<Exchange>, last: string, trailing: seq<Role>): Base
    requires emitter < |xs|
  {
    var response := xs[emitter].response;
    var output := if response.Some? then response.value.facts.outputSkeleton else [];
    if SaidAfter(output, last, trailing) then Ok((emitter, LastOutput)) else Err(TextOnly)
  }

  /** The exchange of each response id; the last one where two share it. */
  function ByResponseId(xs: seq<Exchange>): (m: map<string, nat>)
    ensures forall r :: r in m ==> m[r] < |xs| && xs[m[r]].responseId == Some(r)
    ensures forall i :: 0 <= i < |xs| && xs[i].responseId.Some? ==>
              xs[i].responseId.value in m && i <= m[xs[i].responseId.value]
  {
    if xs == [] then map[]
    else
      var m, x := ByResponseId(xs[..|xs| - 1]), xs[|xs| - 1];
      if x.responseId.Some? then m[x.responseId.value := |xs| - 1] else m
  }

  /** The index lists only exchanges of the session. */
  ghost predicate Within(xs: seq<Exchange>, byId: map<string, seq<nat>>) {
    forall id, e :: e in At(byId, id) ==> e < |xs|
  }

  lemma EmittersAreWithin(xs: seq<Exchange>, byId: map<string, seq<nat>>)
    requires IsEmitters(xs, byId)
    ensures Within(xs, byId)
  {
    forall id, e | e in At(byId, id) ensures e < |xs| {
      assert At(byId, id) == EmittersOf(xs, |xs|, id);
    }
  }

  /** The one other exchange that emitted `last`, when it said what trails it. */
  function FindByLastIdentity(index: nat, xs: seq<Exchange>, byId: map<string, seq<nat>>, last: string,
                              trailing: seq<Role>): Base
    requires Within(xs, byId)
  {
    match OnlyEmitter([last], index, byId)
    case Err(reason) => Err(reason)
    case Ok(emitter) =>
      assert emitter in OtherEmitters([last], index, byId);
      Continued(emitter, xs, last, trailing)
  }

  /** The first pass at `index`: a known pointer, else results, else last output. */
  function FindBase(index: nat, xs: seq<Exchange>, byResponseId: map<string, nat>, byId: map<string, seq<nat>>): Base
    requires index < |xs| && Within(xs, byId)
  {
    match xs[index].request
    case None => Err(MissingRequest)
    case Some(request) =>
      var facts := request.facts;
      if request.previousResponseId.Some? && request.previousResponseId.value in byResponseId then
        Ok((byResponseId[request.previousResponseId.value], Pointer))
      else if facts.lastIdentity.Some? then
        FindByLastIdentity(index, xs, byId, facts.lastIdentity.value, facts.trailing)
      else if facts.newFrom > 0 then Err(TextOnly)
      else if facts.resultIds == [] then Err(NoOutput)
      else
        match OnlyEmitter(facts.resultIds, index, byId)
        case Err(reason) => Err(reason)
        case Ok(emitter) => Ok((emitter, ResultsOnly))
  }

  /** Whether `emitter` had no context and spoke `last` first. */
  predicate SaidFirstWithoutContext(emitter: nat, xs: seq<Exchange>, last: string, first: seq<Base>)
    requires emitter < |xs| == |first|
  {
    && first[emitter] == Err(NoOutput)
    && xs[emitter].request.Some? && xs[emitter].request.value.previousResponseId.None?
    && xs[emitter].response.Some?
    && xs[emitter].response.value.facts.emittedIds != []
    && xs[emitter].response.value.facts.emittedIds[0] == last
  }

  /** Whether `emitter` saw what the request has before `last`. */
  predicate Saw(emitter: nat, xs: seq<Exchange>, last: string, before: Option<nat>, first: seq<Base>)
    requires |xs| == |first|
  {
    && emitter < |xs|
    && match before
       case None => SaidFirstWithoutContext(emitter, xs, last, first)
       case Some(b) => emitter == b || (first[emitter].Ok? && first[emitter].value.0 == b)
  }

  function Keeps(index: nat, xs: seq<Exchange>, last: string, before: Option<nat>, first: seq<Base>): nat -> bool
    requires |xs| == |first|
  {
    (emitter: nat) => emitter != index && Saw(emitter, xs, last, before, first)
  }

  /** The exchange that emitted what the request has before its last identity:
      `Ok(None)` when it has nothing there, an error when no single one did. */
  function Before(facts: RequestFacts, index: nat, byId: map<string, seq<nat>>): Result<Option<nat>, NoBaseReason> {
    match facts.previousIdentity
    case None => Ok(None)
    case Some(previous) =>
      match OnlyEmitter([previous], index, byId)
      case Ok(e) => Ok(Some(e))
      case Err(reason) => Err(reason)
  }

  /** The emitters of `last` that `Keeps` lets through, in order. */
  function Kept(index: nat, xs: seq<Exchange>, byId: map<string, seq<nat>>, last: string, before: Option<nat>,
                first: seq<Base>): (kept: seq<nat>)
    requires |xs| == |first|
    ensures forall e :: e in kept ==> e < |xs|
  {
    Filter<nat>(At(byId, last), Keeps(index, xs, last, before, first))
  }

  /** The base the kept emitters leave: one of them, none, or several. */
  function ToldApart(kept: seq<nat>, xs: seq<Exchange>, last: string, trailing: seq<Role>): Base
    requires forall e :: e in kept ==> e < |xs|
  {
    if |kept| == 0 then Err(UnknownIds)
    else if |kept| == 1 then
      assert kept[0] in kept;
      Continued(kept[0], xs, last, trailing)
    else Err(MultipleResponses)
  }

  /** The second pass at `index`: a result only when `Kept` is a single emitter. */
  function TellApart(index: nat, xs: seq<Exchange>, byId: map<string, seq<nat>>, first: seq<Base>): Option<Base>
    requires index < |xs| == |first|
  {
    if xs[index].request.None? || xs[index].request.value.facts.lastIdentity.None? then None
    else
      var facts := xs[index].request.value.facts;
      var last := facts.lastIdentity.value;
      match Before(facts, index, byId)
      case Err(_) => None
      case Ok(before) =>
        Some(ToldApart(Kept(index, xs, byId, last, before, first), xs, last, facts.trailing))
  }

  /** The first pass. */
  function FirstBases(xs: seq<Exchange>, byResponseId: map<string, nat>, byId: map<string, seq<nat>>): (bs: seq<Base>)
    requires Within(xs, byId)
    ensures |bs| == |xs|
  {
    seq(|xs|, i requires 0 <= i < |xs| => FindBase(i, xs, byResponseId, byId))
  }

  /** The base of one exchange after both passes. */
  function SettledBase(index: nat, xs: seq<Exchange>, byId: map<string, seq<nat>>, first: seq<Base>): Base
    requires index < |xs| == |first|
  {
    if first[index] != Err(MultipleResponses) then first[index]
    else
      match TellApart(index, xs, byId, first)
      case None => first[index]
      case Some(b) => b
  }

  /** Both passes over all exchanges. */
  function FindBases(xs: seq<Exchange>, byResponseId: map<string, nat>, byId: map<string, seq<nat>>): (bs: seq<Base>)
    requires Within(xs, byId)
    ensures |bs| == |xs|
  {
    var first := FirstBases(xs, byResponseId, byId);
    seq(|xs|, i requires 0 <= i < |xs| => SettledBase(i, xs, byId, first))
  }
}
