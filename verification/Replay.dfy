/** A reply a client carries back is found: the request that resends it
    continues the exchange that gave it. */
module Replay {
  import opened BaseLaws
  import opened BaseRules
  import opened Bases
  import opened Collections
  import opened Exchanges
  import opened Facts
  import opened SecondPass

  /** The last identity among entries that have one. */
  function LastKept(lib: Library, kept: seq<Entry>): string {
    match LastPosition(kept, HasIdentity(lib))
    case None => ""
    case Some(h) => LastOf(lib, kept[h])
  }

  /** What the replay needs of the reply it resends. */
  ghost predicate Replayable(lib: Library, reply: seq<Entry>) {
    && (forall k :: 0 <= k < |reply| ==> reply[k].role.IsModelSide() || reply[k].role.ToolResult?)
    && (forall k :: 0 <= k < |reply| && reply[k].callId.Some? ==> reply[k].role.ToolCall? || reply[k].role.ToolResult?)
    && (forall k, l :: 0 <= k < l < |reply| && reply[k].role.IsModelSide() && reply[l].role.IsModelSide() ==>
          Key(lib, reply[k]).None? || Key(lib, reply[k]) != Key(lib, reply[l]))
  }

  /** An entry that has an identity is keyed by its last one. */
  lemma KeyIsLastIdentity(lib: Library, e: Entry)
    requires HasIdentity(lib)(e)
    requires e.callId.Some? ==> e.role.ToolCall? || e.role.ToolResult?
    ensures e.role.IsModelSide() && Key(lib, e) == Some(LastOf(lib, e))
  {
    var ids := Identities(lib, e);
    assert e.role.IsModelSide();
    if e.callId.Some? {
      assert e.role.ToolCall?;
      assert TextIdentity(lib, e).None?;
      assert ids == AsSeq(Item(e)) + [e.callId.value];
    } else if e.itemId.Some? {
      assert ids == [Item(e).value];
    } else {
      assert ids == AsSeq(TextIdentity(lib, e));
    }
  }

  lemma {:induction false} SkeletonRoles(lib: Library, entries: seq<Entry>)
    ensures SpokenRoles(Skeleton(lib, entries)) == ModelRoles(entries)
  {
    if entries != [] {
      SkeletonRoles(lib, entries[1..]);
      assert Skeleton(lib, entries)[1..] == Skeleton(lib, entries[1..]);
    }
  }

  lemma SubsequencePrepend<T>(sub: seq<T>, s: seq<T>, x: T)
    requires Subsequence(sub, s)
    ensures Subsequence(sub, [x] + s)
    ensures Subsequence([x] + sub, [x] + s)
  {
    var at :| Embeds(sub, s, at);
    var moved := seq(|at|, i requires 0 <= i < |at| => at[i] + 1);
    assert Embeds(sub, [x] + s, moved);
    assert Embeds([x] + sub, [x] + s, [0] + moved);
  }

  function Shifted(at: seq<nat>, least: nat): (shifted: seq<nat>)
    requires forall i :: 0 <= i < |at| ==> least <= at[i]
  {
    seq(|at|, i requires 0 <= i < |at| && least <= at[i] => at[i] - least)
  }

  /** What is kept from `h` on stands in the output from `g` on. */
  lemma EmbedBehind<T>(sub: seq<T>, s: seq<T>, at: seq<nat>, h: nat, g: nat)
    requires Embeds(sub, s, at) && h <= |sub| && g <= |s|
    requires forall i :: h <= i < |sub| ==> g <= at[i]
    ensures Embeds(sub[h..], s[g..], Shifted(at[h..], g))
  {
    var rest := Shifted(at[h..], g);
    forall i | 0 <= i < |sub[h..]| ensures rest[i] < |s[g..]| && s[g..][rest[i]] == sub[h..][i] {
      assert s[at[h + i]] == sub[h + i];
    }
  }

  lemma RolesStep(kept: seq<Entry>, reply: seq<Entry>, skip: nat)
    requires reply != [] && skip <= 1 && (skip == 1 ==> kept != [] && kept[0] == reply[0])
    requires Subsequence(ModelRoles(kept[skip..]), ModelRoles(reply[1..]))
    ensures Subsequence(ModelRoles(kept), ModelRoles(reply))
  {
    assert skip == 0 ==> kept[skip..] == kept;
    if reply[0].role.IsModelSide() {
      SubsequencePrepend(ModelRoles(kept[skip..]), ModelRoles(reply[1..]), reply[0].role);
    } else {
      assert ModelRoles(reply) == ModelRoles(reply[1..]);
      assert ModelRoles(kept) == ModelRoles(kept[skip..]);
    }
  }

  /** Dropping entries of an output leaves its roles a subsequence. */
  lemma {:induction false} KeptRolesEmbed(kept: seq<Entry>, reply: seq<Entry>, at: seq<nat>)
    requires Embeds(kept, reply, at)
    ensures Subsequence(ModelRoles(kept), ModelRoles(reply))
    decreases |reply|
  {
    if reply == [] {
      assert kept == [];
      assert Embeds(ModelRoles(kept), ModelRoles(reply), []);
    } else {
      var skip := if kept != [] && at[0] == 0 then 1 else 0;
      EmbedBehind(kept, reply, at, skip, 1);
      KeptRolesEmbed(kept[skip..], reply[1..], Shifted(at[skip..], 1));
      RolesStep(kept, reply, skip);
    }
  }

  lemma ReplyRolesBehind(lib: Library, kept: seq<Entry>, reply: seq<Entry>, at: seq<nat>, h: nat)
    requires Embeds(kept, reply, at) && h < |kept|
    ensures Subsequence(ModelRoles(kept[h + 1..]), SpokenRoles(Skeleton(lib, reply)[at[h] + 1..]))
  {
    var g := at[h];
    EmbedBehind(kept, reply, at, h + 1, g + 1);
    KeptRolesEmbed(kept[h + 1..], reply[g + 1..], Shifted(at[h + 1..], g + 1));
    SkeletonRoles(lib, reply[g + 1..]);
    assert Skeleton(lib, reply)[g + 1..] == Skeleton(lib, reply[g + 1..]);
  }

  /** The skeleton entry of `g` is the last one with its key. */
  lemma KeyedOnce(lib: Library, reply: seq<Entry>, g: nat)
    requires Replayable(lib, reply) && g < |reply| && HasIdentity(lib)(reply[g])
    ensures
      var output, last := Skeleton(lib, reply), LastOf(lib, reply[g]);
      && output[g].0.IsModelSide() && output[g].1 == Some(last)
      && forall i :: g < i < |output| ==> !(output[i].0.IsModelSide() && output[i].1 == Some(last))
  {
    KeyIsLastIdentity(lib, reply[g]);
  }

  /** The reply said what trails the kept entry `h` behind its own copy of it. */
  lemma ReplySaysBehind(lib: Library, kept: seq<Entry>, reply: seq<Entry>, at: seq<nat>, h: nat)
    requires Replayable(lib, reply) && Embeds(kept, reply, at) && h < |kept|
    requires HasIdentity(lib)(kept[h])
    ensures SaysBehind(Skeleton(lib, reply), at[h], LastOf(lib, kept[h]), ModelRoles(kept[h + 1..]))
  {
    assert reply[at[h]] == kept[h];
    KeyedOnce(lib, reply, at[h]);
    ReplyRolesBehind(lib, kept, reply, at, h);
  }

  /** A reply emits the last identity of each of its entries. */
  lemma ReplyEmits(lib: Library, reply: seq<Entry>, g: nat)
    requires g < |reply| && HasIdentity(lib)(reply[g])
    ensures LastOf(lib, reply[g]) in AllIdentities(lib, reply)
  {
    var all := seq(|reply|, i requires 0 <= i < |reply| => Identities(lib, reply[i]));
    FlattenMembers(all, LastOf(lib, reply[g]));
    assert LastOf(lib, reply[g]) in all[g];
  }

  /** The facts of a request that ends in kept entries of a reply. */
  lemma ReplayFacts(lib: Library, prefix: seq<Entry>, kept: seq<Entry>, rest: seq<Entry>, h: nat)
    requires h < |kept| && HasIdentity(lib)(kept[h])
    requires forall k :: h < k < |kept| ==> !HasIdentity(lib)(kept[k])
    requires forall k :: 0 <= k < |kept| ==> kept[k].role.IsModelSide() || kept[k].role.ToolResult?
    requires forall k :: 0 <= k < |rest| ==> !rest[k].role.IsModelSide() && !HasIdentity(lib)(rest[k])
    ensures ReadRequest(lib, prefix + kept + rest).lastIdentity == Some(LastOf(lib, kept[h]))
    ensures ReadRequest(lib, prefix + kept + rest).trailing == ModelRoles(kept[h + 1..])
  {
    var entries := prefix + kept + rest;
    var at, last := KeptEndRun(HasIdentity(lib), entries, prefix, kept, rest, h);
    EndFacts(lib, entries, at, last, kept[h], ModelRoles(kept[h + 1..]));
  }

  /** `e`, at `at`, is the last entry of the last run that holds one, with
      `roles` behind it. */
  ghost predicate EndsRun(holds: Entry -> bool, entries: seq<Entry>, at: nat, last: nat, e: Entry, roles: seq<Role>) {
    && HeldInLastRun(holds, entries, at, last)
    && entries[at] == e && ModelRoles(entries[at + 1..]) == roles
  }

  lemma KeptEndRun(holds: Entry -> bool, entries: seq<Entry>, prefix: seq<Entry>, kept: seq<Entry>, rest: seq<Entry>,
                   h: nat) returns (at: nat, last: nat)
    requires entries == prefix + kept + rest && h < |kept| && holds(kept[h]) && kept[h].role.IsModelSide()
    requires forall k :: h < k < |kept| ==> !holds(kept[k])
    requires forall k :: 0 <= k < |kept| ==> kept[k].role.IsModelSide() || kept[k].role.ToolResult?
    requires forall k :: 0 <= k < |rest| ==> !rest[k].role.IsModelSide() && !holds(rest[k])
    ensures EndsRun(holds, entries, at, last, kept[h], ModelRoles(kept[h + 1..]))
  {
    at := |prefix| + h;
    KeptAreHeld(holds, prefix, kept, rest);
    last := LastModelSide(holds, entries, |prefix|, kept, h);
    RolesOfRest(holds, entries, |prefix|, kept, h);
  }

  lemma EndFacts(lib: Library, entries: seq<Entry>, at: nat, last: nat, e: Entry, roles: seq<Role>)
    requires EndsRun(HasIdentity(lib), entries, at, last, e, roles)
    ensures ReadRequest(lib, entries).lastIdentity == Some(LastOf(lib, e))
    ensures ReadRequest(lib, entries).trailing == roles
  {
    LastIdentityIsHeldInTheLastRun(lib, entries, at, last);
  }

  /** `entries` hold `kept` from `n` on, and no model output behind them. */
  ghost predicate HoldsKept(holds: Entry -> bool, entries: seq<Entry>, n: nat, kept: seq<Entry>) {
    && n + |kept| <= |entries|
    && (forall k :: n <= k < n + |kept| ==> entries[k] == kept[k - n])
    && forall k :: n + |kept| <= k < |entries| ==> !entries[k].role.IsModelSide() && !holds(entries[k])
  }

  lemma KeptAreHeld(holds: Entry -> bool, prefix: seq<Entry>, kept: seq<Entry>, rest: seq<Entry>)
    requires forall k :: 0 <= k < |rest| ==> !rest[k].role.IsModelSide() && !holds(rest[k])
    ensures HoldsKept(holds, prefix + kept + rest, |prefix|, kept)
  {
  }

  lemma RolesOfRest(holds: Entry -> bool, entries: seq<Entry>, n: nat, kept: seq<Entry>, h: nat)
    requires HoldsKept(holds, entries, n, kept) && h < |kept|
    ensures ModelRoles(entries[n + h + 1..]) == ModelRoles(kept[h + 1..])
  {
    var rest := entries[n + |kept|..];
    assert entries[n + h + 1..] == kept[h + 1..] + rest;
    ModelRolesAppend(kept[h + 1..], rest);
    NoModelRoles(rest);
  }

  /** The last model-side entry of the request is a kept one. */
  lemma LastModelSide(holds: Entry -> bool, entries: seq<Entry>, n: nat, kept: seq<Entry>, h: nat)
    returns (last: nat)
    requires HoldsKept(holds, entries, n, kept) && h < |kept| && holds(kept[h]) && kept[h].role.IsModelSide()
    requires forall k :: h < k < |kept| ==> !holds(kept[k])
    requires forall k :: 0 <= k < |kept| ==> kept[k].role.IsModelSide() || kept[k].role.ToolResult?
    ensures HeldInLastRun(holds, entries, n + h, last)
  {
    assert ModelSide()(kept[h]);
    var m := LastPosition(kept, ModelSide()).value;
    assert forall k :: m < k < |kept| ==> !ModelSide()(kept[k]);
    last := n + m;
  }

  /** Replay completeness. A request without a known pointer holds anything,
      then entries of `e`'s reply in order, one with an identity among them,
      then no model output. Then `e` is its base, by its last output, exactly
      when no third exchange emitted the last identity kept, or of all that did
      `e` alone saw what came before. */
  lemma AReplayedReplyIsTheBase(lib: Library, xs: seq<Exchange>, byId: map<string, seq<nat>>, bases: seq<Base>,
                                i: nat, e: nat, prefix: seq<Entry>, kept: seq<Entry>, rest: seq<Entry>,
                                reply: seq<Entry>, at: seq<nat>)
    requires AreBases(xs, byId, bases) && i < |xs| && e < |xs| && i != e
    requires xs[i].request.Some? && xs[i].request.value.facts == ReadRequest(lib, prefix + kept + rest)
    requires PointsNowhere(xs, i)
    requires xs[e].response.Some? && xs[e].response.value.facts == ReadResponse(lib, reply)
    requires Replayable(lib, reply) && Embeds(kept, reply, at)
    requires exists k :: 0 <= k < |kept| && HasIdentity(lib)(kept[k])
    requires forall k :: 0 <= k < |rest| ==> !rest[k].role.IsModelSide()
    ensures LooksFor(xs, i, LastKept(lib, kept))
    ensures bases[i] == Ok((e, LastOutput)) <==>
              forall x: nat :: x < |xs| && x != i && x != e && Emits(xs[x], LastKept(lib, kept)) ==>
                && SawBefore(xs, i, LastKept(lib, kept), e)
                && !SawBefore(xs, i, LastKept(lib, kept), x)
  {
    var h := LastPosition(kept, HasIdentity(lib)).value;
    assert LastKept(lib, kept) == LastOf(lib, kept[h]);
    KeptFacts(lib, prefix, kept, rest, reply, at, h);
    TheEmitterIsFound(xs, byId, bases, i, e, LastOf(lib, kept[h]), at[h]);
  }

  /** What the two sides of the replay say of the last kept entry with an identity. */
  lemma KeptFacts(lib: Library, prefix: seq<Entry>, kept: seq<Entry>, rest: seq<Entry>, reply: seq<Entry>,
                  at: seq<nat>, h: nat)
    requires Replayable(lib, reply) && Embeds(kept, reply, at)
    requires h < |kept| && HasIdentity(lib)(kept[h])
    requires forall k :: h < k < |kept| ==> !HasIdentity(lib)(kept[k])
    requires forall k :: 0 <= k < |rest| ==> !rest[k].role.IsModelSide()
    ensures ReadRequest(lib, prefix + kept + rest).lastIdentity == Some(LastOf(lib, kept[h]))
    ensures ReadRequest(lib, prefix + kept + rest).trailing == ModelRoles(kept[h + 1..])
    ensures LastOf(lib, kept[h]) in ReadResponse(lib, reply).emittedIds
    ensures SaysBehind(ReadResponse(lib, reply).outputSkeleton, at[h], LastOf(lib, kept[h]), ModelRoles(kept[h + 1..]))
  {
    assert forall k :: 0 <= k < |kept| ==> kept[k] == reply[at[k]];
    ReplayFacts(lib, prefix, kept, rest, h);
    ReplySaysBehind(lib, kept, reply, at, h);
    ReplyEmits(lib, reply, at[h]);
  }

  /** An emitter of the last identity that said what trails it is the base
      unless it has to be told apart from another and is not. */
  lemma TheEmitterIsFound(xs: seq<Exchange>, byId: map<string, seq<nat>>, bases: seq<Base>, i: nat, e: nat,
                          last: string, held: nat)
    requires AreBases(xs, byId, bases) && LooksFor(xs, i, last) && e < |xs| && i != e && Emits(xs[e], last)
    requires SaysBehind(xs[e].response.value.facts.outputSkeleton, held, last, xs[i].request.value.facts.trailing)
    ensures bases[i] == Ok((e, LastOutput)) <==>
              forall x: nat :: x < |xs| && x != i && x != e && Emits(xs[x], last) ==>
                SawBefore(xs, i, last, e) && !SawBefore(xs, i, last, x)
  {
    BaseByLastIdentity(xs, byId, bases, i, last, e);
    if x: nat :| x < |xs| && x != i && x != e && Emits(xs[x], last) {
      assert if x < e then Emits(xs[x], last) && Emits(xs[e], last) else e < x;
      assert SeveralEmitted(xs, i, last);
    } else {
      assert AloneEmitted(xs, i, last, e);
    }
  }
}
