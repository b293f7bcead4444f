/** What a request's facts say of its entries. */
module FactLaws {
  import opened Collections
  import opened Facts

  /** Everything from `i` up to the new part is model output or tool results. */
  ghost predicate InLastRun(entries: seq<Entry>, i: nat, n: nat) {
    i < n <= |entries| && forall j :: i <= j < n ==> entries[j].role.IsModelSide() || entries[j].role.ToolResult?
  }

  /** An entry's ids: its item first, then a call's id; model text has its
      digest only when it has neither; nothing else has any. */
  lemma IdentitiesInOrder(lib: Library, e: Entry)
    ensures var ids, isCall := Identities(lib, e), e.role.ToolCall? && e.callId.Some?;
      && (!e.role.IsModelSide() ==> ids == [])
      && (e.role.IsModelSide() && e.itemId.Some? ==>
            && |ids| == (if isCall then 2 else 1) && ids[0] == ITEM_PREFIX + e.itemId.value
            && (isCall ==> ids[1] == e.callId.value))
      && (e.itemId.None? && isCall ==> ids == [e.callId.value])
      && (e.role.IsModelSide() && e.itemId.None? && !isCall ==>
            ids == if e.role.Speaks() && e.callId.None? && !IsBlank(lib, e.text)
                   then [TEXT_PREFIX + RoleName(e.role) + ":" + lib.digest(e.text)] else [])
  {
  }

  /** Where the part behind the last model-side entry begins. */
  function BehindLast(entries: seq<Entry>): (n: nat)
    ensures OutputEndsAt(entries, n)
  {
    assert forall i :: 0 <= i < |entries| ==> (ModelSide()(entries[i]) <==> entries[i].role.IsModelSide());
    match LastPosition(entries, ModelSide())
    case None => 0
    case Some(last) => last + 1
  }

  /** Model output ends right before `n`. */
  ghost predicate OutputEndsAt(entries: seq<Entry>, n: nat) {
    && n <= |entries|
    && (forall i :: n <= i < |entries| ==> !entries[i].role.IsModelSide())
    && (n > 0 ==> entries[n - 1].role.IsModelSide())
  }

  /** The new part begins behind the last model-side entry, as far as a
      32-bit index counts. */
  lemma {:induction false} NewPartFollowsModelOutput(lib: Library, entries: seq<Entry>)
    ensures ReadRequest(lib, entries).newFrom == SaturateI32(BehindLast(entries))
    ensures OutputEndsAt(entries, BehindLast(entries))
  {
  }

  lemma HeldFactsHaveIdentity(lib: Library, entries: seq<Entry>, last: nat, at: nat)
    requires at <= last < |entries|
    ensures var facts := HeldFacts(lib, entries, last, at);
      && facts.newFrom == SaturateI32(last + 1) && facts.resultIds == []
      && facts.lastIdentity == Some(LastOf(lib, entries[at]))
      && facts.trailing == ModelRoles(entries[at + 1..last + 1])
  {
  }

  /** Which way the facts are read. */
  lemma {:induction false} ReadsHeld(lib: Library, entries: seq<Entry>)
    ensures var last := LastPosition(entries, ModelSide());
      last.Some? ==>
        var held := LastHeld(entries, last.value, HasIdentity(lib));
        && (held.Some? ==> ReadRequest(lib, entries) == HeldFacts(lib, entries, last.value, held.value))
        && (held.None? ==>
              ReadRequest(lib, entries)
              == RequestFacts(SaturateI32(last.value + 1), None, None, [], [],
                              StartsTurn(entries[last.value + 1..])))
  {
  }

  /** Tool results answer calls only without model output. */
  lemma {:induction false} ResultsOnlyWithoutOutput(lib: Library, entries: seq<Entry>)
    ensures BehindLast(entries) > 0 ==> ReadRequest(lib, entries).resultIds == []
    ensures BehindLast(entries) == 0 ==>
              ReadRequest(lib, entries).resultIds == ResultIds(entries) && ReadRequest(lib, entries).lastIdentity.None?
  {
    var last := LastPosition(entries, ModelSide());
    if last.Some? {
      ReadsHeld(lib, entries);
      var held := LastHeld(entries, last.value, HasIdentity(lib));
      if held.Some? {
        HeldFactsHaveIdentity(lib, entries, last.value, held.value);
      }
    }
  }

  lemma StartsByItsNewPart(lib: Library, entries: seq<Entry>)
    ensures ReadRequest(lib, entries).startsTurn <==> StartsTurn(entries[BehindLast(entries)..])
  {
    assert entries[0..] == entries;
  }

  /** A new part opens a turn by user words without tool results. */
  lemma NewPartOpensTurn(lib: Library, entries: seq<Entry>)
    ensures ReadRequest(lib, entries).startsTurn <==>
              && (exists i :: BehindLast(entries) <= i < |entries| && entries[i].role.User? && entries[i].text != "")
              && forall i :: BehindLast(entries) <= i < |entries| ==> !entries[i].role.ToolResult?
  {
    StartsByItsNewPart(lib, entries);
    StartsInSlice(entries, BehindLast(entries));
    assert forall i :: 0 <= i < |entries| ==>
             (UserWords(entries[i]) <==> entries[i].role.User? && entries[i].text != "");
  }

  lemma StartsInSlice(entries: seq<Entry>, n: nat)
    requires n <= |entries|
    ensures StartsTurn(entries[n..]) <==>
              (exists i :: n <= i < |entries| && UserWords(entries[i]))
              && forall i :: n <= i < |entries| ==> !entries[i].role.ToolResult?
  {
    var part := entries[n..];
    if i :| n <= i < |entries| && UserWords(entries[i]) {
      assert part[i - n] == entries[i];
    }
    forall i | n <= i < |entries| ensures entries[i] == part[i - n] {
    }
  }

  /** `at` holds the last identity of the run. */
  ghost predicate HoldsLast(lib: Library, entries: seq<Entry>, at: nat, n: nat) {
    && InLastRun(entries, at, n)
    && Identities(lib, entries[at]) != []
    && forall i :: at < i < n ==> Identities(lib, entries[i]) == []
  }

  /** The last identity is the last one of the last entry in the last run that
      has any, and the roles of the model output behind that entry trail. */
  lemma LastIdentityIsOfTheLastRun(lib: Library, entries: seq<Entry>)
    ensures var facts, n := ReadRequest(lib, entries), BehindLast(entries);
      && (facts.lastIdentity.None? ==>
            && facts.trailing == [] && facts.previousIdentity == None
            && forall i :: 0 <= i < |entries| && InLastRun(entries, i, n) ==> Identities(lib, entries[i]) == [])
      && (facts.lastIdentity.Some? ==> exists at: nat ::
            && HoldsLast(lib, entries, at, n)
            && facts.lastIdentity == Some(LastOf(lib, entries[at]))
            && facts.trailing == ModelRoles(entries[at + 1..n]))
  {
    var last := LastPosition(entries, ModelSide());
    if last.Some? {
      LastRunHolds(lib, entries, last.value);
      ReadsHeld(lib, entries);
      var held := LastHeld(entries, last.value, HasIdentity(lib));
      if held.Some? {
        HeldFactsHaveIdentity(lib, entries, last.value, held.value);
      }
    }
  }

  /** What `LastHeld` finds is in the last run, and the last there that holds. */
  lemma LastHeldIsLast(entries: seq<Entry>, last: nat, holds: Entry -> bool)
    requires last < |entries| && entries[last].role.IsModelSide()
    ensures LastHeld(entries, last, holds).Some? ==>
              var at := LastHeld(entries, last, holds).value;
              && InLastRun(entries, at, last + 1) && holds(entries[at])
              && forall i :: at < i <= last ==> !holds(entries[i])
  {
    var start := RunStart(entries, last);
    var run := entries[start..last + 1];
    forall i | start <= i <= last ensures entries[i] == run[i - start] {
    }
  }

  lemma NoneHeld(entries: seq<Entry>, last: nat, holds: Entry -> bool, i: nat)
    requires last < |entries| && entries[last].role.IsModelSide()
    requires LastHeld(entries, last, holds).None? && InLastRun(entries, i, last + 1)
    ensures !holds(entries[i])
  {
    var start := RunStart(entries, last);
    var run := entries[start..last + 1];
    assert i >= start;
    assert !holds(run[i - start]);
  }

  lemma SomeHeld(lib: Library, entries: seq<Entry>, last: nat)
    requires last < |entries| && entries[last].role.IsModelSide()
    requires LastHeld(entries, last, HasIdentity(lib)).Some?
    ensures HoldsLast(lib, entries, LastHeld(entries, last, HasIdentity(lib)).value, last + 1)
  {
    LastHeldIsLast(entries, last, HasIdentity(lib));
    var at := LastHeld(entries, last, HasIdentity(lib)).value;
    forall i | at < i < last + 1 ensures Identities(lib, entries[i]) == [] {
      assert !HasIdentity(lib)(entries[i]);
    }
  }

  lemma LastRunHolds(lib: Library, entries: seq<Entry>, last: nat)
    requires last < |entries| && entries[last].role.IsModelSide()
    ensures var held := LastHeld(entries, last, HasIdentity(lib));
      && (held.Some? ==> HoldsLast(lib, entries, held.value, last + 1))
      && (held.None? ==>
            forall i :: 0 <= i < |entries| && InLastRun(entries, i, last + 1) ==> Identities(lib, entries[i]) == [])
  {
    if LastHeld(entries, last, HasIdentity(lib)).Some? {
      SomeHeld(lib, entries, last);
    } else {
      forall i | 0 <= i < |entries| && InLastRun(entries, i, last + 1) ensures Identities(lib, entries[i]) == [] {
        NoneHeld(entries, last, HasIdentity(lib), i);
      }
    }
  }

  /** Where `p` stands among `ids`, with nothing but `last` behind it. */
  ghost predicate StandsBefore(ids: seq<string>, k: nat, p: string, last: string) {
    k < |ids| && ids[k] == p && p != last && forall i :: k < i < |ids| ==> ids[i] == last
  }

  /** The previous identity is the one before the last one's repeats, and
      there is none exactly when all before it repeat the last one. */
  lemma PreviousIdentitySkipsRepeats(lib: Library, entries: seq<Entry>, last: string)
    ensures var ids, previous := AllIdentities(lib, entries), PreviousIdentity(lib, entries, last);
      && (previous.None? <==> forall i :: 0 <= i < |ids| ==> ids[i] == last)
      && (forall p :: previous == Some(p) <==> exists k :: StandsBefore(ids, k, p, last))
  {
    var ids := AllIdentities(lib, entries);
    var found := LastPosition(ids, OtherThan(last));
    if found.Some? {
      assert StandsBefore(ids, found.value, ids[found.value], last);
    }
    forall k: nat, p: string | StandsBefore(ids, k, p, last) ensures found == Some(k) && p == ids[k] {
      OneStandsBefore(ids, k, p, last);
    }
  }

  lemma OneStandsBefore(ids: seq<string>, k: nat, p: string, last: string)
    requires StandsBefore(ids, k, p, last)
    ensures LastPosition(ids, OtherThan(last)) == Some(k)
  {
    assert OtherThan(last)(ids[k]);
  }

  lemma HeldAt(lib: Library, entries: seq<Entry>, at: nat, last: nat)
    requires last < |entries| && entries[last].role.IsModelSide() && HoldsLast(lib, entries, at, last + 1)
    ensures LastHeld(entries, last, HasIdentity(lib)) == Some(at)
  {
    LastRunHolds(lib, entries, last);
    assert InLastRun(entries, at, last + 1);
  }

  /** A request's previous identity is read from what it holds up to its last one. */
  lemma PreviousIdentityIsRead(lib: Library, entries: seq<Entry>, at: nat, last: nat)
    requires LastPosition(entries, ModelSide()) == Some(last) && HoldsLast(lib, entries, at, last + 1)
    ensures ReadRequest(lib, entries).lastIdentity == Some(LastOf(lib, entries[at]))
    ensures ReadRequest(lib, entries).previousIdentity
            == PreviousIdentity(lib, entries[..at + 1], LastOf(lib, entries[at]))
  {
    HeldAt(lib, entries, at, last);
  }

  // ----- Entry by entry

  /** A model writes under three roles, and speaks under two of them. */
  lemma ModelRolesAre(role: Role)
    ensures role.IsModelSide() <==> role == Assistant || role == Reasoning || role == ToolCall
    ensures role.Speaks() <==> role == Assistant || role == Reasoning
  {
  }

  /** The new part begins within 32 bits. */
  lemma NewPartWithin32Bits(lib: Library, entries: seq<Entry>)
    ensures BehindLast(entries) <= 2147483647 ==> ReadRequest(lib, entries).newFrom == BehindLast(entries)
    ensures BehindLast(entries) > 2147483647 ==> ReadRequest(lib, entries).newFrom == 2147483647
  {
    NewPartFollowsModelOutput(lib, entries);
  }

  /** The identities of one entry: `item:` and its item, a call's id, or
      `text:`, its role and the digest of its words. */
  lemma IdentitiesAre(lib: Library, e: Entry)
    ensures !e.role.IsModelSide() ==> Identities(lib, e) == []
    ensures e.role.IsModelSide() && e.itemId.Some? && !(e.role.ToolCall? && e.callId.Some?) ==>
              Identities(lib, e) == ["item:" + e.itemId.value]
    ensures e.role.ToolCall? && e.itemId.Some? && e.callId.Some? ==>
              Identities(lib, e) == ["item:" + e.itemId.value, e.callId.value]
    ensures e.role.ToolCall? && e.itemId.None? ==> Identities(lib, e) == if e.callId.Some? then [e.callId.value] else []
    ensures (e.role.Assistant? || e.role.Reasoning?) && e.itemId.None? ==>
              Identities(lib, e)
              == if e.callId.None? && exists i :: 0 <= i < |e.text| && !lib.blank(e.text[i])
                 then ["text:" + (if e.role.Assistant? then "assistant" else "reasoning") + ":" + lib.digest(e.text)]
                 else []
  {
    IdentitiesInOrder(lib, e);
    if e.role.IsModelSide() && e.itemId.Some? && !(e.role.ToolCall? && e.callId.Some?) {
      assert Identities(lib, e) == [Identities(lib, e)[0]];
    }
    if e.role.ToolCall? && e.itemId.Some? && e.callId.Some? {
      assert Identities(lib, e) == [Identities(lib, e)[0], Identities(lib, e)[1]];
    }
  }

  /** Identities are listed entry by entry. */
  lemma IdentitiesInTurn(lib: Library, a: seq<Entry>, b: seq<Entry>, e: Entry)
    ensures AllIdentities(lib, a + b) == AllIdentities(lib, a) + AllIdentities(lib, b)
    ensures AllIdentities(lib, [e]) == Identities(lib, e)
  {
    var ofA := seq(|a|, i requires 0 <= i < |a| => Identities(lib, a[i]));
    var ofB := seq(|b|, i requires 0 <= i < |b| => Identities(lib, b[i]));
    var both := seq(|a + b|, i requires 0 <= i < |a + b| => Identities(lib, (a + b)[i]));
    assert both == ofA + ofB;
    FlattenAppend(ofA, ofB);
    var one := seq(1, i requires 0 <= i < 1 => Identities(lib, [e][i]));
    assert one == [Identities(lib, e)] && Flatten(one[..0]) == [];
  }

  /** The answered calls are listed entry by entry: those of tool results. */
  lemma {:induction false} ResultsInTurn(a: seq<Entry>, b: seq<Entry>, e: Entry)
    ensures ResultIds(a + b) == ResultIds(a) + ResultIds(b)
    ensures ResultIds([e]) == if e.role == Role.ToolResult && e.callId.Some? then [e.callId.value] else []
  {
    if b == [] {
      assert a + b == a;
    } else {
      assert (a + b)[..|a + b| - 1] == a + b[..|b| - 1];
      ResultsInTurn(a, b[..|b| - 1], e);
    }
    assert [e][..0] == [];
  }

  /** Roles are listed entry by entry: those of the model's. */
  lemma RolesInTurn(a: seq<Entry>, b: seq<Entry>, e: Entry)
    ensures ModelRoles(a + b) == ModelRoles(a) + ModelRoles(b)
    ensures ModelRoles([e]) ==
              if e.role == Assistant || e.role == Reasoning || e.role == ToolCall then [e.role] else []
  {
    ModelRolesAppend(a, b);
    assert [e][1..] == [];
  }

  /** A response is read entry by entry: what it emitted, and for every entry
      its role and what it is listed under: its call, else its item, else its words. */
  lemma ResponsesAreRead(lib: Library, entries: seq<Entry>)
    ensures ReadResponse(lib, entries).emittedIds == AllIdentities(lib, entries)
    ensures var skeleton := ReadResponse(lib, entries).outputSkeleton;
      |skeleton| == |entries| && forall k :: 0 <= k < |entries| ==>
        && skeleton[k].0 == entries[k].role
        && (entries[k].callId.Some? ==> skeleton[k].1 == entries[k].callId)
        && (entries[k].callId.None? ==>
              var ids := Identities(lib, entries[k]);
              skeleton[k].1 == if ids == [] then None else Some(ids[0]))
  {
    forall k | 0 <= k < |entries| && entries[k].callId.None?
      ensures Key(lib, entries[k]) == var ids := Identities(lib, entries[k]); if ids == [] then None else Some(ids[0])
    {
      KeyWithoutCall(lib, entries[k]);
    }
  }

  lemma KeyWithoutCall(lib: Library, e: Entry)
    requires e.callId.None?
    ensures Key(lib, e) == var ids := Identities(lib, e); if ids == [] then None else Some(ids[0])
  {
  }
}
