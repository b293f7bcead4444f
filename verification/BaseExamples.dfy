/** A base by results that did not emit every answered call. */
module BaseExamples {
  import opened BaseLaws
  import opened Bases
  import opened Collections
  import opened Exchanges
  import opened Facts

  function Calling(call: string): Entry {
    Entry(ToolCall, "", Some(call), None)
  }

  function Answering(call: string): Entry {
    Entry(Role.ToolResult, "", Some(call), None)
  }

  /** A response with one call. */
  function Reply(lib: Library, call: string): Exchange {
    Exchange("reply", Some("reply"), [1], 1, 1, None, Some(Side(1, None, ReadResponse(lib, [Calling(call)]))),
             None, None, None)
  }

  /** A request with the answers to two calls. */
  function Answer(lib: Library, call: string, other: string): Exchange {
    Exchange("answer", Some("answer"), [2], 2, 2,
             Some(Side(2, None, ReadRequest(lib, [Answering(call), Answering(other)]))), None, None, None, None)
  }

  lemma ReplyReads(lib: Library, call: string)
    ensures ReadResponse(lib, [Calling(call)]).emittedIds == [call]
  {
    var e := Calling(call);
    assert Identities(lib, e) == [call];
    var all := seq(1, i requires 0 <= i < 1 => Identities(lib, [e][i]));
    assert all == [[call]] && Flatten(all[..0]) == [];
  }

  lemma AnswerReads(lib: Library, call: string, other: string)
    ensures ReadRequest(lib, [Answering(call), Answering(other)])
            == RequestFacts(0, None, None, [], [call, other], false)
  {
    var a, b := Answering(call), Answering(other);
    var entries := [a, b];
    assert LastPosition(entries, ModelSide()).None?;
    assert entries[..1] == [a] && [a][..0] == [];
    assert ResultIds([a]) == [call];
    assert entries[0].role.ToolResult?;
  }

  lemma OneReplyEmits(lib: Library, call: string, other: string, id: string)
    ensures EmittersOf([Reply(lib, call), Answer(lib, call, other)], 2, id) == if id == call then [0] else []
  {
    var xs := [Reply(lib, call), Answer(lib, call, other)];
    ReplyReads(lib, call);
    assert EmittersOf(xs, 0, id) == [];
    assert EmittersOf(xs, 1, id) == if id == call then [0] else [];
  }

  lemma OneReplyIsListed(lib: Library, call: string, other: string)
    ensures IsEmitters([Reply(lib, call), Answer(lib, call, other)], map[call := [0]])
  {
    forall id ensures At(map[call := [0]], id) == EmittersOf([Reply(lib, call), Answer(lib, call, other)], 2, id) {
      OneReplyEmits(lib, call, other, id);
    }
  }

  lemma OneReplyIsFound(call: string, other: string)
    requires call != other
    ensures OnlyEmitter([call, other], 1, map[call := [0]]) == Ok(0)
  {
    var byId: map<string, seq<nat>> := map[call := [0]];
    assert [call, other][0] == call && 0 in At(byId, call);
    assert OtherEmitters([call, other], 1, byId) == {0};
  }

  /** A session in which a request answers two calls, and its base emitted one
      of them alone. */
  lemma AnAnsweredCallMayBeUnknown(lib: Library, call: string, other: string)
    returns (xs: seq<Exchange>, bases: seq<Base>)
    requires call != other
    ensures xs == [Reply(lib, call), Answer(lib, call, other)] && AreBases(xs, map[call := [0]], bases)
    ensures bases[1] == Ok((0, ResultsOnly))
    ensures xs[1].request.value.facts.resultIds == [call, other] && !Emits(xs[0], other)
  {
    xs := [Reply(lib, call), Answer(lib, call, other)];
    var byId: map<string, seq<nat>> := map[call := [0]];
    ReplyReads(lib, call);
    AnswerReads(lib, call, other);
    OneReplyIsListed(lib, call, other);
    EmittersAreWithin(xs, byId);
    bases := FindBases(xs, ByResponseId(xs), byId);
    OneReplyIsFound(call, other);
    FirstBaseAt(xs, byId, 1);
    SettlingOnlyTellsApart(xs, byId, 1, FirstBases(xs, ByResponseId(xs), byId));
  }
}
