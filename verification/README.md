# Verified model of the session, search and outbox logic

This Dafny project models three parts of the backend and proves what they are
for, over every input, every run of calls or every interleaving of steps.

* **Session structure.** Events become exchanges (`Exchanges`), each exchange
  is led back to at most one base, whose output its request builds on
  (`Facts`, `Bases`), then a turn (`Turns`), a segment (`Segmentation`) and a
  place in the turn view (`Timeline`, `StartOrder`, `StartRecursion`).
  `Streams` runs all passes. The laws stand beside the passes and speak of
  events, exchanges and bases alone: `Grouping`, `ExchangeLaws`, `FactLaws`,
  `BaseLaws`, `SecondPass`, `BaseRules`, `BaseOutcomes`, `Replay`, `TurnLaws`,
  `TurnCounts`, `SegmentLaws`, `SideLaws`, `StreamLaws`, `StreamFields`,
  `StartLaws`, `DepthFirst`, `TimelineLaws`, `NodeLaws`, `NodeOrder`;
  `BaseExamples` and `TurnExamples` hold sessions that show where the code
  departs from what is said of it.
* **Search.** `Matching`, `Patterns`, `Trigrams` and `Fragments` are the literal
  matcher, down to UTF-8 bytes (section 3 of RFC 3629) and UTF-16 code units
  (section 2.1 of RFC 2781) in `Encodings`. `SearchTables`, `SearchStore`,
  `SearchReads` and `SessionReads` are the index; `SearchRuns` shows that after
  any run of ingests search finds what folding every piece of every event would
  find, and names the segment each hit's event stands in; `SearchLaws` says what
  a hit, a filter and a batch are.
* **Algorithms and a protocol.** `DayOffsets` rebuilds a time zone's offsets by
  stepping and bisecting; `Preview` and `PreviewQuery` choose the entries of a
  conversation, and `QueryLaws` says which queries are read; `Outbox`,
  `OutboxWorker`, `OutboxProtocol`, `OutboxIterations`, `OutboxRuns` and
  `LeaseLaws` are the leased queue that feeds the session index, with crashing
  and late workers and with writes that land after their worker is gone.

`Collections`, `Intervals`, `Sorting` and `Gatherings` hold what the others
share: ranges, a stable sort, grouping by key, and sums and flattenings that do
not depend on order.

Keys, times and digests are integers or opaque functions, texts are sequences
of characters, and an error return is a `Result` or an `Option`. What comes from
a library or from outside is a parameter: the text digest (which tells texts
apart), the Unicode lowercase table, the characters that count as blank, a time
zone's offset at every second, the keys made up for new rows, the clock, and
which bulk items the index accepts. The full-text index is known only by its
contract: it returns rows it has, and every row whose folded text holds all the
trigrams asked for.

## What the proofs found

* `ResultsOnly` takes the one other exchange that emitted *any* of the answered
  calls; calls nobody emitted are ignored. The comment on the rule says it
  emitted *the* calls. `BaseLaws.ResultsOnlyAnswersEveryCall` gives the exact
  condition under which the two readings agree, and
  `BaseExamples.AnAnsweredCallMayBeUnknown` a session where they do not.
* The turn count read from the events alone (`counted_turns`, which the tests
  compare with the derived count) can be greater or fewer than the number of
  turns.
  * When events declare turns, the exchanges take the values of the events that
    name them: the first request, or the first response of an exchange without
    one. If any value is taken, the count is never fewer, and the two agree
    exactly when every declared value is taken; `TurnExamples.AResponseMayDeclareAnother`
    has one too many. If none is taken, the turns are those of a session without
    declarations while the count is that of the values
    (`TurnCounts.DeclaredTurnsAreCounted`): the two may agree
    (`TurnExamples.ADeclarationMayBeDropped`), or the count may be fewer
    (`TurnExamples.ADroppedDeclarationHidesTurns`).
  * Without declarations, `TurnCounts.UndeclaredTurnsAreCounted` gives the
    difference of the two for every session, and the exact condition under which
    they agree. A turn-starting request behind another of its exchange is counted
    and opens nothing (`TurnExamples.ASecondStartIsCounted`), two openers may
    share an id (`TurnExamples.TurnsMayShareAnId`), and requests observed at one
    time may change places with their exchanges, so that an opener is missed
    (`TurnExamples.TurnsMayOutnumberTheCount`).
* `new_from` stops at the greatest 32-bit index. In a request with model output
  that far out a hit before that output already counts as new;
  `SearchTables.NewMeansBehindModelOutput` says exactly which hits do.
* A failure reported after the lease ran out overwrites the row's count, which
  can fall. `OutboxRuns.LateReportLowersCount` gives a run;
  `OutboxRuns.FailureRaisesByOne` says exactly when a report raises the count by
  one, and that whoever still holds the lease always does.
* A preview without runs over no entries holds one empty chunk, not none.

## Model

| member | source | states |
|---|---|---|
| FactLaws.NewPartFollowsModelOutput | crates/abyss-backend/src/usage/streams/facts.rs:187-225 | `new_from` is just behind the last model-side entry, 0 without one, and stops at the greatest 32-bit index |
| FactLaws.LastIdentityIsOfTheLastRun | crates/abyss-backend/src/usage/streams/facts.rs:200-222 | the last identity is the last one of the last entry that has any in the run of model output and tool results before the new part; the roles of model output behind it trail; without one nothing trails |
| FactLaws.PreviousIdentitySkipsRepeats | crates/abyss-backend/src/usage/streams/facts.rs:209-215 | the previous identity stands before nothing but repeats of the last one, and is missing exactly when all before repeat it |
| FactLaws.PreviousIdentityIsRead | crates/abyss-backend/src/usage/streams/facts.rs:205-215 | it is read from the entries up to the one that holds the last identity |
| FactLaws.ResultsOnlyWithoutOutput | crates/abyss-backend/src/usage/streams/facts.rs:189-198 | result ids are kept exactly when the request has no model output |
| FactLaws.NewPartOpensTurn | crates/abyss-backend/src/usage/streams/facts.rs:237-242 | a request starts a turn exactly when its new part has user words and no tool result |
| FactLaws.IdentitiesInOrder | crates/abyss-backend/src/usage/streams/facts.rs:49-55 | a model-side entry's identities are its item, then its call's id; model text has its digest's only without either; nothing else has any |
| FactLaws.IdentitiesAre | crates/abyss-backend/src/usage/streams/facts.rs:49-55 | what an entry is known by, spelled: `item:` and its item, a call's id, `text:` with its role and the digest of words that are not blank |
| FactLaws.ModelRolesAre | crates/abyss-backend/src/usage/streams/facts.rs:10-25 | the model writes as assistant, reasoning and tool call, and speaks as the first two |
| FactLaws.NewPartWithin32Bits | crates/abyss-backend/src/usage/streams/facts.rs:187-198 | the new part begins at its place as far as 2147483647, and there beyond |
| FactLaws.IdentitiesInTurn | crates/abyss-backend/src/usage/streams/facts.rs:96-99 | identities are listed entry by entry |
| FactLaws.ResultsInTurn | crates/abyss-backend/src/usage/streams/facts.rs:87-94 | the answered calls are those of tool results, entry by entry |
| FactLaws.RolesInTurn | crates/abyss-backend/src/usage/streams/facts.rs:216-222 | the roles listed are the model's, entry by entry |
| FactLaws.ResponsesAreRead | crates/abyss-backend/src/usage/streams/facts.rs:244-265 | a response lists all identities it emitted, and for every entry its role and its call, else its item, else its words |
| Facts.RunStart | crates/abyss-backend/src/usage/streams/facts.rs:200-203 | the last run holds only model output and tool results and could not reach further back |
| Exchanges.OpenExchange.constructor | crates/abyss-backend/src/usage/streams/base.rs:146-157 | a new exchange is named by its response, else its event, and holds nothing yet |
| Exchanges.OpenExchange.Declare | crates/abyss-backend/src/usage/streams/base.rs:106-110 | takes over the three declared ids and nothing else |
| Exchanges.OpenExchange.Add | crates/abyss-backend/src/usage/streams/base.rs:77-104 | every event is kept and may move the end; a side, the time and the declared ids only as the first of its side |
| Exchanges.GroupExchanges | crates/abyss-backend/src/usage/streams/base.rs:130-164 | the in-place grouping with its table of response ids yields the exchanges the laws below are about |
| Exchanges.SummaryAppend | crates/abyss-backend/src/usage/streams/base.rs:77-104 | adding events one at a time gives what an exchange's events say together: first of each side, request's ids when there is one, latest time |
| Exchanges.ClassesAreClasses | crates/abyss-backend/src/usage/streams/base.rs:133-161 | every exchange holds all events of its response id, in input order, or one event without any |
| Grouping.GroupingConservesEvents | crates/abyss-backend/src/usage/streams/base.rs:130-164 | the exchanges hold each event key as often as the input does, and are sorted by time |
| Grouping.ExchangesSummarizeClasses | crates/abyss-backend/src/usage/streams/base.rs:75-164 | every exchange is the summary of one class of events |
| Grouping.EachEventHasOneExchange | crates/abyss-backend/src/usage/streams/base.rs:133-161 | with distinct keys every event is in exactly one exchange |
| Grouping.SharedExchangeMeansSharedResponse | crates/abyss-backend/src/usage/streams/base.rs:134-160 | two events share an exchange exactly when they carry the same response id |
| Grouping.GroupedResponseIdsDiffer | crates/abyss-backend/src/usage/streams/base.rs:138-145 | no two exchanges have the same response id |
| ExchangeLaws.ExchangesTell | crates/abyss-backend/src/usage/streams/base.rs:75-164 | every field of an exchange by its events: the first request and response, the request's time and declarations, the response's declarations without one, its name and its latest time |
| ExchangeLaws.ClassesHold | crates/abyss-backend/src/usage/streams/base.rs:133-161 | an exchange's events are one without a response id, or all that carry one |
| ExchangeLaws.ExchangesInOrder | crates/abyss-backend/src/usage/streams/base.rs:162 | exchanges are listed by time |
| Bases.Emitters | crates/abyss-backend/src/usage/streams/base.rs:167-181 | each identity lists exactly the exchanges whose response emitted it, in order, once each |
| Bases.ScanEmitters | crates/abyss-backend/src/usage/streams/base.rs:184-202 | the scan finds the one other emitter, tells none from many |
| Bases.GreedyIsExact | crates/abyss-backend/src/usage/streams/base.rs:215-221 | the greedy scan over an output succeeds exactly when some embedding of the trailing roles exists |
| BaseLaws.SaidAfterIsExact | crates/abyss-backend/src/usage/streams/base.rs:207-222 | an output says what trails exactly when the roles behind its last entry with the key hold them in order |
| BaseLaws.SpokenRolesInTurn | crates/abyss-backend/src/usage/streams/base.rs:207-222 | the roles an output spoke are listed entry by entry |
| BaseLaws.SpokenRolesOfOne | crates/abyss-backend/src/usage/streams/base.rs:207-222 | those of one entry: its role when the model has it |
| BaseLaws.LastOutputIsSound | crates/abyss-backend/src/usage/streams/base.rs:271-304 | a base by last output is another exchange that emitted the last identity and said everything trailing it |
| BaseLaws.LastOutputIsExact | crates/abyss-backend/src/usage/streams/base.rs:271-304 | with one other emitter, that emitter is the base exactly when it said everything trailing |
| BaseLaws.ResultsOnlyIsSound | crates/abyss-backend/src/usage/streams/base.rs:275-284 | a base by results is the only other exchange that emitted any answered call, of a request without model output |
| BaseLaws.ResultsOnlyAnswersEveryCall | crates/abyss-backend/src/usage/streams/base.rs:25-27 | it emitted every answered call exactly when somebody else emitted each |
| BaseExamples.AnAnsweredCallMayBeUnknown | crates/abyss-backend/src/usage/streams/base.rs:25-27 | a call and a request with the answers to it and to another: the base by results emitted only one of the answered calls |
| BaseLaws.SecondPassOnlyTellsApart | crates/abyss-backend/src/usage/streams/base.rs:228-246 | the second pass changes only results with several emitters |
| SecondPass.BaseByLastIdentity | crates/abyss-backend/src/usage/streams/base.rs:228-358 | with a last identity and no known pointer, an exchange is the base exactly when it said what trails and either alone emitted the identity, or of several that did alone saw what comes before: it is, or is led by the first pass to, the sole emitter of the previous identity, or it spoke the identity first without a context when there is no previous one |
| SecondPass.WhyNoneIsToldApart | crates/abyss-backend/src/usage/streams/base.rs:306-358 | among several emitters the ids are unknown exactly when what comes before is known and nobody saw it, and only text is left exactly when the one that saw it said something else |
| BaseOutcomes.PointerIsExact | crates/abyss-backend/src/usage/streams/base.rs:263-269 | a base by pointer is exactly the last exchange with the response the request names, whatever else the request holds |
| BaseOutcomes.LastOutputIsExactly | crates/abyss-backend/src/usage/streams/base.rs:228-358 | a base by last output, of either pass, is exactly the exchange that said what trails and alone emitted the last identity, or of several alone saw what comes before |
| BaseOutcomes.ResultsOnlyIsExact | crates/abyss-backend/src/usage/streams/base.rs:275-284 | a base by results is exactly the one other exchange that emitted any call a request answers that has no model output and points nowhere |
| BaseOutcomes.NothingToLookFor | crates/abyss-backend/src/usage/streams/base.rs:253-284 | there is no request exactly when that is the reason, and no output exactly when the request points nowhere, has none and answers nothing |
| BaseOutcomes.TextOnlyIsExact | crates/abyss-backend/src/usage/streams/base.rs:228-358 | only text is left exactly when the output has no identity, or the exchange to continue said something else |
| BaseOutcomes.UnknownIdsAreExact | crates/abyss-backend/src/usage/streams/base.rs:184-358 | ids are unknown exactly when nobody emitted the last identity or any answered call, or nobody of several saw what is known to come before |
| BaseOutcomes.MultipleResponsesAreExact | crates/abyss-backend/src/usage/streams/base.rs:184-358 | several responses are the reason exactly when several emitted answered calls, or several emitted the last identity and what comes before is not one exchange's or several saw it |
| BaseOutcomes.Outcome | crates/abyss-backend/src/usage/streams/base.rs:253-284 | every request is of one of six kinds, and the rule or reason is one of that kind's |
| BaseLaws.FoundBasesAreWithin | crates/abyss-backend/src/usage/streams/base.rs:228-284 | every base is an exchange of the session |
| BaseLaws.BasesDoNotDependOnOrder | crates/abyss-backend/src/usage/streams/base.rs:167-358 | with distinct response ids, permuting the exchanges permutes bases, rules and reasons alike |
| Replay.AReplayedReplyIsTheBase | crates/abyss-backend/src/usage/streams/base.rs:253-358 | a request that resends part of a reply, an identity among it, has that reply as its base exactly when no third exchange emitted the last identity kept, or only the reply's exchange saw what comes before |
| Turns.Assign | crates/abyss-backend/src/usage/streams/turns.rs:31-63 | an exchange's turn is settled by the end of its chain of strictly earlier bases: what it opens, else the latest turn begun before it |
| Turns.EveryExchangeHasAChain | crates/abyss-backend/src/usage/streams/turns.rs:50-59 | every exchange has such a chain |
| Turns.TurnIdsAreDistinct | crates/abyss-backend/src/usage/streams/turns.rs:51-54 | no turn is listed twice |
| Turns.TurnsByFirstAppearance | crates/abyss-backend/src/usage/streams/turns.rs:14-16 | turns are numbered by first appearance |
| Turns.DeclaredTurnCount | crates/abyss-backend/src/usage/streams/turns.rs:35-54 | with declarations there are as many turns as distinct values exchanges take |
| Turns.UndeclaredTurnCount | crates/abyss-backend/src/usage/streams/turns.rs:41-54 | without them as many as exchanges that open one, less those whose id an earlier opener has; as many exactly when all ids differ |
| TurnLaws.TurnsAreBegun | crates/abyss-backend/src/usage/streams/turns.rs:35-54 | the turns are exactly what exchanges begin: what they declare where any does, else the exchange's own id for a start that is the first or continues a context |
| TurnLaws.BeginnersHaveTheirTurn | crates/abyss-backend/src/usage/streams/turns.rs:50-56 | whoever begins a turn has it |
| TurnLaws.BasesShareTheirTurn | crates/abyss-backend/src/usage/streams/turns.rs:57-59 | whoever begins none has the turn of its earlier base |
| TurnLaws.OthersJoinTheLatest | crates/abyss-backend/src/usage/streams/turns.rs:57-59 | without one it has the latest turn begun before it, and none exactly when none was |
| TurnCounts.ValuesAreTaken | crates/abyss-backend/src/usage/streams/base.rs:77-110 | the values exchanges take are those declared by the events that name them, the first request or else the first response |
| TurnCounts.DeclaredTurnsAreCounted | crates/abyss-backend/src/usage/streams.rs:704-731 | when events declare turns the count is that of their values: at least the turns, and as many exactly when every value is taken, if any is; if none is taken, the turns are the openers of a session without declarations, each id once |
| TurnCounts.UndeclaredTurnsAreCounted | crates/abyss-backend/src/usage/streams.rs:704-733 | without declarations, count and turns differ by the starts behind another request of their exchange, the openers under a known id, and a first start without a context that only events or only exchanges have; they agree exactly when nothing of that is left over |
| TurnCounts.LeadingRequestsAreCounted | crates/abyss-backend/src/usage/streams.rs:704-733 | in session order, with requests before their responses and one turn-starting request an exchange, they agree exactly when the exchanges that open one have different ids; the count is never fewer |
| TurnExamples.AResponseMayDeclareAnother | crates/abyss-backend/src/usage/streams.rs:704-731 | a request and its response that declare different turns: two values, one turn |
| TurnExamples.ADeclarationMayBeDropped | crates/abyss-backend/src/usage/streams.rs:704-731 | a response declares a turn and its request none: no value is taken, one value is counted, and the request opens one turn |
| TurnExamples.ADroppedDeclarationHidesTurns | crates/abyss-backend/src/usage/streams.rs:704-731 | with one more request that opens a turn: one value, two turns |
| TurnExamples.TurnsMayShareAnId | crates/abyss-backend/src/usage/streams.rs:704-733 | two openers under one id: two requests counted, one turn |
| TurnExamples.ASecondStartIsCounted | crates/abyss-backend/src/usage/streams.rs:704-733 | two turn-starting requests of one exchange: two counted, one turn |
| TurnExamples.TurnsMayOutnumberTheCount | crates/abyss-backend/src/usage/streams.rs:704-733 | two requests at one time, the second with a response from before: both open a turn, one is counted |
| Segmentation.CountChildren | crates/abyss-backend/src/usage/streams/segmentation.rs:79-86 | counts each base's children, and flags who is continued |
| Segmentation.CountContinuedChildren | crates/abyss-backend/src/usage/streams/segmentation.rs:87-92 | counts each base's continued children |
| Segmentation.AssignGroups | crates/abyss-backend/src/usage/streams/segmentation.rs:93-111 | each exchange's group is its declared sub-agent, or the line it continues |
| Segmentation.DetectSides | crates/abyss-backend/src/usage/streams/segmentation.rs:113-133 | finds the side exchanges, told by bases in `SideLaws.SidesOnlyVisit`, and a group of nothing else keeps them as its main line |
| Segmentation.Place | crates/abyss-backend/src/usage/streams/segmentation.rs:137-163 | one exchange joins its key's main segment or opens a segment of its own |
| Segmentation.Cut | crates/abyss-backend/src/usage/streams/segmentation.rs:64-169 | segments partition the exchanges, ordered by head; main segments hold their whole group, side segments one exchange; each hangs where its head's earlier base is |
| SideLaws.SidesOnlyVisit | crates/abyss-backend/src/usage/streams/segmentation.rs:113-133 | an exchange stands, alone, in a side segment exactly when nobody has it as base, it has none itself while somebody of its turn and group is continued, or its base has a continued child, and some exchange of its turn and group is not of that kind |
| SideLaws.SegmentsAreGroups | crates/abyss-backend/src/usage/streams/segmentation.rs:125-164 | two exchanges share a segment exactly when they are of one turn and group and neither stands on the side |
| SideLaws.GroupsAreDeclared | crates/abyss-backend/src/usage/streams/segmentation.rs:95-97 | in a session that declares anything, the group is the declared sub-agent |
| SideLaws.GroupsAreLines | crates/abyss-backend/src/usage/streams/segmentation.rs:98-111 | else an exchange is of its earlier base's group, unless others that are continued compete with it for that base; then it begins one |
| SideLaws.KindsFollowBases | crates/abyss-backend/src/usage/streams/segmentation.rs:144-155 | a segment hangs exactly where its head's earlier base is, as a branch when another exchange has that base too |
| SegmentLaws.MembersShareTheirKey | crates/abyss-backend/src/usage/streams/segmentation.rs:112-164 | a segment's exchanges share turn, group and side |
| SegmentLaws.EveryKeyHasOneMainSegment | crates/abyss-backend/src/usage/streams/segmentation.rs:125-164 | every turn and group that occurs has exactly one main segment, with all its exchanges that are no side exchange |
| SegmentLaws.ParentsFormAForest | crates/abyss-backend/src/usage/streams/segmentation.rs:144-155 | a parent is an earlier segment that holds the head's base, and only roots have none |
| SegmentLaws.EverySegmentHasARoot | crates/abyss-backend/src/usage/streams/segmentation.rs:144-155 | following parents ends at a root |
| SegmentLaws.SegmentsAreAForest | crates/abyss-backend/src/usage/streams/segmentation.rs:64-169 | every segmentation is such a forest |
| SegmentLaws.LinesFollowBases | crates/abyss-backend/src/usage/streams/segmentation.rs:98-111 | in a line, every member but its head has its earlier base in the same line |
| SegmentLaws.ContinuedMembersFormOneChain | crates/abyss-backend/src/usage/streams/segmentation.rs:87-111 | the continued members of a line form one chain of bases from its head |
| Streams.Derive | crates/abyss-backend/src/usage/streams.rs:159-205 | all passes in order, with the maps from ids and event keys, and every segment described |
| Streams.IndexExchanges | crates/abyss-backend/src/usage/streams.rs:176-179 | an id leads to the first exchange that has it |
| Streams.IndexEvents | crates/abyss-backend/src/usage/streams.rs:180-188 | an event key leads to the last exchange that holds it |
| StreamLaws.EventsAreLocated | crates/abyss-backend/src/usage/streams.rs:236-245 | every event of the session, and nothing else, is located in the one exchange and segment that hold it, with the segment's own turn |
| StreamLaws.FoundTogether | crates/abyss-backend/src/usage/streams.rs:180-188 | two events are located in one exchange exactly when they answer one response |
| StreamLaws.EventSegmentIsItsPosition | crates/abyss-backend/src/usage/streams.rs:262-265 | the segment found for an event is the one its position names, and there is one exactly when there is a position |
| StreamLaws.RunsAreSuffixes | crates/abyss-backend/src/usage/streams.rs:221-233 | a run is the rest of its segment from the asked exchange on; an unknown id gives none |
| StreamLaws.SegmentsShareTheirTurn | crates/abyss-backend/src/usage/streams.rs:295-302 | an exchange's turn is that of its segment's head |
| StreamLaws.SegmentsStartInOrder | crates/abyss-backend/src/usage/streams.rs:308-340 | a segment starts with its head, and segments are listed by start |
| StreamLaws.SegmentsForkFromTheirParents | crates/abyss-backend/src/usage/streams.rs:317-324 | a segment with a parent names its head's base and the head of the earlier segment that holds it |
| StreamLaws.SegmentCountsAddUp | crates/abyss-backend/src/usage/streams.rs:333 | the segments' exchange counts add up to all exchanges |
| StreamFields.SegmentsTell | crates/abyss-backend/src/usage/streams.rs:306-340 | every field of a segment by its members: named, numbered and declared as the first, dated by the earliest and latest |
| StreamFields.RunsTell | crates/abyss-backend/src/usage/streams.rs:221-233 | every field of a run's exchanges: the sides' keys, where the new part begins, whether a turn starts, the base's id, segment and rule, or the reason that there is none |
| StreamFields.CountsAreKept | crates/abyss-backend/src/usage/streams.rs:159-205 | the summary counts exchanges, turns and segments |
| StartRecursion.OpenChildrenSuffice | crates/abyss-backend/src/usage/streams/timeline.rs:232-237 | leaving placed children off the stack does not change the order |
| StartRecursion.PushingVisits | crates/abyss-backend/src/usage/streams/timeline.rs:224-238 | placing an executor and pushing its open children in reverse leads where the recursion does: the executor, everything below it, then the rest |
| StartOrder.Walk | crates/abyss-backend/src/usage/streams/timeline.rs:223-239 | the stack ends for every declaration, and adds exactly what the depth-first recursion from its start visits; down from the top that is the preorder of what hangs below |
| StartOrder.VisitTops | crates/abyss-backend/src/usage/streams/timeline.rs:219-240 | the first pass lists the preorder of everything below a top-level executor |
| StartOrder.OrderByStart | crates/abyss-backend/src/usage/streams/timeline.rs:214-240 | every executor once, in exactly the recursion's order: the preorder below the top, then each circle depth first from its earliest member |
| StartOrder.TakeSlots | crates/abyss-backend/src/usage/streams/timeline.rs:241-244 | each executor is taken from its slot exactly once |
| StartOrder.StartedFirst | crates/abyss-backend/src/usage/streams/timeline.rs:206-245 | the executors themselves in that order |
| DepthFirst.NextIsDetermined | crates/abyss-backend/src/usage/streams/timeline.rs:214-240 | at every place stands the first child not listed yet of the last executor that has one; when none has any, the first left at the top, and behind these the first of all |
| StartOrder.ParentOf | crates/abyss-backend/src/usage/streams/timeline.rs:207-213 | the parent is the first executor with the declared id; there is none exactly when none is declared, none has it, or that first one is the executor itself |
| StartOrder.StartOrderIsAPermutation | crates/abyss-backend/src/usage/streams/timeline.rs:241-245 | no executor is lost or repeated |
| Timeline.Executors | crates/abyss-backend/src/usage/streams/timeline.rs:155-200 | groups one turn's segments by executor and orders them by who started whom; who that is, is `NodeLaws.ExecutorsTell` |
| Timeline.SessionTurns | crates/abyss-backend/src/usage/streams/timeline.rs:76-93 | one node per turn, each showing its executors; what it shows is `NodeLaws.NodesTell` and `NodeLaws.ExecutorsTell` |
| TimelineLaws.ExecutorsConserve | crates/abyss-backend/src/usage/streams/timeline.rs:155-200 | a turn's executors hold each of its segments once |
| TimelineLaws.TurnViewConserves | crates/abyss-backend/src/usage/streams/timeline.rs:76-200 | every segment is in exactly one node and executor, as main or as side |
| TimelineLaws.NodeCountsItsExecutors | crates/abyss-backend/src/usage/streams/timeline.rs:125-140 | a node counts the exchanges its executors count |
| TimelineLaws.NodeCountsAddUp | crates/abyss-backend/src/usage/streams/timeline.rs:256-261 | the nodes count every exchange of the session once |
| TimelineLaws.EveryExecutorHasOneMain | crates/abyss-backend/src/usage/streams/timeline.rs:178-199 | every executor has exactly one main head, and its side segments are side segments |
| TimelineLaws.GroupsByStart | crates/abyss-backend/src/usage/streams/timeline.rs:164-166 | an executor's segments are by start, ties by place, its first the earliest |
| TimelineLaws.MainComesFirst | crates/abyss-backend/src/usage/streams/timeline.rs:167-174 | before ordering by who started whom, the main agent and lines come before sub-agents, each by start |
| TimelineLaws.NodesAreNumbered | crates/abyss-backend/src/usage/streams/timeline.rs:76-93 | one node without a turn when some segment has none, then the turns 1 to the summary's count |
| NodeLaws.ExecutorsTell | crates/abyss-backend/src/usage/streams/timeline.rs:155-200 | an executor shows all segments of one turn and group by their heads, with their count and start; its sub-agent is what its exchanges declare, and who started it what the first exchange of its earliest segment declares, nobody without a sub-agent |
| NodeLaws.NodesTell | crates/abyss-backend/src/usage/streams/timeline.rs:95-126 | a node shows the id its turn's segments share, their earliest start and latest end, and counts their exchanges |
| NodeLaws.NewContexts | crates/abyss-backend/src/usage/streams/timeline.rs:247-254 | a node begins a new context exactly when the first exchange of the main line shown first has no base |
| NodeOrder.StartersStandBefore | crates/abyss-backend/src/usage/streams/timeline.rs:202-245 | an executor whose declared parent is another of its node that hangs from the top stands behind it |
| NodeOrder.NodesListDepthFirst | crates/abyss-backend/src/usage/streams/timeline.rs:202-245 | at every place of a node stands one started by the last executor before it that has somebody left; when none has, one at the top, or behind all of these one that starts no later than all that follow |
| NodeOrder.SiblingsStandByStart | crates/abyss-backend/src/usage/streams/timeline.rs:231-236 | sub-agents one executor before them started stand by start |
| NodeOrder.TopsStandByStart | crates/abyss-backend/src/usage/streams/timeline.rs:167-245 | at the top, the main agent and lines stand before sub-agents, each kind by start |
| Encodings.Utf8Injective | crates/abyss-backend/src/search/matching/pattern.rs:50-52 | bytes tell characters apart, as section 3 of RFC 3629 encodes them |
| Encodings.PrefixBytesArePrefixCharacters | crates/abyss-backend/src/search/matching/pattern.rs:63 | a text's bytes begin another's only when its characters do |
| Encodings.OccursInBoth | crates/abyss-backend/src/search/matching/pattern.rs:63-69 | a query stands at a character exactly when its bytes do |
| Encodings.NothingInside | crates/abyss-backend/src/search/matching/pattern.rs:63-69 | no query is found inside a character |
| Encodings.Utf8Lengths | crates/abyss-backend/src/search/matching/pattern.rs:63 | a character takes the fewest bytes, as the table of section 3 of RFC 3629 has it |
| Encodings.Utf16Pairs | crates/abyss-backend/src/search/matching/pattern.rs:77-87 | a character beyond 0x10000 is a lead and a trail unit that give it back, as section 2.1 of RFC 2781 encodes it; others are one unit |
| Matching.Fold | crates/abyss-backend/src/search/matching/fold.rs:20-25 | folds character by character on either path, and keeps the character count |
| Matching.FoldIsNaive | crates/abyss-backend/src/search/matching/fold.rs:6-25 | the ASCII path changes nothing |
| Sorting.SortStable | crates/abyss-backend/src/usage/streams/base.rs:162 | sorting by key keeps ties in the order they came |
| Matching.LeftmostIsLeftmost | crates/abyss-backend/src/search/matching/pattern.rs:63 | the scan picks occurrences that do not overlap and leaves none that overlaps no earlier one |
| Matching.LeftmostIsUnique | crates/abyss-backend/src/search/matching/pattern.rs:54-58 | there is only one such choice |
| Matching.BytesFindCharacters | crates/abyss-backend/src/search/matching/pattern.rs:63-71 | scanning bytes finds the byte positions of what scanning characters finds |
| Patterns.Occurrences | crates/abyss-backend/src/search/matching/pattern.rs:58-73 | the counters give exactly the leftmost character ranges of the folded query in the folded text |
| Patterns.OccurrencesWhenMatching | crates/abyss-backend/src/search/matching/pattern.rs:50-73 | there are occurrences exactly when the text matches |
| Patterns.MatchesCharacters | crates/abyss-backend/src/search/matching/pattern.rs:50-52 | a text matches exactly when the folded query stands somewhere in its folded characters |
| Patterns.OccurrencesAreRanges | crates/abyss-backend/src/search/matching/pattern.rs:54-73 | occurrences are sorted, separate ranges of the text |
| Patterns.OccurrencesFold | crates/abyss-backend/src/search/matching/pattern.rs:54-57 | each occurrence holds characters of the original that fold to the query |
| Patterns.CharacterOffsets | crates/abyss-backend/src/search/matching/pattern.rs:91-112 | the one pass gives each position's sum of widths, past the end that of the whole text |
| Patterns.Utf16Ranges | crates/abyss-backend/src/search/matching/pattern.rs:79-87 | each range as offsets in UTF-16 code units |
| Patterns.RangeCoversItsUnits | crates/abyss-backend/src/search/matching/pattern.rs:77-87 | those code units are exactly the encoded range's |
| Trigrams.TermsAreTrigrams | crates/abyss-backend/src/search/matching/pattern.rs:36-43 | the terms are the query's windows without NUL, once each |
| Trigrams.HoldersHoldEveryTerm | crates/abyss-backend/src/search/matching/pattern.rs:26-34 | a text that holds the query holds every term |
| Trigrams.ExpressionAsksForTerms | crates/abyss-backend/src/search/matching/pattern.rs:35-47 | the quoted expression reads back as exactly the terms, and is missing exactly when no window is free of NUL |
| SearchLaws.CandidatesAre | crates/abyss-backend/src/storage/sqlite/search/mod.rs:178-213 | the texts verified are the owner's, within a session those its events refer to, and those the index returned whenever the query has three characters in a row without NUL |
| SearchLaws.TermsAreRunsOfThree | crates/abyss-backend/src/search/matching/pattern.rs:36-43 | the terms are the query's runs of three characters without NUL |
| Fragments.WindowHoldsOccurrence | crates/abyss-backend/src/search/matching/fragment.rs:64-74 | the window holds the first occurrence, is as long as the text allows up to 240 or the occurrence, and centers it when both sides are cut |
| Fragments.Fragment | crates/abyss-backend/src/search/matching/fragment.rs:22-60 | without ellipses the segments are the window's text, highlighted exactly where an occurrence covers it, with an ellipsis on exactly the cut sides |
| Fragments.CutsAreShown | crates/abyss-backend/src/search/matching/fragment.rs:22-60 | a side that is cut, and no other, shows an ellipsis, never highlighted; an uncut text is shown as it is |
| SearchTables.PiecesAreThePieces | crates/abyss-backend/src/search/matching/pieces.rs:45-65 | the pieces are every nonempty name and text of the entries |
| SearchLaws.PiecesAreValues | crates/abyss-backend/src/search/matching/pieces.rs:45-65 | a piece is the nonempty name, or the nonempty text, of its entry |
| SearchTables.OneRowPerText | crates/abyss-backend/src/storage/sqlite/search/index.rs:54-80 | equal texts of an owner are one row |
| SearchTables.CandidatesMissNothing | crates/abyss-backend/src/storage/sqlite/search/mod.rs:178-213 | no text that holds the query is lost by the trigrams |
| SearchTables.NewMeansBehindModelOutput | crates/abyss-backend/src/search/matching/ranking.rs:22-28 | a request's hit is new exactly when it lies behind all model output, or at the greatest 32-bit index or beyond |
| SearchLaws.ResponsesAreNew | crates/abyss-backend/src/search/matching/ranking.rs:22-28 | every hit in a response is new |
| SearchStore.Store.TextId | crates/abyss-backend/src/storage/sqlite/search/index.rs:56-80 | finds or stores the text with its folded form, leaving other texts alone |
| SearchStore.Store.IndexEvent | crates/abyss-backend/src/storage/sqlite/search/index.rs:29-52 | every piece of the event has its reference, unless one lies beyond a 32-bit index |
| SearchStore.Store.Ingest | crates/abyss-backend/src/storage/sqlite/repository.rs:103-198 | a known event changes nothing; a new one is stored and indexed, keeping the tables consistent |
| SearchStore.Store.IngestBatch | crates/abyss-backend/src/storage/sqlite/repository.rs:61-101 | a batch is taken in whole or changes nothing |
| SearchLaws.BatchesTakeWhatIsNew | crates/abyss-backend/src/storage/sqlite/repository.rs:61-110 | a batch is refused exactly when an event it brings anew has a value beyond entry 2147483647; else the events are those held and those the batch brings anew |
| SearchReads.Verify | crates/abyss-backend/src/storage/sqlite/search/mod.rs:62-69 | keeps exactly the candidates that hold the query |
| SearchReads.SessionSearch | crates/abyss-backend/src/storage/sqlite/search/mod.rs:60-71 | the hits are exactly the pieces a naive search finds, within the filters, each described by its event |
| SearchLaws.NaiveHitsAre | crates/abyss-backend/src/storage/sqlite/search/mod.rs:60-71 | a hit is a nonempty name or text of one of the owner's events in whose folded form the folded query stands, character for character |
| SearchLaws.FiltersPass | crates/abyss-backend/src/storage/sqlite/search/mod.rs:260-278 | an event passes exactly when it is not before `from`, before `to`, named by every list that is not empty, and of the type asked for |
| Sorting.ListSorted | crates/abyss-backend/src/storage/sqlite/search/mod.rs:360 | the members of a set, each once, in order |
| SessionReads.SessionEvents | crates/abyss-backend/src/storage/sqlite/repository.rs:561-599 | every stored event of the session once, by time, at one time requests before responses |
| SessionReads.SessionEventsInOrder | crates/abyss-backend/src/storage/sqlite/repository.rs:561-599 | events are read field by field as stored, the earlier observed first, then requests before responses, then the smaller key |
| SessionReads.FillSegments | crates/abyss-backend/src/storage/sqlite/search/mod.rs:133-138 | every hit gets the segment that holds its own event's exchange, in the structure derived from the session's events; nothing else of a hit changes |
| SessionReads.SearchInSession | crates/abyss-backend/src/storage/sqlite/search/mod.rs:98-143 | the hits of the session, each with its occurrences, whether it is new and the segment of its own event; the smaller time comes first, then the smaller event key, the smaller entry index, the name before the text, and what the cap of 100000 leaves out comes behind every hit shown; an unknown session is not found |
| SessionReads.ResponseShowsTheFirst | crates/abyss-backend/src/storage/sqlite/search/mod.rs:340-385 | that order, and that nothing left out belongs before a hit shown, follow for every response |
| SessionReads.RangesHoldOccurrences | crates/abyss-backend/src/search/matching/pattern.rs:75-87 | each range of a hit is where the folded query stands, in UTF-16 code units |
| SessionReads.Respond | crates/abyss-backend/src/search/matching/in_session.rs:15-41 | the cap and the flag agree with all hits, every hit returned tells what is stored of it, and the texts are those of the returned hits |
| SessionReads.SortedListIsUnique | crates/abyss-backend/src/storage/sqlite/search/mod.rs:360 | the order of hits leaves one list |
| SearchRuns.IngestAll | crates/abyss-backend/src/storage/sqlite/repository.rs:61-101 | any run of batches leaves consistent tables with exactly the events taken in |
| SearchRuns.SearchAfter | crates/abyss-backend/src/storage/sqlite/search/tests.rs:361-392 | after any run of ingests, replays and refusals included, search equals the naive search |
| SearchRuns.SearchInSessionAfter | crates/abyss-backend/src/storage/sqlite/search/mod.rs:98-143 | after any run of ingests, a search within a session lists its naive hits by time, event key, entry index and name before text, up to the cap and nothing out of turn, each in the segment its own event stands in |
| DayOffsets.Bisect | crates/abyss-backend/src/storage/sqlite/day_offsets.rs:71-80 | narrows to the exact second the offset changes |
| DayOffsets.UtcOffsetChanges | crates/abyss-backend/src/storage/sqlite/day_offsets.rs:58-89 | starts rise, neighbours differ, and the change in force has the zone's offset at every second |
| DayOffsets.DayOffsets | crates/abyss-backend/src/storage/sqlite/day_offsets.rs:28-52 | for every event the pair with the greatest start not behind it carries the offset of the event's own second |
| DayOffsets.PickedInForce | crates/abyss-backend/src/storage/sqlite/repository.rs:1008-1015 | the pair a query picks is that of the change in force, and no other |
| DayOffsets.EveryZoneIsCountable | crates/abyss-backend/src/storage/sqlite/day_offsets.rs:91-97 | the calendar ends before the last second whose microseconds 64 bits count, so no zone changes there and no start stops short |
| DayOffsets.SecondsAndMicros | crates/abyss-backend/src/storage/sqlite/day_offsets.rs:28-45 | microseconds are cut to whole seconds downward, and seconds become microseconds as far as 64 bits count |
| Outbox.DelaysGrowWithinBounds | crates/abyss-backend/src/storage/postgres/search/outbox.rs:339-342 | delays never shrink, double until the eighth failure, and stay at most 300 seconds |
| LeaseLaws.DelaysInSeconds | crates/abyss-backend/src/storage/postgres/search/outbox.rs:339-342 | 2, 4, 8, 16, 32, 64, 128 seconds, then 256 |
| Outbox.Database.Ingest | crates/abyss-backend/src/storage/postgres/repository.rs:866-889 | an event and its row are stored together; a known event changes nothing |
| Outbox.Database.AdvanceBackfillBatch | crates/abyss-backend/src/storage/postgres/search/outbox.rs:72-115 | queues the first due events, and is complete exactly when none is left after a short batch; it may fail with nothing done, or behind a short batch already queued |
| Outbox.Database.ClaimAndPrepare | crates/abyss-backend/src/storage/postgres/search/outbox.rs:118-189 | leases the first rows by id, as many as the batch takes, of exactly those that are not locked, not finished, due, and held by nobody since more than 120 seconds, and prepares each from its event; it may fail with nothing done, or behind the leases |
| LeaseLaws.PreparedOperation | crates/abyss-backend/src/storage/postgres/search/outbox.rs:141-189 | a row asks for its event as it is stored now, or for its removal when it is gone or the row says so |
| Outbox.Database.RecordResults | crates/abyss-backend/src/storage/postgres/search/outbox.rs:192-251 | advances each row by its own outcome, in order, up to the row that fails |
| Outbox.BackfillProgress | crates/abyss-backend/src/storage/postgres/search/outbox.rs:72-115 | each batch shrinks what is due by as much as it may |
| OutboxWorker.Indexer.Apply | crates/abyss-backend/src/storage/postgres/search/worker.rs:130-167 | every task has its own outcome, all failed without an answer; the index stays ready exactly when it answered and nothing failed |
| OutboxWorker.Indexer.Backfill | crates/abyss-backend/src/storage/postgres/search/worker.rs:198-204 | queues one batch unless complete, takes over whether it completed, and goes on exactly when the call did not fail; a batch whose completeness query fails stays queued |
| OutboxWorker.Indexer.Work | crates/abyss-backend/src/storage/postgres/search/worker.rs:104-167 | claims the first rows that may be taken, writes them and records each with its own outcome, up to where a call fails: with the rows leased, or with some of them recorded; goes on at once exactly after a full batch |
| OutboxWorker.Indexer.ProcessIteration | crates/abyss-backend/src/storage/postgres/search/worker.rs:83-116 | backfill, claim, apply and record in order, wherever a call fails, before or behind what it has written: the tables left, readiness, backfill flag, and another iteration at once exactly after a full batch |
| OutboxWorker.IterationIsARun | crates/abyss-backend/src/storage/postgres/search/worker.rs:83-167 | every iteration, whichever call fails and however far it came, is a run of the protocol's steps from an idle worker over the tables found to an idle one over the tables left |
| OutboxProtocol.StepKeepsSafe | crates/abyss-backend/src/storage/postgres/search/outbox.rs:72-251 | every step of ingest, backfill, claim, write, record, crash and late write keeps the protocol's invariant |
| OutboxProtocol.LandKeepsSafe | crates/abyss-backend/src/storage/postgres/search/worker.rs:144-160 | a write of any operation ever prepared may land at any time, its worker crashed or failed, without breaking the invariant |
| OutboxRuns.ProcessedMeansIndexed | crates/abyss-backend/src/storage/postgres/search/outbox.rs:199-208 | in every run, a processed row means the index holds its event's projection |
| OutboxRuns.FinishedIsNeverClaimed | crates/abyss-backend/src/storage/postgres/search/outbox.rs:125-140 | a row processed or dead-lettered is never claimed again |
| LeaseLaws.TakenRowsAreDue | crates/abyss-backend/src/storage/postgres/search/outbox.rs:118-140 | in every run a row taken is due, not processed and not dead |
| LeaseLaws.LeasesExclude | crates/abyss-backend/src/storage/postgres/search/outbox.rs:118-140 | in every run a row taken twice with no report of it in between is taken more than 120 seconds apart |
| LeaseLaws.ReportsReachTheirRows | crates/abyss-backend/src/storage/postgres/search/outbox.rs:192-251 | reports of different rows reach each its own row, and no other row changes |
| LeaseLaws.ReportsSettle | crates/abyss-backend/src/storage/postgres/search/outbox.rs:192-251 | what a report makes of its row, in every field: processed now; put off by its delay; or given up with the tenth failure; the lease ends |
| OutboxRuns.EveryEventIsQueuedOrDue | crates/abyss-backend/src/storage/postgres/search/outbox.rs:77-104 | every event has a row, or was there before the run and is still due |
| LeaseLaws.IngestQueues | crates/abyss-backend/src/storage/postgres/repository.rs:866-889 | an unknown event is stored beside one new row, due at once, of no failures and held by nobody; a known one changes nothing |
| LeaseLaws.DueAreQueued | crates/abyss-backend/src/storage/postgres/search/outbox.rs:77-104 | queueing a due event adds one such row |
| LeaseLaws.DueHaveNoRow | crates/abyss-backend/src/storage/postgres/search/outbox.rs:79-104 | the due events are exactly those no row asks to bring in |
| LeaseLaws.WritesLand | crates/abyss-backend/src/storage/postgres/search/worker.rs:144-160 | a write puts the projection under its event, or removes it |
| OutboxRuns.CompleteStaysComplete | crates/abyss-backend/src/storage/postgres/search/worker.rs:198-204 | once a worker saw the backfill complete, every event has a row from then on |
| OutboxRuns.FailureRaisesByOne | crates/abyss-backend/src/storage/postgres/search/outbox.rs:209-246 | a failure raises the count by one exactly when the report knew it, as the lease's holder does; it schedules the delay or dead-letters at ten |
| OutboxRuns.CountsAreFailures | crates/abyss-backend/src/storage/postgres/search/outbox.rs:209-246 | when only holders report, the count is the number of failures, at most ten, and the tenth is the dead letter |
| OutboxRuns.LateReportLowersCount | crates/abyss-backend/src/storage/postgres/search/outbox.rs:209-246 | a run in which a late report lowers the count |
| Preview.Ranges | crates/abyss-backend/src/usage/preview.rs:55-76 | sorted ranges with gaps between them that cover exactly the entries asked for |
| Preview.Merge | crates/abyss-backend/src/usage/preview.rs:67-75 | merging sorted ranges keeps what they cover and leaves gaps between them |
| Preview.PreviewOf | crates/abyss-backend/src/usage/preview.rs:130-169 | shown and omitted entries make up the whole, none is shown twice, and the omitted bytes are those of the entries no chunk shows |
| PreviewQuery.RunReadsBack | crates/abyss-backend/src/usage/preview.rs:79-97 | every run reads back as written |
| PreviewQuery.ReadRunsAreRuns | crates/abyss-backend/src/usage/preview.rs:93-96 | nothing backwards and no number beyond 64 bits is read |
| QueryLaws.NumbersAreRead | crates/abyss-backend/src/usage/preview.rs:93-96 | a number is read exactly from digits, a plus allowed before them, up to 18446744073709551615 |
| QueryLaws.DigitsCount | crates/abyss-backend/src/usage/preview.rs:93-96 | digits count in tens |
| QueryLaws.RunsAreRead | crates/abyss-backend/src/usage/preview.rs:79-97 | a run is read exactly from a dash and a count, two numbers in order with the first dash between, or one number; what is refused is named |
| PreviewQuery.QueryReadsBack | crates/abyss-backend/src/usage/preview.rs:42-52 | every list of runs with commas between reads back as written |
| QueryLaws.PartsAreJoined | crates/abyss-backend/src/usage/preview.rs:42-52 | a query is taken apart at every comma and nowhere else |
| QueryLaws.TrimsBlanks | crates/abyss-backend/src/usage/preview.rs:42-52 | a part loses the blanks at its ends, all of them and nothing more |
| QueryLaws.QueriesAreRead | crates/abyss-backend/src/usage/preview.rs:42-52 | a query is read exactly when each trimmed part is a run, and as those runs in order; a refusal names the first part that is none |

## Left out

- Texts for display: labels, titles and preview texts are cut by length in the source and not modelled.
- Exchange counts and turn numbers saturate at a machine word in the source; here they are unbounded.
- OutboxWorker.Indexer.ProcessIteration: does not model the polling loop, the waits and the shutdown signal around it.
- Outbox.Database.ClaimAndPrepare: row locks of concurrent transactions are a set of rows to skip; error texts and worker names beyond a number are not kept.
- SearchReads.SessionSearch: the hits are a table by reference; ranking, paging and response details on top of them are not modelled.
- SearchStore.Store.Ingest: devices, sessions, attachments and diagnostic captures written in the same transaction are not modelled.
- SearchTables.NewMeansBehindModelOutput: an event's stored `new_from` is an input of ingest; the lemma is about one read from its entries.
- Matching.Fold: the Unicode lowercase table is a parameter, and no property of it is used but for ASCII in `Matching.FoldIsNaive`.
- DayOffsets.DayOffsets: as `DayOffsets.UtcOffsetChanges`; zone names and the JSON the pairs are written as are not modelled.
- DayOffsets.UtcOffsetChanges: takes the source's word that no zone changes its offset twice within a day.
- Deleting events, and outbox rows that ask for deletion: no code of the program makes either; the branch that prepares a deletion is modelled, and the protocol proves it is never reached.
- HTTP routes, configuration, the Elasticsearch client, SQL text, JSON, migrations and connection pools.
- Fairness of workers: nothing is claimed about when a row is processed, only about what holds whenever it is.
