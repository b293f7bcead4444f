/** Requests and responses reduced to facts: identities, trailing roles, skeletons. */
module Facts {
  import opened Collections

  /** The role of an entry; roles the streams do not tell apart keep their name. */
  datatype Role = Assistant | Reasoning | ToolCall | ToolResult | User | Other(name: string)
  {
    /** The three roles a model writes under. */
    predicate IsModelSide() {
      Assistant? || Reasoning? || ToolCall?
    }

    /** Roles whose text can be an identity. */
    predicate Speaks() {
      Assistant? || Reasoning?
    }
  }

  datatype Entry = Entry(role: Role, text: string, callId: Option<string>, itemId: Option<string>)

  /** What the facts take from elsewhere: the hex digest of a text and the
      characters that count as blank. */
  datatype Library = Library(digest: string -> string, blank: char -> bool)

  const ITEM_PREFIX := "item:"
  const TEXT_PREFIX := "text:"
  const MAX_I32: int := 0x7fff_ffff

  function RoleName(role: Role): string {
    match role
    case Assistant => "assistant"
    case Reasoning => "reasoning"
    case ToolCall => "tool_call"
    case ToolResult => "tool_result"
    case User => "user"
    case Other(name) => name
  }

  predicate IsBlank(lib: Library, text: string) {
    forall i :: 0 <= i < |text| ==> lib.blank(text[i])
  }

  /** A model-side entry's item id behind its prefix. */
  function Item(e: Entry): Option<string> {
    if e.itemId.Some? && e.role.IsModelSide() then Some(ITEM_PREFIX + e.itemId.value) else None
  }

  /** Spoken text without an id is told by its digest, unless it is blank. */
  function TextIdentity(lib: Library, e: Entry): Option<string> {
    if e.role.Speaks() && e.callId.None? && e.itemId.None? && !IsBlank(lib, e.text)
    then Some(TEXT_PREFIX + RoleName(e.role) + ":" + lib.digest(e.text))
    else None
  }

  function AsSeq<T>(o: Option<T>): seq<T> {
    if o.Some? then [o.value] else []
  }

  /** The ids of an entry: its item, then a call's call id; else its text identity. */
  function Identities(lib: Library, e: Entry): (ids: seq<string>)
    ensures ids != [] ==> e.role.IsModelSide()
  {
    var call := if e.role.ToolCall? then e.callId else None;
    AsSeq(Item(e)) + AsSeq(call) + AsSeq(TextIdentity(lib, e))
  }

  /** What a skeleton lists the entry under: the first of three that it has. */
  function Key(lib: Library, e: Entry): Option<string> {
    if e.callId.Some? then e.callId
    else if Item(e).Some? then Item(e)
    else TextIdentity(lib, e)
  }

  /** Identities of all entries, in order. */
  function AllIdentities(lib: Library, entries: seq<Entry>): seq<string> {
    Flatten(seq(|entries|, i requires 0 <= i < |entries| => Identities(lib, entries[i])))
  }

  type SkeletonEntry = (Role, Option<string>)

  function Skeleton(lib: Library, entries: seq<Entry>): (s: seq<SkeletonEntry>) {
    seq(|entries|, i requires 0 <= i < |entries| => (entries[i].role, Key(lib, entries[i])))
  }

  /** What the entries answer: the ids their tool results carry. */
  function ResultIds(entries: seq<Entry>): seq<string> {
    if entries == [] then []
    else
      var last := entries[|entries| - 1];
      ResultIds(entries[..|entries| - 1])
      + (if last.role.ToolResult? then AsSeq(last.callId) else [])
  }

  /** Roles of the model-side entries, in order. */
  function ModelRoles(entries: seq<Entry>): seq<Role> {
    if entries == [] then []
    else
      (if entries[0].role.IsModelSide() then [entries[0].role] else []) + ModelRoles(entries[1..])
  }

  predicate UserWords(e: Entry) {
    e.role.User? && e.text != ""
  }

  /** Somebody asks, and no tool answers, in the new part. */
  predicate StartsTurn(newPart: seq<Entry>) {
    && (exists i :: 0 <= i < |newPart| && UserWords(newPart[i]))
    && (forall i :: 0 <= i < |newPart| ==> !newPart[i].role.ToolResult?)
  }

  datatype RequestFacts = RequestFacts(
    newFrom: int,
    lastIdentity: Option<string>,
    previousIdentity: Option<string>,
    trailing: seq<Role>,
    resultIds: seq<string>,
    startsTurn: bool)

  datatype ResponseFacts = ResponseFacts(emittedIds: seq<string>, outputSkeleton: seq<SkeletonEntry>)

  function SaturateI32(n: nat): int {
    if n <= MAX_I32 then n else MAX_I32
  }

  function ModelSide(): Entry -> bool {
    (e: Entry) => e.role.IsModelSide()
  }

  function OutsideRun(): Entry -> bool {
    (e: Entry) => !e.role.IsModelSide() && !e.role.ToolResult?
  }

  function HasIdentity(lib: Library): Entry -> bool {
    (e: Entry) => Identities(lib, e) != []
  }

  function OtherThan(id: string): string -> bool {
    (other: string) => other != id
  }

  /** Where the last run begins: after the last entry before `last` that is
      neither model output nor a tool result. */
  function RunStart(entries: seq<Entry>, last: nat): (start: nat)
    requires last < |entries|
    ensures start <= last
    ensures forall i :: start <= i < last ==> entries[i].role.IsModelSide() || entries[i].role.ToolResult?
    ensures start > 0 ==> !entries[start - 1].role.IsModelSide() && !entries[start - 1].role.ToolResult?
  {
    match LastPosition(entries[..last], OutsideRun())
    case None => 0
    case Some(other) => other + 1
  }

  /** The last entry of the last run that `holds`. */
  function LastHeld(entries: seq<Entry>, last: nat, holds: Entry -> bool): (at: Option<nat>)
    requires last < |entries|
    ensures at.Some? ==> at.value <= last
  {
    var start := RunStart(entries, last);
    match LastPosition(entries[start..last + 1], holds)
    case None => None
    case Some(held) => Some(start + held)
  }

  /** The last identity of an entry that has one. */
  function LastOf(lib: Library, e: Entry): string {
    var ids := Identities(lib, e);
    if ids == [] then "" else ids[|ids| - 1]
  }

  /** The identity before `last` among the entries' identities, repeats skipped. */
  function PreviousIdentity(lib: Library, entries: seq<Entry>, last: string): Option<string> {
    var before := AllIdentities(lib, entries);
    match LastPosition(before, OtherThan(last))
    case None => None
    case Some(at) => Some(before[at])
  }

  function HeldFacts(lib: Library, entries: seq<Entry>, last: nat, at: nat): RequestFacts
    requires at <= last < |entries|
  {
    RequestFacts(
      SaturateI32(last + 1),
      Some(LastOf(lib, entries[at])),
      PreviousIdentity(lib, entries[..at + 1], LastOf(lib, entries[at])),
      ModelRoles(entries[at + 1..last + 1]),
      [],
      StartsTurn(entries[last + 1..]))
  }

  /** The facts of a request event whose complete conversation has `entries`;
      a conversation that is missing or incomplete has none. */
  function ReadRequest(lib: Library, entries: seq<Entry>): (facts: RequestFacts) {
    match LastPosition(entries, ModelSide())
    case None => RequestFacts(0, None, None, [], ResultIds(entries), StartsTurn(entries))
    case Some(last) =>
      match LastHeld(entries, last, HasIdentity(lib))
      case None => RequestFacts(SaturateI32(last + 1), None, None, [], [], StartsTurn(entries[last + 1..]))
      case Some(at) => HeldFacts(lib, entries, last, at)
  }

  /** The facts of a response event. */
  function ReadResponse(lib: Library, entries: seq<Entry>): (facts: ResponseFacts) {
    ResponseFacts(AllIdentities(lib, entries), Skeleton(lib, entries))
  }

  lemma ModelRolesFirst(e: Entry, rest: seq<Entry>)
    ensures ModelRoles([e] + rest) == (if e.role.IsModelSide() then [e.role] else []) + ModelRoles(rest)
  {
    assert ([e] + rest)[1..] == rest;
  }

  lemma {:induction false} ModelRolesAppend(a: seq<Entry>, b: seq<Entry>)
    ensures ModelRoles(a + b) == ModelRoles(a) + ModelRoles(b)
  {
    if a == [] {
      assert a + b == b;
    } else {
      var e, rest := a[0], a[1..];
      assert a == [e] + rest && a + b == [e] + (rest + b);
      ModelRolesAppend(rest, b);
      ModelRolesFirst(e, rest);
      ModelRolesFirst(e, rest + b);
    }
  }

  lemma {:induction false} NoModelRoles(a: seq<Entry>)
    requires forall i :: 0 <= i < |a| ==> !a[i].role.IsModelSide()
    ensures ModelRoles(a) == []
  {
    if a != [] { NoModelRoles(a[1..]); }
  }

  /** The roles of model output behind `at` do not depend on where a slice ends. */
  lemma RolesBehind(entries: seq<Entry>, at: nat, last: nat)
    requires at <= last < |entries|
    requires forall i :: last < i < |entries| ==> !entries[i].role.IsModelSide()
    ensures ModelRoles(entries[at + 1..last + 1]) == ModelRoles(entries[at + 1..])
  {
    ModelRolesAppend(entries[at + 1..last + 1], entries[last + 1..]);
    NoModelRoles(entries[last + 1..]);
    assert entries[at + 1..] == entries[at + 1..last + 1] + entries[last + 1..];
  }

  /** The last run of a request reaches back past `at`, and `at` is the last
      entry of it that `holds`. */
  lemma LastRun(entries: seq<Entry>, at: nat, last: nat, holds: Entry -> bool)
    requires at <= last < |entries|
    requires holds(entries[at])
    requires forall i :: at < i < |entries| ==> !holds(entries[i])
    requires forall i :: at <= i <= last ==> entries[i].role.IsModelSide() || entries[i].role.ToolResult?
    ensures LastHeld(entries, last, holds) == Some(at)
  {
    var start := RunStart(entries, last);
    var run := entries[start..last + 1];
    LastPositionIs(run, holds, at - start);
  }

  /** `at` is the last entry that `holds`, `last` is the last model-side entry,
      and nothing but model-side entries and tool results stands between. */
  ghost predicate HeldInLastRun(holds: Entry -> bool, entries: seq<Entry>, at: nat, last: nat) {
    && at <= last < |entries| && entries[last].role.IsModelSide()
    && (forall i :: last < i < |entries| ==> !entries[i].role.IsModelSide())
    && holds(entries[at])
    && (forall i :: at < i < |entries| ==> !holds(entries[i]))
    && forall i :: at <= i <= last ==> entries[i].role.IsModelSide() || entries[i].role.ToolResult?
  }

  /** Then the facts of the request are read from `at`: its last identity, and
      the roles of all model output behind it. */
  lemma LastIdentityIsHeldInTheLastRun(lib: Library, entries: seq<Entry>, at: nat, last: nat)
    requires HeldInLastRun(HasIdentity(lib), entries, at, last)
    ensures ReadRequest(lib, entries).lastIdentity == Some(LastOf(lib, entries[at]))
    ensures ReadRequest(lib, entries).trailing == ModelRoles(entries[at + 1..])
  {
    var holds := HasIdentity(lib);
    LastRun(entries, at, last, holds);
    LastPositionIs(entries, ModelSide(), last);
    assert ReadRequest(lib, entries) == HeldFacts(lib, entries, last, at);
    RolesBehind(entries, at, last);
  }
}
