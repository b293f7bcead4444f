/** The search index as ingest writes it and search reads it. */
module SearchStore {
  import opened Collections
  import opened Facts
  import opened Matching
  import opened SearchTables

  /** References written per insert statement. */
  const REFS_PER_INSERT: nat := 1000

  datatype Incoming = Incoming(pk: int, event: StoredEvent)

  ghost predicate Known(events: map<int, StoredEvent>, eventId: string) {
    exists pk :: pk in events && events[pk].eventId == eventId
  }

  /** Whether a piece lies at an entry too far for a 32-bit index. */
  ghost predicate TooManyEntries(entries: seq<TextEntry>) {
    exists i, f :: i > MAX_I32 as nat && PieceAt(entries, i, f).Some?
  }

  /** The events after one more is taken in: one already known changes
      nothing, one with too many entries is refused. */
  ghost function TakenIn(events: map<int, StoredEvent>, e: Incoming): Option<map<int, StoredEvent>> {
    if Known(events, e.event.eventId) then Some(events)
    else if TooManyEntries(e.event.entries) then None
    else Some(events[e.pk := e.event])
  }

  /** The events after a batch, in order; one refusal refuses it all. */
  ghost function BatchTakenIn(events: map<int, StoredEvent>, batch: seq<Incoming>): Option<map<int, StoredEvent>> {
    if batch == [] then Some(events)
    else
      match BatchTakenIn(events, batch[..|batch| - 1])
      case None => None
      case Some(before) => TakenIn(before, batch[|batch| - 1])
  }

  // ----- Steps on the tables' values

  lemma NewTextKeepsTexts(out: Outside, t: Tables, row: TextRow)
    requires TextsOk(out, t) && TrigramsOk(out, t) && row.digest == out.digest(row.text)
    requires forall id :: id in t.texts ==> !(t.texts[id].owner == row.owner && t.texts[id].digest == row.digest)
    ensures var more := t.(texts := t.texts[t.nextId := row],
                           trigrams := t.trigrams[t.nextId := Fold(out.lower, row.text)], nextId := t.nextId + 1);
            TextsOk(out, more) && TrigramsOk(out, more)
  {
  }

  /** More texts leave references as they are. */
  lemma MoreTextsKeepRefs(t: Tables, more: Tables)
    requires RefsOk(t) && more.refs == t.refs && more.events == t.events
    requires forall id :: id in t.texts ==> id in more.texts && more.texts[id] == t.texts[id]
    ensures RefsOk(more)
  {
    forall r | r in more.refs ensures RefHolds(more, r) {
      assert RefHolds(t, r);
      assert more.refs[r] == t.refs[r] && t.refs[r] in t.texts;
    }
  }

  type Pending = (Ref, int)

  /** References to be written, as a table. */
  function AsMap(pending: seq<Pending>): (m: map<Ref, int>) {
    if pending == [] then map[]
    else AsMap(pending[..|pending| - 1])[pending[|pending| - 1].0 := pending[|pending| - 1].1]
  }

  lemma {:induction false} AsMapAppend(a: seq<Pending>, b: seq<Pending>)
    ensures AsMap(a + b) == AsMap(a) + AsMap(b)
  {
    if b == [] {
      assert a + b == a;
    } else {
      assert (a + b)[..|a + b| - 1] == a + b[..|b| - 1];
      AsMapAppend(a, b[..|b| - 1]);
    }
  }

  lemma AsMapUpTo(pending: seq<Pending>, n: nat, next: nat)
    requires n <= next <= |pending|
    ensures AsMap(pending[..next]) == AsMap(pending[..n]) + AsMap(pending[n..next])
  {
    AsMapAppend(pending[..n], pending[n..next]);
    assert pending[..next] == pending[..n] + pending[n..next];
  }

  /** Each reference written so far leads to the text of its piece. */
  ghost predicate Points(t: Tables, pk: int, owner: string, pieces: seq<Piece>, pending: seq<Pending>) {
    && |pending| <= |pieces|
    && forall k :: 0 <= k < |pending| ==> PointsTo(t, pk, owner, pieces[k], pending[k])
  }

  ghost predicate PointsTo(t: Tables, pk: int, owner: string, piece: Piece, p: Pending) {
    && p.0 == Ref(pk, piece.entryIndex, piece.field)
    && p.1 in t.texts && t.texts[p.1].owner == owner && t.texts[p.1].text == piece.text
  }

  lemma {:induction false} AsMapHolds(pending: seq<Pending>)
    ensures forall r :: r in AsMap(pending) ==> (r, AsMap(pending)[r]) in pending
    ensures forall k :: 0 <= k < |pending| ==> pending[k].0 in AsMap(pending)
  {
    if pending != [] {
      AsMapHolds(pending[..|pending| - 1]);
    }
  }

  /** Every new reference holds its piece. */
  lemma NewRefHolds(t: Tables, pk: int, pieces: seq<Piece>, pending: seq<Pending>, more: Tables, r: Ref)
    requires pk in t.events && AreThePieces(t.events[pk].entries, |t.events[pk].entries|, pieces)
    requires Points(t, pk, t.events[pk].owner, pieces, pending)
    requires more == t.(refs := t.refs + AsMap(pending)) && r in AsMap(pending)
    ensures r in more.refs && RefHolds(more, r)
  {
    AsMapHolds(pending);
    var k :| 0 <= k < |pending| && pending[k] == (r, AsMap(pending)[r]);
    assert PointsTo(t, pk, t.events[pk].owner, pieces[k], pending[k]);
  }

  lemma OldRefHolds(t: Tables, added: map<Ref, int>, r: Ref)
    requires r in t.refs && RefHolds(t, r) && r !in added
    ensures RefHolds(t.(refs := t.refs + added), r)
  {
  }

  /** With the references of its pieces, an event is indexed like the others. */
  lemma EventIndexed(out: Outside, t: Tables, pk: int, pieces: seq<Piece>, pending: seq<Pending>)
    requires TextsOk(out, t) && TrigramsOk(out, t) && RefsOk(t) && pk in t.events
    requires Referenced(t, t.events.Keys - {pk})
    requires AreThePieces(t.events[pk].entries, |t.events[pk].entries|, pieces)
    requires |pending| == |pieces| && Points(t, pk, t.events[pk].owner, pieces, pending)
    ensures var more := t.(refs := t.refs + AsMap(pending));
      TextsOk(out, more) && TrigramsOk(out, more) && RefsOk(more) && Referenced(more, t.events.Keys)
  {
    RefsInserted(t, pk, pieces, pending, t.events.Keys - {pk});
    assert t.events.Keys - {pk} + {pk} == t.events.Keys;
  }

  /** An event's references complete its pieces and keep all others. */
  lemma {:induction false} RefsInserted(t: Tables, pk: int, pieces: seq<Piece>, pending: seq<Pending>, pks: set<int>)
    requires RefsOk(t) && Referenced(t, pks)
    requires pk in t.events && AreThePieces(t.events[pk].entries, |t.events[pk].entries|, pieces)
    requires |pending| == |pieces| && Points(t, pk, t.events[pk].owner, pieces, pending)
    ensures RefsOk(t.(refs := t.refs + AsMap(pending)))
    ensures Referenced(t.(refs := t.refs + AsMap(pending)), pks + {pk})
  {
    var more := t.(refs := t.refs + AsMap(pending));
    forall r | r in more.refs ensures RefHolds(more, r) {
      if r in AsMap(pending) {
        NewRefHolds(t, pk, pieces, pending, more, r);
      } else {
        OldRefHolds(t, AsMap(pending), r);
      }
    }
    AsMapHolds(pending);
    forall r: Ref | r.event in pks + {pk} && HasPiece(more.events, r) ensures r in more.refs {
      if r.event == pk {
        PieceIsPending(t, pk, pieces, pending, r);
      }
    }
  }

  lemma PieceIsPending(t: Tables, pk: int, pieces: seq<Piece>, pending: seq<Pending>, r: Ref)
    requires pk in t.events && AreThePieces(t.events[pk].entries, |t.events[pk].entries|, pieces)
    requires |pending| == |pieces| && Points(t, pk, t.events[pk].owner, pieces, pending)
    requires r.event == pk && HasPiece(t.events, r)
    ensures r in AsMap(pending)
  {
    AsMapHolds(pending);
    var piece := Piece(r.entryIndex, r.field, PieceAt(t.events[pk].entries, r.entryIndex, r.field).value);
    assert piece in pieces;
    var k :| 0 <= k < |pieces| && pieces[k] == piece;
    assert PointsTo(t, pk, t.events[pk].owner, pieces[k], pending[k]);
  }

  lemma PointsNext(t: Tables, more: Tables, pk: int, owner: string, pieces: seq<Piece>, found: seq<Pending>, id: int)
    requires Points(t, pk, owner, pieces, found) && |found| < |pieces|
    requires forall i :: i in t.texts ==> i in more.texts && more.texts[i] == t.texts[i]
    requires id in more.texts && more.texts[id].owner == owner && more.texts[id].text == pieces[|found|].text
    ensures var piece := pieces[|found|];
      Points(more, pk, owner, pieces, found + [(Ref(pk, piece.entryIndex, piece.field), id)])
  {
    forall k | 0 <= k < |found| ensures PointsTo(more, pk, owner, pieces[k], found[k]) {
      assert PointsTo(t, pk, owner, pieces[k], found[k]);
      var i := found[k].1;
      assert t.texts[i].owner == owner;
      assert more.texts[i] == t.texts[i];
    }
  }

  lemma FarPieces(entries: seq<TextEntry>, pieces: seq<Piece>)
    requires AreThePieces(entries, |entries|, pieces)
    ensures TooManyEntries(entries) <==> exists k :: 0 <= k < |pieces| && pieces[k].entryIndex > MAX_I32
  {
    if TooManyEntries(entries) {
      var i, f :| i > MAX_I32 as nat && PieceAt(entries, i, f).Some?;
      assert Piece(i, f, PieceAt(entries, i, f).value) in pieces;
    }
    if k :| 0 <= k < |pieces| && pieces[k].entryIndex > MAX_I32 {
      assert PieceAt(entries, pieces[k].entryIndex, pieces[k].field).Some?;
    }
  }

  /** Keys made up for a batch are new and differ. */
  ghost predicate AreFresh(events: map<int, StoredEvent>, batch: seq<Incoming>) {
    && (forall i :: 0 <= i < |batch| ==> batch[i].pk !in events)
    && forall i, j :: 0 <= i < j < |batch| ==> batch[i].pk != batch[j].pk
  }

  lemma StillFresh(events: map<int, StoredEvent>, batch: seq<Incoming>, more: map<int, StoredEvent>)
    requires batch != [] && AreFresh(events, batch)
    requires TakenIn(events, batch[0]) == Some(more)
    ensures AreFresh(more, batch[1..])
  {
  }

  lemma {:induction false} RefusalStays(events: map<int, StoredEvent>, batch: seq<Incoming>, n: nat)
    requires n <= |batch| && BatchTakenIn(events, batch[..n]).None?
    ensures BatchTakenIn(events, batch).None?
    decreases |batch|
  {
    if n < |batch| {
      assert batch[..|batch| - 1][..n] == batch[..n];
      RefusalStays(events, batch[..|batch| - 1], n);
    } else {
      assert batch[..n] == batch;
    }
  }

  /** A new event's row leaves everything about the others as it is. */
  lemma NewEventKeeps(t: Tables, e: Incoming, more: Tables)
    requires e.pk !in t.events && more == t.(events := t.events[e.pk := e.event])
    requires RefsOk(t) && Referenced(t, t.events.Keys)
    ensures RefsOk(more) && Referenced(more, more.events.Keys - {e.pk})
  {
    forall r | r in more.refs ensures RefHolds(more, r) {
      assert RefHolds(t, r);
      assert r in t.refs && r.event in t.events;
    }
    forall r: Ref | r.event in more.events.Keys - {e.pk} && HasPiece(more.events, r) ensures r in more.refs {
      assert HasPiece(t.events, r);
    }
  }

  class Store {
    const out: Outside
    var events: map<int, StoredEvent>
    var texts: map<int, TextRow>
    var trigrams: map<int, string>
    var refs: map<Ref, int>
    var nextId: int

    function Now(): Tables
      reads this
    {
      Tables(events, texts, trigrams, refs, nextId)
    }

    ghost predicate Valid()
      reads this
    {
      Consistent(out, Now())
    }

    constructor (o: Outside)
      ensures Valid() && out == o && events == map[]
    {
      out := o;
      events, texts, trigrams, refs, nextId := map[], map[], map[], map[], 1;
    }

    /** Finds the owner's row for `text`, or adds one to both tables. */
    method TextId(owner: string, text: string) returns (id: int)
      requires TellsApart(out.digest)
      requires TextsOk(out, Now()) && TrigramsOk(out, Now())
      modifies this`texts, this`trigrams, this`nextId
      ensures TextsOk(out, Now()) && TrigramsOk(out, Now())
      ensures id in texts && texts[id].owner == owner && texts[id].text == text
      ensures forall i :: i in old(texts) ==> i in texts && texts[i] == old(texts)[i]
      ensures forall i :: i in texts && i !in old(texts) ==> i == id
    {
      var digest := out.digest(text);
      if i :| i in texts && texts[i].owner == owner && texts[i].digest == digest {
        return i;
      }
      id := nextId;
      NewTextKeepsTexts(out, Now(), TextRow(owner, digest, text));
      texts := texts[id := TextRow(owner, digest, text)];
      trigrams := trigrams[id := Fold(out.lower, text)];
      nextId := nextId + 1;
    }

    /** Writes references, so many per statement. */
    method InsertRefs(pending: seq<Pending>)
      modifies this`refs
      ensures refs == old(refs) + AsMap(pending)
    {
      var n := 0;
      assert pending[..0] == [];
      while n < |pending|
        invariant n <= |pending| && refs == old(refs) + AsMap(pending[..n])
      {
        var next := if n + REFS_PER_INSERT < |pending| then n + REFS_PER_INSERT else |pending|;
        AsMapUpTo(pending, n, next);
        refs := refs + AsMap(pending[n..next]);
        n := next;
      }
      assert pending[..|pending|] == pending;
    }

    /** Finds or stores the text of every piece, unless one lies too far. */
    method PendingRefs(pk: int, owner: string, pieces: seq<Piece>) returns (pending: Option<seq<Pending>>)
      requires TellsApart(out.digest)
      requires TextsOk(out, Now()) && TrigramsOk(out, Now()) && RefsOk(Now())
      modifies this`texts, this`trigrams, this`nextId
      ensures TextsOk(out, Now()) && TrigramsOk(out, Now()) && RefsOk(Now())
      ensures pending.Some? ==> |pending.value| == |pieces| && Points(Now(), pk, owner, pieces, pending.value)
      ensures pending.None? <==> exists k :: 0 <= k < |pieces| && pieces[k].entryIndex > MAX_I32
    {
      var found: seq<Pending> := [];
      for k := 0 to |pieces|
        invariant TextsOk(out, Now()) && TrigramsOk(out, Now()) && RefsOk(Now())
        invariant |found| == k && Points(Now(), pk, owner, pieces, found)
        invariant forall l :: 0 <= l < k ==> pieces[l].entryIndex <= MAX_I32
      {
        if pieces[k].entryIndex > MAX_I32 {
          return None;
        }
        ghost var before := Now();
        var id := TextId(owner, pieces[k].text);
        MoreTextsKeepRefs(before, Now());
        PointsNext(before, Now(), pk, owner, pieces, found, id);
        found := found + [(Ref(pk, pieces[k].entryIndex, pieces[k].field), id)];
      }
      pending := Some(found);
    }

    /** Completes the tables for `pk`, the one event still without references;
        refuses when a piece lies beyond a 32-bit index. */
    method IndexEvent(pk: int) returns (ok: bool)
      requires TellsApart(out.digest) && pk in events
      requires TextsOk(out, Now()) && TrigramsOk(out, Now()) && RefsOk(Now())
      requires Referenced(Now(), events.Keys - {pk})
      modifies this`texts, this`trigrams, this`refs, this`nextId
      ensures ok <==> !TooManyEntries(events[pk].entries)
      ensures ok ==> TextsOk(out, Now()) && TrigramsOk(out, Now()) && RefsOk(Now()) && Referenced(Now(), events.Keys)
    {
      var entries := events[pk].entries;
      var pieces := Pieces(entries, |entries|);
      PiecesAreThePieces(entries, |entries|);
      FarPieces(entries, pieces);
      var pending := PendingRefs(pk, events[pk].owner, pieces);
      if pending.None? {
        return false;
      }
      EventIndexed(out, Now(), pk, pieces, pending.value);
      InsertRefs(pending.value);
      ok := true;
    }

    /** Stores and indexes one event; false when it has too many entries. */
    method Ingest(e: Incoming) returns (ok: bool)
      requires Valid() && TellsApart(out.digest) && e.pk !in events
      modifies this
      ensures ok <==> TakenIn(old(events), e).Some?
      ensures ok ==> Valid() && events == TakenIn(old(events), e).value
    {
      if pk :| pk in events && events[pk].eventId == e.event.eventId {
        return true;
      }
      ghost var before := Now();
      events := events[e.pk := e.event];
      NewEventKeeps(before, e, Now());
      ok := IndexEvent(e.pk);
    }

    /** One transaction: a batch is taken in whole, or nothing changes. */
    method IngestBatch(batch: seq<Incoming>) returns (ok: bool)
      requires Valid() && TellsApart(out.digest) && AreFresh(events, batch)
      modifies this
      ensures Valid()
      ensures ok <==> BatchTakenIn(old(events), batch).Some?
      ensures ok ==> events == BatchTakenIn(old(events), batch).value
      ensures !ok ==> Now() == old(Now())
    {
      var events0, texts0, trigrams0, refs0, nextId0 := events, texts, trigrams, refs, nextId;
      assert batch[..0] == [];
      for i := 0 to |batch|
        invariant Valid()
        invariant BatchTakenIn(events0, batch[..i]) == Some(events)
        invariant AreFresh(events, batch[i..])
      {
        assert batch[..i + 1][..i] == batch[..i];
        ghost var before := events;
        ok := Ingest(batch[i]);
        if !ok {
          events, texts, trigrams, refs, nextId := events0, texts0, trigrams0, refs0, nextId0;
          RefusalStays(events0, batch, i + 1);
          return false;
        }
        StillFresh(before, batch[i..], events);
        assert batch[i..][1..] == batch[i + 1..];
      }
      assert batch[..|batch|] == batch;
      ok := true;
    }
  }
}
