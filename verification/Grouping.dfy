/** What grouping events into exchanges keeps. */
module Grouping {
  import opened Collections
  import opened Exchanges
  import opened Gatherings
  import opened Sorting

  /** Every event key the exchanges hold, exchange by exchange. */
  function ItsPks(): Exchange -> seq<int> {
    (x: Exchange) => x.eventPks
  }

  function HeldPks(xs: seq<Exchange>): seq<int> {
    Flatten(Mapped(xs, ItsPks()))
  }

  /** What exchange `k` holds, besides what the others do. */
  lemma HeldPksAt(xs: seq<Exchange>, k: nat)
    requires k < |xs|
    ensures multiset(HeldPks(xs)) == multiset(HeldPks(xs[..k] + xs[k + 1..])) + multiset(xs[k].eventPks)
  {
    var held := Mapped(xs, ItsPks());
    FlattenSplit(held, k);
    assert held[..k] + held[k + 1..] == Mapped(xs[..k] + xs[k + 1..], ItsPks());
  }

  lemma HeldPksPermutation(xs: seq<Exchange>, ys: seq<Exchange>)
    requires multiset(xs) == multiset(ys)
    ensures multiset(HeldPks(xs)) == multiset(HeldPks(ys))
  {
    MappedPermuted(xs, ys, ItsPks());
    FlattenPermuted(Mapped(xs, ItsPks()), Mapped(ys, ItsPks()));
  }

  lemma AddedKeepsPks(x: Exchange, e: StreamEvent)
    ensures Added(x, e).eventPks == x.eventPks + [e.pk]
  {
  }

  lemma ReplacedPks(xs: seq<Exchange>, k: nat, y: Exchange, pk: int)
    requires k < |xs| && y.eventPks == xs[k].eventPks + [pk]
    ensures multiset(HeldPks(xs[k := y])) == multiset(HeldPks(xs)) + multiset{pk}
  {
    var ys := xs[k := y];
    HeldPksAt(xs, k);
    HeldPksAt(ys, k);
    assert ys[..k] == xs[..k] && ys[k + 1..] == xs[k + 1..];
  }

  lemma OpenedPks(xs: seq<Exchange>, x: Exchange)
    ensures multiset(HeldPks(xs + [x])) == multiset(HeldPks(xs)) + multiset(x.eventPks)
  {
    var more := xs + [x];
    HeldPksAt(more, |xs|);
    assert more[..|xs|] + more[|xs| + 1..] == xs;
  }

  lemma AddedPks(xs: seq<Exchange>, e: StreamEvent, found: Option<nat>)
    requires found.Some? ==> found.value < |xs|
    ensures multiset(HeldPks(Taken(xs, e, found))) == multiset(HeldPks(xs)) + multiset{e.pk}
  {
    match found {
      case None =>
        AddedKeepsPks(Opened(e), e);
        OpenedPks(xs, Added(Opened(e), e));
      case Some(k) =>
        AddedKeepsPks(xs[k], e);
        ReplacedPks(xs, k, Added(xs[k], e), e.pk);
    }
  }

  lemma GatheredNextPks(events: seq<StreamEvent>)
    requires events != []
    ensures multiset(HeldPks(Gathered(events)))
            == multiset(HeldPks(Gathered(events[..|events| - 1]))) + multiset{events[|events| - 1].pk}
  {
    var before, e := Gathered(events[..|events| - 1]), events[|events| - 1];
    AddedPks(before, e, FirstPosition(before, Answers(e.responseId)));
  }

  lemma PksNext(events: seq<StreamEvent>)
    requires events != []
    ensures multiset(Pks(events)) == multiset(Pks(events[..|events| - 1])) + multiset{events[|events| - 1].pk}
  {
    assert Pks(events) == Pks(events[..|events| - 1]) + [events[|events| - 1].pk];
  }

  lemma {:induction false} GatheredPks(events: seq<StreamEvent>)
    ensures multiset(HeldPks(Gathered(events))) == multiset(Pks(events))
  {
    if events == [] {
      assert Gathered(events) == [];
    } else {
      GatheredPks(events[..|events| - 1]);
      GatheredNextPks(events);
      PksNext(events);
    }
  }

  /** Grouping loses and duplicates no event, and orders exchanges by time. */
  lemma GroupingConservesEvents(events: seq<StreamEvent>)
    ensures multiset(HeldPks(Grouped(events))) == multiset(Pks(events))
    ensures Sorted(Grouped(events), NotLater())
  {
    GatheredPks(events);
    SortMultiset(Gathered(events), NotLater());
    SortSorted(Gathered(events), NotLater());
    HeldPksPermutation(Gathered(events), Grouped(events));
  }

  /** Every exchange summarizes one event without a response id or all the
      events with its response id. */
  lemma ExchangesSummarizeClasses(events: seq<StreamEvent>, x: Exchange)
    requires x in Grouped(events)
    ensures exists held :: IsClass(events, held) && x == Summary(held[0], held)
  {
    SortMembers(Gathered(events), NotLater());
    var k :| 0 <= k < |Gathered(events)| && Gathered(events)[k] == x;
    GatheredAreSummaries(events);
    ClassesAreClasses(events);
    assert IsClass(events, Classes(events)[k]);
  }

  lemma HeldTwice(xs: seq<Exchange>, k: nat, l: nat, pk: int)
    requires k < l < |xs| && pk in xs[k].eventPks && pk in xs[l].eventPks
    ensures multiset(HeldPks(xs))[pk] >= 2
  {
    HeldPksAt(xs, k);
    var rest := xs[..k] + xs[k + 1..];
    HeldPksAt(rest, l - 1);
    assert multiset(xs[k].eventPks)[pk] >= 1 && multiset(rest[l - 1].eventPks)[pk] >= 1;
  }

  lemma HeldSomewhere(xs: seq<Exchange>, pk: int)
    requires pk in HeldPks(xs)
    ensures exists k :: 0 <= k < |xs| && pk in xs[k].eventPks
  {
    FlattenMembers(Mapped(xs, ItsPks()), pk);
  }

  /** With distinct event keys, every event is in exactly one exchange. */
  lemma EachEventHasOneExchange(events: seq<StreamEvent>, i: nat)
    requires Distinct(Pks(events)) && i < |events|
    ensures exists k :: 0 <= k < |Grouped(events)| && events[i].pk in Grouped(events)[k].eventPks
    ensures forall k, l :: 0 <= k < l < |Grouped(events)| ==>
              !(events[i].pk in Grouped(events)[k].eventPks && events[i].pk in Grouped(events)[l].eventPks)
  {
    var xs, pk := Grouped(events), events[i].pk;
    GroupingConservesEvents(events);
    DistinctMultiset(Pks(events));
    assert Pks(events)[i] == pk;
    assert pk in multiset(HeldPks(xs));
    HeldSomewhere(xs, pk);
    forall k, l | 0 <= k < l < |xs| && pk in xs[k].eventPks && pk in xs[l].eventPks ensures false {
      HeldTwice(xs, k, l, pk);
    }
  }

  lemma HoldsEvent(events: seq<StreamEvent>, held: seq<StreamEvent>, i: nat)
    requires Distinct(Pks(events)) && i < |events| && IsClass(events, held)
    ensures events[i].pk in Pks(held) <==> events[i] in held
  {
    if events[i].pk in Pks(held) {
      var h :| 0 <= h < |held| && held[h].pk == events[i].pk;
      assert held[h] in events;
      var j :| 0 <= j < |events| && events[j] == held[h];
      assert Pks(events)[j] == Pks(events)[i];
    }
    forall h | 0 <= h < |held| && held[h] == events[i] ensures events[i].pk in Pks(held) {
      assert Pks(held)[h] == events[i].pk;
    }
  }

  /** The class an exchange summarizes, and which events it holds. */
  lemma ClassOf(events: seq<StreamEvent>, x: Exchange) returns (held: seq<StreamEvent>)
    requires Distinct(Pks(events)) && x in Grouped(events)
    ensures IsClass(events, held) && x.eventPks == Pks(held) && x.responseId == held[0].responseId
    ensures forall i :: 0 <= i < |events| ==> (events[i].pk in x.eventPks <==> events[i] in held)
  {
    ExchangesSummarizeClasses(events, x);
    held :| IsClass(events, held) && x == Summary(held[0], held);
    forall i | 0 <= i < |events| ensures events[i].pk in x.eventPks <==> events[i] in held {
      HoldsEvent(events, held, i);
    }
  }

  lemma OneClassOneResponse(events: seq<StreamEvent>, held: seq<StreamEvent>, i: nat, j: nat)
    requires i < |events| && j < |events| && events[i] in held && IsClass(events, held)
    ensures events[i] != events[j] && events[j] in held ==>
              events[i].responseId.Some? && events[i].responseId == events[j].responseId
    ensures events[i].responseId.Some? && events[i].responseId == events[j].responseId ==> events[j] in held
  {
    if held[0].responseId.None? {
      assert held == [held[0]];
    }
  }

  /** Two different events share an exchange exactly when they carry the same
      response id. */
  lemma SharedExchangeMeansSharedResponse(events: seq<StreamEvent>, i: nat, j: nat)
    requires Distinct(Pks(events)) && i < |events| && j < |events| && i != j
    ensures (exists x :: x in Grouped(events) && events[i].pk in x.eventPks && events[j].pk in x.eventPks)
            <==> events[i].responseId.Some? && events[i].responseId == events[j].responseId
  {
    assert Pks(events)[i] != Pks(events)[j];
    EachEventHasOneExchange(events, i);
    forall x | x in Grouped(events) && events[i].pk in x.eventPks
      ensures events[j].pk in x.eventPks
              <==> events[i].responseId.Some? && events[i].responseId == events[j].responseId
    {
      var held := ClassOf(events, x);
      OneClassOneResponse(events, held, i, j);
    }
    var k :| 0 <= k < |Grouped(events)| && events[i].pk in Grouped(events)[k].eventPks;
    assert Grouped(events)[k] in Grouped(events);
  }

  /** No two exchanges carry the same response id. */
  lemma GroupedResponseIdsDiffer(events: seq<StreamEvent>)
    requires Distinct(Pks(events))
    ensures ResponseIdsDiffer(Grouped(events))
  {
    var xs := Grouped(events);
    forall k, l | 0 <= k < l < |xs| && xs[k].responseId.Some? ensures xs[k].responseId != xs[l].responseId {
      var a := ClassOf(events, xs[k]);
      var b := ClassOf(events, xs[l]);
      assert a[0] in events;
      var i :| 0 <= i < |events| && events[i] == a[0];
      EachEventHasOneExchange(events, i);
      assert !(events[i].pk in xs[k].eventPks && events[i].pk in xs[l].eventPks);
    }
  }
}
