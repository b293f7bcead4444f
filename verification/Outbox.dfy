/** The search outbox: leased rows that bring each event into the index, with
    bounded retries and dead letters. */
module Outbox {
  import opened Collections
  import opened Sorting

  const LEASE_SECONDS: int := 120
  const MAX_ATTEMPTS: nat := 10
  const MAX_RETRY_DELAY_SECONDS: int := 300

  datatype Event = Event(eventId: string, body: int)

  datatype Operation = Upsert | Delete

  datatype Row = Row(
    event: int,
    operation: Operation,
    attempts: nat,
    availableAt: int,
    claimedAt: Option<int>,
    claimedBy: Option<int>,
    processedAt: Option<int>,
    deadAt: Option<int>)
  {
    /** Done for good, either way. */
    predicate Finished() {
      processedAt.Some? || deadAt.Some?
    }

    /** Whether a worker may take the row: due, and held by nobody whose lease still runs. */
    predicate Claimable(now: int) {
      && processedAt.None? && deadAt.None? && availableAt <= now
      && (claimedAt.None? || claimedAt.value < now - LEASE_SECONDS)
    }
  }

  datatype Tables = Tables(events: map<int, Event>, rows: map<int, Row>, nextRow: int)

  /** What one row asks of the index. */
  datatype BulkOperation = Index(event: int, doc: int) | Remove(event: int)

  datatype Task = Task(id: int, attempts: nat, operation: BulkOperation)

  datatype TaskResult = TaskResult(id: int, attempts: nat, ok: bool)

  function Pow2(n: nat): (p: int)
    ensures p > 0
  {
    if n == 0 then 1 else 2 * Pow2(n - 1)
  }

  /** Seconds to wait after so many failures. */
  function RetryDelay(attempts: nat): int {
    var exponent := if attempts < 1 then 1 else if attempts > 8 then 8 else attempts;
    if Pow2(exponent) < MAX_RETRY_DELAY_SECONDS then Pow2(exponent) else MAX_RETRY_DELAY_SECONDS
  }

  lemma {:induction false} Pow2Grows(a: nat, b: nat)
    requires a <= b
    ensures Pow2(a) <= Pow2(b)
  {
    if a < b {
      Pow2Grows(a, b - 1);
    }
  }

  /** Delays never shrink with failures, double until the eighth, and stay bounded. */
  lemma DelaysGrowWithinBounds(a: nat, b: nat)
    requires a <= b
    ensures 2 <= RetryDelay(a) <= RetryDelay(b) <= MAX_RETRY_DELAY_SECONDS
    ensures 1 <= a < b <= 8 ==> 2 * RetryDelay(a) <= RetryDelay(b)
  {
    var x := if a < 1 then 1 else if a > 8 then 8 else a;
    var y := if b < 1 then 1 else if b > 8 then 8 else b;
    Pow2Grows(1, x);
    Pow2Grows(x, y);
    Pow2Grows(y, 8);
    assert Pow2(8) == 256;
    if x < y {
      Pow2Grows(x + 1, y);
    }
  }

  // ----- Steps on the tables

  predicate HasRow(t: Tables, pk: int) {
    exists id :: id in t.rows && t.rows[id].event == pk && t.rows[id].operation == Upsert
  }

  predicate Known(t: Tables, eventId: string) {
    exists pk :: pk in t.events && t.events[pk].eventId == eventId
  }

  /** The events no row brings into the index yet. */
  function Due(t: Tables): (due: set<int>) {
    set pk | pk in t.events && !HasRow(t, pk)
  }

  /** One event queued, unless it already is. */
  function Queued(t: Tables, pk: int, now: int): Tables {
    if HasRow(t, pk) then t
    else t.(rows := t.rows[t.nextRow := Row(pk, Upsert, 0, now, None, None, None, None)], nextRow := t.nextRow + 1)
  }

  function QueuedAll(t: Tables, pks: seq<int>, now: int): Tables {
    if pks == [] then t else Queued(QueuedAll(t, pks[..|pks| - 1], now), pks[|pks| - 1], now)
  }

  /** An event stored with its row; a known event changes nothing. */
  function Stored(t: Tables, pk: int, e: Event, now: int): Tables {
    if Known(t, e.eventId) then t else Queued(t.(events := t.events[pk := e]), pk, now)
  }

  function ClaimedAll(t: Tables, ids: set<int>, worker: int, now: int): Tables {
    t.(rows := map id | id in t.rows ::
         if id in ids then t.rows[id].(claimedAt := Some(now), claimedBy := Some(worker)) else t.rows[id])
  }

  /** What a row asks of the index, from the event as it is now. */
  function Prepared(project: Event -> int, t: Tables, id: int): Task
    requires id in t.rows
  {
    var row := t.rows[id];
    Task(id, row.attempts,
         if row.operation == Upsert && row.event in t.events then Index(row.event, project(t.events[row.event]))
         else Remove(row.event))
  }

  function RecordedRow(row: Row, r: TaskResult, now: int): Row {
    if r.ok then row.(processedAt := Some(now), claimedAt := None, claimedBy := None)
    else if r.attempts + 1 >= MAX_ATTEMPTS then
      row.(attempts := r.attempts + 1, deadAt := Some(now), claimedAt := None, claimedBy := None)
    else
      row.(attempts := r.attempts + 1, availableAt := now + RetryDelay(r.attempts + 1), claimedAt := None,
           claimedBy := None)
  }

  function Recorded(t: Tables, r: TaskResult, now: int): Tables {
    if r.id in t.rows then t.(rows := t.rows[r.id := RecordedRow(t.rows[r.id], r, now)]) else t
  }

  function RecordedAll(t: Tables, rs: seq<TaskResult>, now: int): Tables {
    if rs == [] then t else Recorded(RecordedAll(t, rs[..|rs| - 1], now), rs[|rs| - 1], now)
  }

  // ----- The first rows by id

  /** The first `n` of `s`, in order. */
  ghost predicate IsFirst(s: set<int>, n: nat, list: seq<int>) {
    && Increasing(list)
    && |list| == (if |s| < n then |s| else n)
    && (forall x :: x in list ==> x in s)
    && (forall x, y :: x in list && y in s && y !in list ==> x < y)
  }

  function IntOrder(): (int, int) -> bool {
    (a: int, b: int) => a <= b
  }

  lemma OrderedIsIncreasing(s: seq<int>)
    requires Distinct(s) && Sorted(s, IntOrder())
    ensures Increasing(s)
  {
    forall i, j | 0 <= i < j < |s| ensures s[i] < s[j] {
      assert IntOrder()(s[i], s[j]);
    }
  }

  method FirstInOrder(s: set<int>, n: nat) returns (list: seq<int>)
    ensures IsFirst(s, n, list)
  {
    var all := ListSorted(s, IntOrder());
    OrderedIsIncreasing(all);
    list := if |all| < n then all else all[..n];
    forall x, y | x in list && y in s && y !in list ensures x < y {
      var i :| 0 <= i < |list| && list[i] == x;
      assert y in all;
      var j :| 0 <= j < |all| && all[j] == y;
      assert all[i] == x && i < j;
    }
  }

  /** Nobody has held the row in the last 120 seconds, and it is due and not
      finished. */
  ghost predicate IsFree(row: Row, now: int) {
    && row.processedAt.None? && row.deadAt.None? && row.availableAt <= now
    && (row.claimedAt.Some? ==> now - row.claimedAt.value > 120)
  }

  /** `ids` are the first free rows that are not locked, up to `n` of them. */
  ghost predicate TakesTheFirst(t: Tables, now: int, locked: set<int>, n: nat, ids: seq<int>) {
    && Increasing(ids) && |ids| <= n
    && (forall id :: id in ids ==> id in t.rows && id !in locked && IsFree(t.rows[id], now))
    && forall id :: id in t.rows && id !in locked && IsFree(t.rows[id], now) && id !in ids ==>
         |ids| == n && forall x :: x in ids ==> x < id
  }

  lemma FirstAreTaken(t: Tables, now: int, locked: set<int>, n: nat, ids: seq<int>)
    requires IsFirst(MayTake(t, now, locked), n, ids)
    ensures TakesTheFirst(t, now, locked, n, ids)
  {
    var free := MayTake(t, now, locked);
    forall id | id in t.rows ensures id in free <==> id !in locked && IsFree(t.rows[id], now) {
    }
    forall id | id in free && id !in ids ensures |ids| == n {
      DistinctCount(ids);
      Fewer(Elements(ids) + {id}, free);
    }
  }

  // ----- The database

  /** Where a call on the database fails: not at all, with nothing done, or
      behind its first write. */
  datatype Fault = Nowhere | AtOnce | Midway

  /** How many of `n` rows are written when the call fails at `fails`. */
  function Until(fails: Option<nat>, n: nat): (k: nat)
    ensures fails.None? ==> k == n
    ensures fails.Some? ==> k <= n && k <= fails.value && (k == n || k == fails.value)
  {
    if fails.Some? && fails.value < n then fails.value else n
  }

  /** The store of events and outbox rows, one statement or transaction a method. */
  class Database {
    const project: Event -> int
    var events: map<int, Event>
    var rows: map<int, Row>
    var nextRow: int

    function Now(): Tables
      reads this
    {
      Tables(events, rows, nextRow)
    }

    constructor (p: Event -> int)
      ensures Now() == Tables(map[], map[], 1) && project == p
    {
      project := p;
      events, rows, nextRow := map[], map[], 1;
    }

    /** Stores an event and queues it in one transaction. */
    method Ingest(pk: int, e: Event, now: int) returns (inserted: bool)
      requires pk !in events && !HasRow(Now(), pk)
      modifies this
      ensures Now() == Stored(old(Now()), pk, e, now)
      ensures inserted <==> !Known(old(Now()), e.eventId)
    {
      if Known(Now(), e.eventId) {
        return false;
      }
      events := events[pk := e];
      rows := rows[nextRow := Row(pk, Upsert, 0, now, None, None, None, None)];
      nextRow := nextRow + 1;
      inserted := true;
    }

    /** Queues the first events that predate the outbox, and after a batch that
        was not full asks whether any is left; none when the call fails. */
    method AdvanceBackfillBatch(batchSize: nat, now: int, fault: Fault)
      returns (complete: Option<bool>, ghost first: seq<int>)
      modifies this
      ensures fault.AtOnce? ==> Now() == old(Now())
      ensures !fault.AtOnce? ==> IsFirst(Due(old(Now())), batchSize, first)
                                 && Now() == QueuedAll(old(Now()), first, now)
      ensures complete == if fault.AtOnce? then None
                          else if batchSize <= |Due(old(Now()))| then Some(false)
                          else if fault.Midway? then None
                          else Some(Due(Now()) == {})
    {
      if fault.AtOnce? {
        return None, [];
      }
      ghost var before := Now();
      var queue := FirstInOrder(Due(Now()), batchSize);
      first := queue;
      assert queue[..0] == [];
      for k := 0 to |queue|
        invariant Now() == QueuedAll(before, queue[..k], now)
      {
        assert queue[..k + 1][..k] == queue[..k];
        if !HasRow(Now(), queue[k]) {
          rows := rows[nextRow := Row(queue[k], Upsert, 0, now, None, None, None, None)];
          nextRow := nextRow + 1;
        }
      }
      assert queue[..|queue|] == queue;
      if |queue| >= batchSize {
        return Some(false), queue;
      }
      complete := if fault.Midway? then None else Some(Due(Now()) == {});
    }

    /** Leases the first rows that may be taken, other than those another
        transaction has locked, and prepares what each asks of the index; none
        when the call fails, which it may once the rows are leased. */
    method ClaimAndPrepare(worker: int, batchSize: nat, now: int, locked: set<int>, fault: Fault)
      returns (prepared: Option<seq<Task>>, ghost ids: seq<int>)
      modifies this`rows
      ensures fault.AtOnce? ==> Now() == old(Now())
      ensures !fault.AtOnce? ==> IsFirst(MayTake(old(Now()), now, locked), batchSize, ids)
                                 && Now() == ClaimedAll(old(Now()), Elements(ids), worker, now)
      ensures !fault.AtOnce? ==> TakesTheFirst(old(Now()), now, locked, batchSize, ids)
      ensures prepared.None? <==> fault.AtOnce? || (fault.Midway? && ids != [])
      ensures prepared.Some? ==> ArePrepared(project, Now(), ids, prepared.value)
    {
      if fault.AtOnce? {
        return None, [];
      }
      ghost var before := Now();
      var first := FirstInOrder(MayTake(Now(), now, locked), batchSize);
      ids := first;
      FirstAreTaken(before, now, locked, batchSize, ids);
      forall k | 0 <= k < |first| ensures first[k] in rows {
        assert first[k] in first;
      }
      rows := map id | id in rows ::
        if id in first then rows[id].(claimedAt := Some(now), claimedBy := Some(worker)) else rows[id];
      assert Now() == ClaimedAll(before, Elements(ids), worker, now);
      if fault.Midway? && first != [] {
        return None, ids;
      }
      var tasks: seq<Task> := [];
      for k := 0 to |first|
        invariant |tasks| == k && forall l :: 0 <= l < k ==> tasks[l] == Prepared(project, Now(), first[l])
      {
        tasks := tasks + [Prepared(project, Now(), first[k])];
      }
      prepared := Some(tasks);
    }

    /** Advances each row by its item's outcome, row by row until one fails. */
    method RecordResults(results: seq<TaskResult>, now: int, fails: Option<nat>)
      modifies this`rows
      ensures Now() == RecordedAll(old(Now()), results[..Until(fails, |results|)], now)
    {
      ghost var before := Now();
      assert results[..0] == [];
      for k := 0 to Until(fails, |results|)
        invariant Now() == RecordedAll(before, results[..k], now)
      {
        assert results[..k + 1][..k] == results[..k];
        var r := results[k];
        if r.id in rows {
          var row := rows[r.id];
          if r.ok {
            row := row.(processedAt := Some(now), claimedAt := None, claimedBy := None);
          } else {
            var attempts := r.attempts + 1;
            if attempts >= MAX_ATTEMPTS {
              row := row.(attempts := attempts, deadAt := Some(now), claimedAt := None, claimedBy := None);
            } else {
              row := row.(attempts := attempts, availableAt := now + RetryDelay(attempts), claimedAt := None,
                          claimedBy := None);
            }
          }
          rows := rows[r.id := row];
        }
      }
    }
  }

  /** A task for each row, by position. */
  ghost predicate ArePrepared(project: Event -> int, t: Tables, ids: seq<int>, tasks: seq<Task>) {
    && |tasks| == |ids|
    && forall k :: 0 <= k < |ids| ==> ids[k] in t.rows && tasks[k] == Prepared(project, t, ids[k])
  }

  function MayTake(t: Tables, now: int, locked: set<int>): (ids: set<int>) {
    set id | id in t.rows && t.rows[id].Claimable(now) && id !in locked
  }

  // ----- Backfill

  lemma QueuedHasRow(t: Tables, pk: int, now: int)
    requires forall id :: id in t.rows ==> id < t.nextRow
    ensures HasRow(Queued(t, pk, now), pk)
    ensures forall id :: id in Queued(t, pk, now).rows ==> id < Queued(t, pk, now).nextRow
    ensures forall p :: p != pk ==> (HasRow(Queued(t, pk, now), p) <==> HasRow(t, p))
  {
    var more := Queued(t, pk, now);
    if !HasRow(t, pk) {
      assert more.rows[t.nextRow].event == pk;
    }
    forall p | p != pk ensures HasRow(more, p) <==> HasRow(t, p) {
      if HasRow(t, p) {
        var id :| id in t.rows && t.rows[id].event == p && t.rows[id].operation == Upsert;
        assert more.rows[id] == t.rows[id];
      }
      if HasRow(more, p) {
        var id :| id in more.rows && more.rows[id].event == p && more.rows[id].operation == Upsert;
        assert id in t.rows && t.rows[id] == more.rows[id];
      }
    }
  }

  lemma {:induction false} QueuedAllHaveRows(t: Tables, pks: seq<int>, now: int)
    requires forall id :: id in t.rows ==> id < t.nextRow
    ensures QueuedAll(t, pks, now).events == t.events
    ensures forall id :: id in QueuedAll(t, pks, now).rows ==> id < QueuedAll(t, pks, now).nextRow
    ensures forall p :: HasRow(QueuedAll(t, pks, now), p) <==> HasRow(t, p) || p in pks
  {
    if pks != [] {
      var rest, pk := pks[..|pks| - 1], pks[|pks| - 1];
      QueuedAllHaveRows(t, rest, now);
      QueuedHasRow(QueuedAll(t, rest, now), pk, now);
      assert pks == rest + [pk];
    }
  }

  /** Each backfill batch queues as many due events as it may, and so many
      batches leave none. */
  lemma BackfillProgress(t: Tables, batchSize: nat, first: seq<int>, now: int)
    requires forall id :: id in t.rows ==> id < t.nextRow
    requires IsFirst(Due(t), batchSize, first)
    ensures Due(QueuedAll(t, first, now)) == Due(t) - Elements(first)
    ensures |Due(QueuedAll(t, first, now))| == if |Due(t)| <= batchSize then 0 else |Due(t)| - batchSize
  {
    QueuedAllHaveRows(t, first, now);
    DistinctCount(first);
    assert Due(QueuedAll(t, first, now)) == Due(t) - Elements(first);
    assert Elements(first) <= Due(t);
  }
}
