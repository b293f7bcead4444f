/** The outbox under any interleaving of ingests, backfills, leases, crashes,
    bulk writes and late reports. */
module OutboxProtocol {
  import opened Collections
  import opened Outbox

  /** What a worker is doing: writing its tasks item by item, then recording
      the outcomes one by one. */
  datatype Phase =
    | Idle
    | Applying(tasks: seq<Task>, results: seq<TaskResult>)
    | Recording(results: seq<TaskResult>)

  datatype Worker = Worker(phase: Phase, backfillComplete: bool)

  /** The database, the index, the workers and the clock; `sent` is everything
      ever prepared for the index, which may still land there late. */
  datatype State = State(
    db: Tables,
    index: map<int, int>,
    workers: map<int, Worker>,
    sent: set<BulkOperation>,
    now: int)

  datatype Label =
    | Tick(to: int)
    | Ingest(pk: int, event: Event)
    | Start(worker: int)
    | Backfill(worker: int, pks: seq<int>)
    | CheckBackfill(worker: int)
    | Claim(worker: int, ids: seq<int>)
    | ApplyItem(worker: int, written: bool, ok: bool)
    | RecordItem(worker: int)
    | GiveUp(worker: int)
    | Crash(worker: int)
    | Land(operation: BulkOperation)

  function PreparedAll(project: Event -> int, t: Tables, ids: seq<int>): (tasks: seq<Task>)
    requires forall k :: 0 <= k < |ids| ==> ids[k] in t.rows
    ensures |tasks| == |ids| && forall k :: 0 <= k < |ids| ==> tasks[k] == Prepared(project, t, ids[k])
  {
    seq(|ids|, k requires 0 <= k < |ids| => Prepared(project, t, ids[k]))
  }

  function Operations(tasks: seq<Task>): (operations: set<BulkOperation>) {
    set k | 0 <= k < |tasks| :: tasks[k].operation
  }

  predicate InPhase(s: State, w: int, phase: Phase -> bool) {
    w in s.workers && phase(s.workers[w].phase)
  }

  function IsIdle(): Phase -> bool {
    (p: Phase) => p.Idle?
  }

  function HasItem(): Phase -> bool {
    (p: Phase) => p.Applying? && |p.results| < |p.tasks|
  }

  function HasResult(): Phase -> bool {
    (p: Phase) => p.Recording? && p.results != []
  }

  /** When a step can be taken. A backfill may act on an old view of what is
      due; a bulk item reported done was written, one reported failed may have
      been written all the same. What a worker sent may be written long after it
      crashed or gave up. */
  ghost predicate Enabled(s: State, l: Label) {
    match l
    case Tick(to) => s.now <= to
    case Ingest(pk, event) => pk !in s.db.events
    case Start(w) => w !in s.workers
    case Backfill(w, pks) => InPhase(s, w, IsIdle()) && forall k :: 0 <= k < |pks| ==> pks[k] in s.db.events
    case CheckBackfill(w) => InPhase(s, w, IsIdle())
    case Claim(w, ids) =>
      && InPhase(s, w, IsIdle()) && ids != [] && Distinct(ids)
      && forall k :: 0 <= k < |ids| ==> ids[k] in s.db.rows && s.db.rows[ids[k]].Claimable(s.now)
    case ApplyItem(w, written, ok) => InPhase(s, w, HasItem()) && (ok ==> written)
    case RecordItem(w) => InPhase(s, w, HasResult())
    case GiveUp(w) => w in s.workers
    case Crash(w) => w in s.workers
    case Land(operation) => operation in s.sent
  }

  function Written(index: map<int, int>, operation: BulkOperation): map<int, int> {
    match operation
    case Index(event, doc) => index[event := doc]
    case Remove(event) => map pk | pk in index && pk != event :: index[pk]
  }

  /** What a worker does once one more item has its outcome. */
  function ItemDone(p: Phase, ok: bool): Phase
    requires p.Applying? && |p.results| < |p.tasks|
  {
    var task := p.tasks[|p.results|];
    var results := p.results + [TaskResult(task.id, task.attempts, ok)];
    if |results| == |p.tasks| then Recording(results) else Applying(p.tasks, results)
  }

  function ResultDone(p: Phase): Phase
    requires p.Recording? && p.results != []
  {
    if |p.results| == 1 then Idle else Recording(p.results[1..])
  }

  /** A step's outcome. */
  ghost function After(project: Event -> int, s: State, l: Label): State
    requires Enabled(s, l)
  {
    match l
    case Tick(to) => s.(now := to)
    case Ingest(pk, event) => s.(db := Stored(s.db, pk, event, s.now))
    case Start(w) => s.(workers := s.workers[w := Worker(Idle, false)])
    case Backfill(w, pks) => s.(db := QueuedAll(s.db, pks, s.now))
    case CheckBackfill(w) => s.(workers := s.workers[w := s.workers[w].(backfillComplete := Due(s.db) == {})])
    case Claim(w, ids) =>
      s.(db := ClaimedAll(s.db, Elements(ids), w, s.now),
         workers := s.workers[w := s.workers[w].(phase := Applying(PreparedAll(project, s.db, ids), []))],
         sent := s.sent + Operations(PreparedAll(project, s.db, ids)))
    case ApplyItem(w, written, ok) =>
      var p := s.workers[w].phase;
      s.(index := if written then Written(s.index, p.tasks[|p.results|].operation) else s.index,
         workers := s.workers[w := s.workers[w].(phase := ItemDone(p, ok))])
    case RecordItem(w) =>
      var p := s.workers[w].phase;
      s.(db := Recorded(s.db, p.results[0], s.now),
         workers := s.workers[w := s.workers[w].(phase := ResultDone(p))])
    case GiveUp(w) => s.(workers := s.workers[w := s.workers[w].(phase := Idle)])
    case Crash(w) => s.(workers := s.workers[w := Worker(Idle, false)])
    case Land(operation) => s.(index := Written(s.index, operation))
  }

  // ----- What every step keeps

  ghost predicate RowOk(s: State, id: int)
    requires id in s.db.rows
  {
    var row := s.db.rows[id];
    && id < s.db.nextRow && row.operation == Upsert && row.event in s.db.events
    && (row.deadAt.None? ==> row.attempts < MAX_ATTEMPTS)
    && (row.processedAt.Some? ==> row.event in s.index)
  }

  ghost predicate RowsOk(s: State) {
    forall id :: id in s.db.rows ==> RowOk(s, id)
  }

  /** One row an event. */
  ghost predicate RowsDiffer(t: Tables) {
    forall a, b :: a in t.rows && b in t.rows && a != b ==> t.rows[a].event != t.rows[b].event
  }

  /** The index holds nothing but projections of events. */
  ghost predicate IndexOk(project: Event -> int, s: State) {
    forall pk :: pk in s.index ==> pk in s.db.events && s.index[pk] == project(s.db.events[pk])
  }

  /** A task or result of worker `w`: whoever holds the row's lease knows its count. */
  ghost predicate Current(t: Tables, w: int, id: int, attempts: nat) {
    && id in t.rows && attempts < MAX_ATTEMPTS
    && (t.rows[id].claimedBy == Some(w) ==> t.rows[id].attempts == attempts)
  }

  ghost predicate TaskOk(project: Event -> int, s: State, w: int, task: Task) {
    && Current(s.db, w, task.id, task.attempts)
    && var event := s.db.rows[task.id].event;
       event in s.db.events && task.operation == Index(event, project(s.db.events[event]))
  }

  ghost predicate ResultOk(s: State, w: int, r: TaskResult) {
    && Current(s.db, w, r.id, r.attempts)
    && (r.ok ==> s.db.rows[r.id].event in s.index)
  }

  ghost predicate PhaseOk(project: Event -> int, s: State, w: int, p: Phase) {
    match p
    case Idle => true
    case Applying(tasks, results) =>
      && |results| < |tasks|
      && (forall k :: 0 <= k < |tasks| ==> TaskOk(project, s, w, tasks[k]))
      && (forall k :: 0 <= k < |results| ==> ResultOk(s, w, results[k]))
    case Recording(results) => results != [] && forall k :: 0 <= k < |results| ==> ResultOk(s, w, results[k])
  }

  ghost predicate WorkerOk(project: Event -> int, s: State, w: int)
    requires w in s.workers
  {
    PhaseOk(project, s, w, s.workers[w].phase) && (s.workers[w].backfillComplete ==> Due(s.db) == {})
  }

  ghost predicate WorkersOk(project: Event -> int, s: State) {
    forall w :: w in s.workers ==> WorkerOk(project, s, w)
  }

  /** Everything sent is the projection of an event. */
  ghost predicate SentOk(project: Event -> int, s: State) {
    forall operation :: operation in s.sent ==>
      operation.Index? && operation.event in s.db.events && operation.doc == project(s.db.events[operation.event])
  }

  ghost predicate Safe(project: Event -> int, s: State) {
    && RowsOk(s) && RowsDiffer(s.db) && IndexOk(project, s) && WorkersOk(project, s) && SentOk(project, s)
  }

  /** At first there are events, some perhaps older than the outbox, and nothing else. */
  ghost predicate Initial(s: State) {
    s.db.rows == map[] && s.index == map[] && s.workers == map[] && s.sent == {}
  }

  // What one step leaves of what worker `w` relies on.

  ghost predicate EventsKept(s: State, after: State) {
    && (forall pk :: pk in s.db.events ==> pk in after.db.events && after.db.events[pk] == s.db.events[pk])
    && s.index.Keys <= after.index.Keys
  }

  ghost predicate RowsKept(s: State, after: State, w: int) {
    forall id :: id in s.db.rows ==> RowKept(s.db, after.db, w, id)
  }

  ghost predicate RowKept(t: Tables, after: Tables, w: int, id: int)
    requires id in t.rows
  {
    && id in after.rows && after.rows[id].event == t.rows[id].event
    && (after.rows[id] == t.rows[id] || after.rows[id].claimedBy != Some(w))
  }

  lemma TaskStays(project: Event -> int, s: State, after: State, w: int, task: Task)
    requires TaskOk(project, s, w, task) && EventsKept(s, after) && RowsKept(s, after, w)
    ensures TaskOk(project, after, w, task)
  {
    assert RowKept(s.db, after.db, w, task.id);
    var event := s.db.rows[task.id].event;
    assert after.db.events[event] == s.db.events[event];
  }

  lemma ResultStays(s: State, after: State, w: int, r: TaskResult)
    requires ResultOk(s, w, r) && EventsKept(s, after) && RowsKept(s, after, w)
    ensures ResultOk(after, w, r)
  {
    assert RowKept(s.db, after.db, w, r.id);
  }

  lemma PhaseStays(project: Event -> int, s: State, after: State, w: int, p: Phase)
    requires PhaseOk(project, s, w, p) && EventsKept(s, after) && RowsKept(s, after, w)
    ensures PhaseOk(project, after, w, p)
  {
    match p {
      case Idle =>
      case Applying(tasks, results) =>
        forall k | 0 <= k < |tasks| ensures TaskOk(project, after, w, tasks[k]) {
          TaskStays(project, s, after, w, tasks[k]);
        }
        forall k | 0 <= k < |results| ensures ResultOk(after, w, results[k]) {
          ResultStays(s, after, w, results[k]);
        }
      case Recording(results) =>
        forall k | 0 <= k < |results| ensures ResultOk(after, w, results[k]) {
          ResultStays(s, after, w, results[k]);
        }
    }
  }

  /** Workers a step does not touch keep what they rely on. */
  lemma OthersStay(project: Event -> int, s: State, after: State, moved: set<int>)
    requires WorkersOk(project, s) && EventsKept(s, after)
    requires forall w :: w in s.workers ==> RowsKept(s, after, w) || w in moved
    requires forall w :: w in after.workers && w !in moved ==> w in s.workers && after.workers[w] == s.workers[w]
    requires Due(s.db) == {} ==> Due(after.db) == {}
    requires forall w :: w in moved && w in after.workers ==> WorkerOk(project, after, w)
    ensures WorkersOk(project, after)
  {
    forall w | w in after.workers && w !in moved ensures WorkerOk(project, after, w) {
      assert WorkerOk(project, s, w);
      PhaseStays(project, s, after, w, s.workers[w].phase);
    }
  }

  // Step by step.

  /** Nothing but workers changed. */
  lemma WorkerMoves(project: Event -> int, s: State, w: int, worker: Worker)
    requires Safe(project, s)
    requires PhaseOk(project, s, w, worker.phase) && (worker.backfillComplete ==> Due(s.db) == {})
    ensures Safe(project, s.(workers := s.workers[w := worker]))
  {
    var after := s.(workers := s.workers[w := worker]);
    forall id | id in after.db.rows ensures RowOk(after, id) {
      assert RowOk(s, id);
    }
    forall v | v in s.workers ensures RowsKept(s, after, v) {
    }
    PhaseStays(project, s, after, w, worker.phase);
    OthersStay(project, s, after, {w});
  }

  lemma MoreRows(s: State, after: State, w: int)
    requires forall id :: id in s.db.rows ==> id in after.db.rows && after.db.rows[id] == s.db.rows[id]
    ensures RowsKept(s, after, w)
  {
    forall id | id in s.db.rows ensures RowKept(s.db, after.db, w, id) {
      assert after.db.rows[id] == s.db.rows[id];
    }
  }

  /** One more event queued. */
  lemma QueueKeepsSafe(project: Event -> int, s: State, pk: int)
    requires Safe(project, s) && pk in s.db.events
    ensures Safe(project, s.(db := Queued(s.db, pk, s.now)))
    ensures Queued(s.db, pk, s.now).events == s.db.events
  {
    var after := s.(db := Queued(s.db, pk, s.now));
    forall id | id in s.db.rows ensures id < s.db.nextRow && id in after.db.rows && after.db.rows[id] == s.db.rows[id] {
      assert RowOk(s, id);
    }
    QueuedHasRow(s.db, pk, s.now);
    forall id | id in after.db.rows ensures RowOk(after, id) {
      assert id in s.db.rows ==> RowOk(s, id);
    }
    QueueKeepsRowsDiffer(s, pk);
    forall w | w in s.workers ensures RowsKept(s, after, w) {
      MoreRows(s, after, w);
    }
    OthersStay(project, s, after, {});
  }

  lemma QueueKeepsRowsDiffer(s: State, pk: int)
    requires RowsOk(s) && RowsDiffer(s.db)
    ensures RowsDiffer(Queued(s.db, pk, s.now))
  {
    if !HasRow(s.db, pk) {
      forall id | id in s.db.rows ensures s.db.rows[id].event != pk {
        assert RowOk(s, id);
      }
    }
  }

  lemma {:induction false} BackfillKeepsSafe(project: Event -> int, s: State, pks: seq<int>)
    requires Safe(project, s) && forall k :: 0 <= k < |pks| ==> pks[k] in s.db.events
    ensures Safe(project, s.(db := QueuedAll(s.db, pks, s.now)))
    ensures QueuedAll(s.db, pks, s.now).events == s.db.events
  {
    if pks == [] {
      assert s.(db := s.db) == s;
    } else {
      var rest := pks[..|pks| - 1];
      BackfillKeepsSafe(project, s, rest);
      QueueKeepsSafe(project, s.(db := QueuedAll(s.db, rest, s.now)), pks[|pks| - 1]);
    }
  }

  lemma SameRowsSameDue(t: Tables, after: Tables)
    requires after.events == t.events && after.rows.Keys == t.rows.Keys
    requires forall id :: id in t.rows ==>
               after.rows[id].event == t.rows[id].event && after.rows[id].operation == t.rows[id].operation
    ensures Due(after) == Due(t)
  {
    forall pk ensures HasRow(after, pk) <==> HasRow(t, pk) {
      if HasRow(t, pk) {
        var id :| id in t.rows && t.rows[id].event == pk && t.rows[id].operation == Upsert;
        assert id in after.rows && after.rows[id].event == pk;
      }
      if HasRow(after, pk) {
        var id :| id in after.rows && after.rows[id].event == pk && after.rows[id].operation == Upsert;
        assert id in t.rows && t.rows[id].event == pk;
      }
    }
  }

  /** A new event and its row. */
  lemma IngestKeepsSafe(project: Event -> int, s: State, pk: int, e: Event)
    requires Safe(project, s) && pk !in s.db.events
    ensures Safe(project, s.(db := Stored(s.db, pk, e, s.now)))
  {
    if Known(s.db, e.eventId) {
      assert s.(db := s.db) == s;
    } else {
      var more := s.db.(events := s.db.events[pk := e]);
      var after := s.(db := Queued(more, pk, s.now));
      forall id | id in s.db.rows ensures RowOk(s, id) && s.db.rows[id].event != pk {
        assert RowOk(s, id);
      }
      assert !HasRow(more, pk);
      QueuedHasRow(more, pk, s.now);
      assert after.db.rows == s.db.rows[s.db.nextRow := Row(pk, Upsert, 0, s.now, None, None, None, None)];
      forall id | id in after.db.rows ensures RowOk(after, id) {
      }
      forall w | w in s.workers ensures RowsKept(s, after, w) {
        MoreRows(s, after, w);
      }
      IngestedIsNotDue(s.db, more, after.db, pk);
      OthersStay(project, s, after, {});
    }
  }

  lemma IngestedIsNotDue(t: Tables, more: Tables, after: Tables, pk: int)
    requires more.rows == t.rows && more.events.Keys == t.events.Keys + {pk} && after.events == more.events
    requires HasRow(after, pk) && forall p :: p != pk ==> (HasRow(after, p) <==> HasRow(more, p))
    ensures Due(t) == {} ==> Due(after) == {}
  {
    if Due(t) == {} {
      forall p | p in after.events ensures HasRow(after, p) {
        if p != pk {
          assert p !in Due(t);
          assert HasRow(t, p);
          var id :| id in t.rows && t.rows[id].event == p && t.rows[id].operation == Upsert;
          assert id in more.rows && more.rows[id].event == p;
        }
      }
    }
  }

  /** A lease taken. */
  lemma ClaimKeepsSafe(project: Event -> int, s: State, w: int, ids: seq<int>)
    requires Safe(project, s) && Enabled(s, Claim(w, ids))
    ensures Safe(project, After(project, s, Claim(w, ids)))
  {
    var after := After(project, s, Claim(w, ids));
    forall id | id in after.db.rows ensures RowOk(after, id) {
      assert RowOk(s, id);
    }
    SameRowsSameDue(s.db, after.db);
    forall v | v in s.workers && v != w ensures RowsKept(s, after, v) {
      forall id | id in s.db.rows ensures RowKept(s.db, after.db, v, id) {
      }
    }
    assert WorkerOk(project, s, w);
    ClaimedTasksAreOk(project, s, w, ids, after);
    OthersStay(project, s, after, {w});
  }

  lemma ClaimedTasksAreOk(project: Event -> int, s: State, w: int, ids: seq<int>, after: State)
    requires Safe(project, s) && Enabled(s, Claim(w, ids)) && after == After(project, s, Claim(w, ids))
    ensures PhaseOk(project, after, w, after.workers[w].phase)
  {
    forall k | 0 <= k < |ids| ensures TaskOk(project, after, w, PreparedAll(project, s.db, ids)[k]) {
      assert RowOk(s, ids[k]);
      assert s.db.rows[ids[k]].Claimable(s.now);
    }
  }

  /** One item written, or not. */
  lemma ApplyKeepsSafe(project: Event -> int, s: State, w: int, written: bool, ok: bool)
    requires Safe(project, s) && Enabled(s, ApplyItem(w, written, ok))
    ensures Safe(project, After(project, s, ApplyItem(w, written, ok)))
  {
    var after := After(project, s, ApplyItem(w, written, ok));
    var p := s.workers[w].phase;
    assert WorkerOk(project, s, w);
    var task := p.tasks[|p.results|];
    assert TaskOk(project, s, w, task);
    forall id | id in after.db.rows ensures RowOk(after, id) {
      assert RowOk(s, id);
    }
    forall v | v in s.workers ensures RowsKept(s, after, v) {
      MoreRows(s, after, v);
    }
    ItemKeepsPhase(project, s, after, w, p, ok);
    OthersStay(project, s, after, {w});
  }

  lemma ItemKeepsPhase(project: Event -> int, s: State, after: State, w: int, p: Phase, ok: bool)
    requires p.Applying? && PhaseOk(project, s, w, p) && EventsKept(s, after) && RowsKept(s, after, w)
    requires ok && p.tasks[|p.results|].id in s.db.rows ==> s.db.rows[p.tasks[|p.results|].id].event in after.index
    ensures PhaseOk(project, after, w, ItemDone(p, ok))
  {
    var task := p.tasks[|p.results|];
    var r := TaskResult(task.id, task.attempts, ok);
    PhaseStays(project, s, after, w, p);
    assert TaskOk(project, s, w, task) && TaskOk(project, after, w, task);
    assert RowKept(s.db, after.db, w, task.id);
    assert ResultOk(after, w, r);
  }

  lemma RecordKeepsRows(project: Event -> int, s: State, w: int)
    requires Enabled(s, RecordItem(w)) && ResultOk(s, w, s.workers[w].phase.results[0])
    requires forall id :: id in s.db.rows ==> RowOk(s, id)
    ensures var after := After(project, s, RecordItem(w));
      && (forall id :: id in after.db.rows ==> RowOk(after, id))
      && forall v :: v in s.workers ==> RowsKept(s, after, v)
  {
    var after := After(project, s, RecordItem(w));
    forall id | id in after.db.rows ensures RowOk(after, id) {
      assert RowOk(s, id);
    }
    forall v | v in s.workers ensures RowsKept(s, after, v) {
      forall id | id in s.db.rows ensures RowKept(s.db, after.db, v, id) {
      }
    }
  }

  /** One outcome recorded. */
  lemma RecordKeepsSafe(project: Event -> int, s: State, w: int)
    requires Safe(project, s) && Enabled(s, RecordItem(w))
    ensures Safe(project, After(project, s, RecordItem(w)))
  {
    var after := After(project, s, RecordItem(w));
    var p := s.workers[w].phase;
    assert WorkerOk(project, s, w);
    assert ResultOk(s, w, p.results[0]);
    RecordKeepsRows(project, s, w);
    SameRowsSameDue(s.db, after.db);
    PhaseStays(project, s, after, w, p);
    OthersStay(project, s, after, {w});
  }

  /** Every step keeps the protocol safe. */
  lemma StepKeepsSafe(project: Event -> int, s: State, l: Label)
    requires Safe(project, s) && Enabled(s, l)
    ensures Safe(project, After(project, s, l))
  {
    match l {
      case Tick(to) => TickKeepsSafe(project, s, to);
      case Ingest(pk, event) => IngestKeepsSafe(project, s, pk, event);
      case Start(w) => WorkerMoves(project, s, w, Worker(Idle, false));
      case Backfill(w, pks) => BackfillKeepsSafe(project, s, pks);
      case CheckBackfill(w) =>
        WorkerMoves(project, s, w, s.workers[w].(backfillComplete := Due(s.db) == {}));
      case Claim(w, ids) => ClaimKeepsSafe(project, s, w, ids);
      case ApplyItem(w, written, ok) => ApplyKeepsSafe(project, s, w, written, ok);
      case RecordItem(w) => RecordKeepsSafe(project, s, w);
      case GiveUp(w) =>
        assert WorkerOk(project, s, w);
        WorkerMoves(project, s, w, s.workers[w].(phase := Idle));
      case Crash(w) => WorkerMoves(project, s, w, Worker(Idle, false));
      case Land(operation) => LandKeepsSafe(project, s, operation);
    }
  }

  /** Something sent earlier is written. */
  lemma LandKeepsSafe(project: Event -> int, s: State, operation: BulkOperation)
    requires Safe(project, s) && operation in s.sent
    ensures Safe(project, s.(index := Written(s.index, operation)))
  {
    var after := s.(index := Written(s.index, operation));
    forall id | id in after.db.rows ensures RowOk(after, id) {
      assert RowOk(s, id);
    }
    forall w | w in s.workers ensures RowsKept(s, after, w) {
      MoreRows(s, after, w);
    }
    OthersStay(project, s, after, {});
  }

  lemma TickKeepsSafe(project: Event -> int, s: State, to: int)
    requires Safe(project, s)
    ensures Safe(project, s.(now := to))
  {
    var after := s.(now := to);
    forall id | id in after.db.rows ensures RowOk(after, id) {
      assert RowOk(s, id);
    }
    forall w | w in s.workers ensures RowsKept(s, after, w) {
      MoreRows(s, after, w);
    }
    OthersStay(project, s, after, {});
  }
}
