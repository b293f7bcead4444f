/** One worker's iteration: check the index, advance the backfill, claim,
    write in bulk, and record what became of each item. */
module OutboxWorker {
  import opened Collections
  import opened Outbox
  import opened OutboxIterations
  import opened OutboxProtocol

  /** What becomes of one bulk request: an outcome for each item, or none at all. */
  type Bulk = seq<Task> -> Option<seq<bool>>

  /** The index answers every item of a request it answers. */
  ghost predicate AnswersAll(bulk: Bulk) {
    forall tasks :: bulk(tasks).Some? ==> |bulk(tasks).value| == |tasks|
  }

  /** Each task with its own outcome, by position; all failed without an answer. */
  ghost predicate AreOutcomes(bulk: Bulk, tasks: seq<Task>, results: seq<TaskResult>) {
    && |results| == |tasks|
    && forall k :: 0 <= k < |tasks| ==>
         && results[k].id == tasks[k].id && results[k].attempts == tasks[k].attempts
         && (results[k].ok <==> bulk(tasks).Some? && k < |bulk(tasks).value| && bulk(tasks).value[k])
  }

  /** What fails on the way, apart from the bulk items: the index check, the
      backfill, the claim, or recording from some outcome on. */
  datatype Faults = Faults(index: bool, backfill: Fault, claim: Fault, record: Option<nat>)

  /** One iteration: the tables it found and queued in, the rows it claimed,
      the tasks and outcomes, and the tables it left. */
  datatype Iteration = Iteration(
    before: Tables,
    queued: Tables,
    ids: seq<int>,
    tasks: seq<Task>,
    results: seq<TaskResult>,
    after: Tables)

  /** The backfill advanced by a batch, when it ran, and whether it is seen to
      be complete now. */
  ghost predicate Advances(before: Tables, queued: Tables, runs: bool, checks: bool, n: nat, now: int, was: bool,
                           complete: bool)
  {
    if runs then
      exists first ::
        && IsFirst(Due(before), n, first) && queued == QueuedAll(before, first, now)
        && (complete <==> checks && |Due(before)| < n && Due(queued) == {})
    else queued == before && complete == was
  }

  /** The backfill goes on to the claim: it is complete or does not fail, at
      the latest by a full batch. */
  ghost predicate GoesOn(before: Tables, n: nat, was: bool, fault: Fault) {
    was || fault.Nowhere? || (fault.Midway? && n <= |Due(before)|)
  }

  /** The first rows that may be taken, when any were asked for, all leased;
      unless their events cannot be loaded, each written and recorded with its
      own outcome, up to where recording fails. */
  ghost predicate Works(project: Event -> int, worker: int, n: nat, now: int, locked: set<int>, bulk: Bulk,
                        claims: bool, loads: bool, record: Option<nat>, it: Iteration)
  {
    var claimed := ClaimedAll(it.queued, Elements(it.ids), worker, now);
    && (if claims then IsFirst(MayTake(it.queued, now, locked), n, it.ids) else it.ids == [])
    && (if loads then ArePrepared(project, claimed, it.ids, it.tasks) else it.tasks == [])
    && AreOutcomes(bulk, it.tasks, it.results)
    && it.after == RecordedAll(claimed, it.results[..Until(record, |it.results|)], now)
  }

  ghost predicate AllGood(results: seq<TaskResult>) {
    forall k :: 0 <= k < |results| ==> results[k].ok
  }

  class Indexer {
    const worker: int
    const batchSize: nat
    var indexReady: bool
    var backfillComplete: bool

    constructor (w: int, b: nat)
      ensures !indexReady && !backfillComplete && worker == w && batchSize == b
    {
      worker, batchSize := w, b;
      indexReady, backfillComplete := false, false;
    }

    /** Writes tasks in bulk; any failure has the index checked again. */
    method Apply(tasks: seq<Task>, bulk: Bulk) returns (results: seq<TaskResult>)
      requires AnswersAll(bulk)
      modifies this`indexReady
      ensures AreOutcomes(bulk, tasks, results)
      ensures indexReady <==> old(indexReady) && bulk(tasks).Some? && AllGood(results)
    {
      results := [];
      match bulk(tasks) {
        case Some(items) =>
          for k := 0 to |tasks|
            invariant |results| == k && |items| == |tasks|
            invariant forall l :: 0 <= l < k ==> results[l] == TaskResult(tasks[l].id, tasks[l].attempts, items[l])
          {
            results := results + [TaskResult(tasks[k].id, tasks[k].attempts, items[k])];
          }
          if exists k :: 0 <= k < |items| && !items[k] {
            var k :| 0 <= k < |items| && !items[k];
            assert !results[k].ok;
            indexReady := false;
          }
        case None =>
          indexReady := false;
          for k := 0 to |tasks|
            invariant |results| == k
            invariant forall l :: 0 <= l < k ==> results[l] == TaskResult(tasks[l].id, tasks[l].attempts, false)
          {
            results := results + [TaskResult(tasks[k].id, tasks[k].attempts, false)];
          }
      }
    }

    /** Advances the backfill unless it is complete; false when that fails. */
    method Backfill(db: Database, now: int, fault: Fault) returns (ok: bool)
      modifies this`backfillComplete, db
      ensures ok <==> GoesOn(old(db.Now()), batchSize, old(backfillComplete), fault)
      ensures Advances(old(db.Now()), db.Now(), !old(backfillComplete) && !fault.AtOnce?, fault.Nowhere?, batchSize,
                       now, old(backfillComplete), backfillComplete)
    {
      if !backfillComplete {
        ghost var first;
        var complete;
        complete, first := db.AdvanceBackfillBatch(batchSize, now, fault);
        if complete.None? {
          return false;
        }
        backfillComplete := complete.value;
      }
      ok := true;
    }

    /** Claims, writes and records; `queued` are the tables before. */
    method Work(db: Database, now: int, locked: set<int>, bulk: Bulk, claim: Fault, record: Option<nat>,
                ghost before: Tables)
      returns (again: bool, ghost it: Iteration)
      requires AnswersAll(bulk)
      modifies this`indexReady, db
      ensures it.before == before && it.queued == old(db.Now()) && it.after == db.Now()
      ensures Works(db.project, worker, batchSize, now, locked, bulk, !claim.AtOnce?, !claim.Midway?, record, it)
      ensures again <==> it.tasks != [] && |it.tasks| == batchSize
      ensures indexReady <==> old(indexReady) && (it.tasks == [] || (bulk(it.tasks).Some? && AllGood(it.results)))
    {
      ghost var queued := db.Now();
      NothingClaimed(queued, worker, now);
      ghost var ids;
      var prepared;
      prepared, ids := db.ClaimAndPrepare(worker, batchSize, now, locked, claim);
      if prepared.None? || |prepared.value| == 0 {
        it := Iteration(before, queued, if claim.AtOnce? then [] else ids, [], [], db.Now());
        return false, it;
      }
      var tasks := prepared.value;
      var results := Apply(tasks, bulk);
      db.RecordResults(results, now, record);
      it := Iteration(before, queued, ids, tasks, results, db.Now());
      again := |tasks| >= batchSize;
    }

    /** One iteration; another follows at once exactly when a full batch was
        claimed and loaded. */
    method ProcessIteration(db: Database, now: int, locked: set<int>, bulk: Bulk, faults: Faults)
      returns (again: bool, ghost it: Iteration)
      requires AnswersAll(bulk)
      modifies this, db
      ensures it.before == old(db.Now()) && it.after == db.Now()
      ensures var up := old(indexReady) || !faults.index;
        var goesOn := up && GoesOn(it.before, batchSize, old(backfillComplete), faults.backfill);
        && Advances(it.before, it.queued, up && !old(backfillComplete) && !faults.backfill.AtOnce?,
                    faults.backfill.Nowhere?, batchSize, now, old(backfillComplete), backfillComplete)
        && Works(db.project, worker, batchSize, now, locked, bulk, goesOn && !faults.claim.AtOnce?,
                 !faults.claim.Midway?, faults.record, it)
        && (indexReady <==> up && (it.tasks == [] || (bulk(it.tasks).Some? && AllGood(it.results))))
      ensures again <==> it.tasks != [] && |it.tasks| == batchSize
    {
      NothingClaimed(db.Now(), worker, now);
      it := Iteration(db.Now(), db.Now(), [], [], [], db.Now());
      if !indexReady {
        if faults.index {
          return false, it;
        }
        indexReady := true;
      }
      ghost var before := db.Now();
      var ok := Backfill(db, now, faults.backfill);
      NothingClaimed(db.Now(), worker, now);
      it := Iteration(before, db.Now(), [], [], [], db.Now());
      if !ok {
        return false, it;
      }
      again, it := Work(db, now, locked, bulk, faults.claim, faults.record, before);
    }
  }

  /** Whatever fails on the way, an iteration is a run of the protocol's steps:
      an idle worker over the tables found reaches the tables left, idle again. */
  lemma IterationIsARun(project: Event -> int, s: State, worker: int, n: nat, locked: set<int>, bulk: Bulk,
                        runs: bool, checks: bool, claims: bool, loads: bool, record: Option<nat>, was: bool,
                        complete: bool, it: Iteration)
    requires Stands(s, it.before, worker, Worker(Idle, was), s.now) && (runs ==> !was)
    requires Advances(it.before, it.queued, runs, checks, n, s.now, was, complete)
    requires Works(project, worker, n, s.now, locked, bulk, claims, loads, record, it)
    ensures Reaches(project, s, it.after, worker, Worker(Idle, complete))
  {
    forall m: State | Stands(m, it.queued, worker, Worker(Idle, complete), s.now)
      ensures Reaches(project, m, it.after, worker, Worker(Idle, complete))
    {
      ClaimsAndApplies(project, m, it.queued, worker, it.ids, it.tasks, it.results, n, locked, loads,
                       Until(record, |it.results|), complete);
    }
    if runs {
      var first :| IsFirst(Due(it.before), n, first) && it.queued == QueuedAll(it.before, first, s.now)
                   && (complete <==> checks && |Due(it.before)| < n && Due(it.queued) == {});
      BackfillsThen(project, s, it.before, worker, first, n, checks, complete, it.after, Worker(Idle, complete));
    }
  }
}
