/** What holds over whole runs of the outbox protocol. */
module OutboxRuns {
  import opened Collections
  import opened Outbox
  import opened OutboxProtocol

  /** A run: states and the steps between them. */
  datatype Run = Run(states: seq<State>, labels: seq<Label>)

  ghost predicate StepOk(project: Event -> int, run: Run, i: nat)
    requires |run.states| == |run.labels| + 1 && i < |run.labels|
  {
    Enabled(run.states[i], run.labels[i]) && run.states[i + 1] == After(project, run.states[i], run.labels[i])
  }

  ghost predicate IsRun(project: Event -> int, run: Run) {
    && |run.states| == |run.labels| + 1
    && Initial(run.states[0])
    && forall i :: 0 <= i < |run.labels| ==> StepOk(project, run, i)
  }

  lemma InitiallySafe(project: Event -> int, s: State)
    requires Initial(s)
    ensures Safe(project, s)
  {
  }

  lemma {:induction false} EveryStateIsSafe(project: Event -> int, run: Run, i: nat)
    requires IsRun(project, run) && i < |run.states|
    ensures Safe(project, run.states[i])
  {
    if i == 0 {
      InitiallySafe(project, run.states[0]);
    } else {
      EveryStateIsSafe(project, run, i - 1);
      assert StepOk(project, run, i - 1);
      StepKeepsSafe(project, run.states[i - 1], run.labels[i - 1]);
    }
  }

  /** A processed upsert row means the index holds its event's projection. */
  lemma ProcessedMeansIndexed(project: Event -> int, run: Run, i: nat, id: int)
    requires IsRun(project, run) && i < |run.states|
    requires id in run.states[i].db.rows && run.states[i].db.rows[id].processedAt.Some?
    ensures var s, pk := run.states[i], run.states[i].db.rows[id].event;
      pk in s.db.events && pk in s.index && s.index[pk] == project(s.db.events[pk])
  {
    EveryStateIsSafe(project, run, i);
    assert RowOk(run.states[i], id);
  }

  // ----- What is finished stays so

  /** What a step does to rows that exist. */
  lemma RowsPersist(project: Event -> int, s: State, l: Label, id: int)
    requires Safe(project, s) && Enabled(s, l) && id in s.db.rows
    ensures id in After(project, s, l).db.rows
    ensures var row, after := s.db.rows[id], After(project, s, l).db.rows[id];
      && after.event == row.event && after.operation == row.operation
      && (row.Finished() ==> after.Finished())
      && (after == row
          || (l.Claim? && id in l.ids && after == row.(claimedAt := Some(s.now), claimedBy := Some(l.worker)))
          || (l.RecordItem? && s.workers[l.worker].phase.results[0].id == id
              && after == RecordedRow(row, s.workers[l.worker].phase.results[0], s.now)))
  {
    assert RowOk(s, id);
    match l {
      case Ingest(pk, event) =>
      case Backfill(w, pks) => QueuedKeepsRows(s.db, pks, s.now, id);
      case Claim(w, ids) =>
      case RecordItem(w) =>
      case _ =>
    }
  }

  lemma {:induction false} QueuedKeepsRows(t: Tables, pks: seq<int>, now: int, id: int)
    requires id in t.rows && id < t.nextRow
    ensures var after := QueuedAll(t, pks, now);
      id in after.rows && after.rows[id] == t.rows[id] && id < after.nextRow
  {
    if pks != [] {
      QueuedKeepsRows(t, pks[..|pks| - 1], now, id);
    }
  }

  lemma {:induction false} FinishedStays(project: Event -> int, run: Run, i: nat, j: nat, id: int)
    requires IsRun(project, run) && i <= j < |run.states|
    requires id in run.states[i].db.rows && run.states[i].db.rows[id].Finished()
    ensures id in run.states[j].db.rows && run.states[j].db.rows[id].Finished()
  {
    if i < j {
      FinishedStays(project, run, i, j - 1, id);
      EveryStateIsSafe(project, run, j - 1);
      assert StepOk(project, run, j - 1);
      RowsPersist(project, run.states[j - 1], run.labels[j - 1], id);
    }
  }

  /** A row processed or dead-lettered is never claimed again, by anyone. */
  lemma FinishedIsNeverClaimed(project: Event -> int, run: Run, i: nat, j: nat, id: int)
    requires IsRun(project, run) && i <= j < |run.labels|
    requires id in run.states[i].db.rows && run.states[i].db.rows[id].Finished()
    ensures run.labels[j].Claim? ==> id !in run.labels[j].ids
  {
    FinishedStays(project, run, i, j, id);
    assert StepOk(project, run, j);
    assert !run.states[j].db.rows[id].Claimable(run.states[j].now);
  }

  // ----- Every event is queued, or was there before and is still due

  lemma StaysQueued(project: Event -> int, s: State, l: Label, pk: int)
    requires Safe(project, s) && Enabled(s, l) && HasRow(s.db, pk)
    ensures HasRow(After(project, s, l).db, pk)
  {
    var id :| id in s.db.rows && s.db.rows[id].event == pk && s.db.rows[id].operation == Upsert;
    RowsPersist(project, s, l, id);
  }

  lemma EventsPersist(project: Event -> int, s: State, l: Label, pk: int)
    requires Safe(project, s) && Enabled(s, l)
    ensures pk in s.db.events ==> pk in After(project, s, l).db.events
    ensures pk in After(project, s, l).db.events && pk !in s.db.events ==> HasRow(After(project, s, l).db, pk)
  {
    match l {
      case Ingest(p, event) =>
        if !Known(s.db, event.eventId) {
          forall id | id in s.db.rows ensures id < s.db.nextRow {
            assert RowOk(s, id);
          }
          QueuedHasRow(s.db.(events := s.db.events[p := event]), p, s.now);
        }
      case Backfill(w, pks) => BackfillKeepsSafe(project, s, pks);
      case _ =>
    }
  }

  /** What is due only shrinks, and never gains an event taken in since. */
  lemma {:induction false} OnlyOldEventsAreDue(project: Event -> int, run: Run, i: nat, j: nat)
    requires IsRun(project, run) && i <= j < |run.states|
    ensures Due(run.states[j].db) <= Due(run.states[i].db)
  {
    if i < j {
      OnlyOldEventsAreDue(project, run, i, j - 1);
      EveryStateIsSafe(project, run, j - 1);
      assert StepOk(project, run, j - 1);
      forall pk | pk in Due(run.states[j].db) ensures pk in Due(run.states[j - 1].db) {
        EventsPersist(project, run.states[j - 1], run.labels[j - 1], pk);
        if HasRow(run.states[j - 1].db, pk) {
          StaysQueued(project, run.states[j - 1], run.labels[j - 1], pk);
        }
      }
    }
  }

  /** Every event has a row, or was there before the run and is still due. */
  lemma EveryEventIsQueuedOrDue(project: Event -> int, run: Run, i: nat, pk: int)
    requires IsRun(project, run) && i < |run.states| && pk in run.states[i].db.events
    ensures HasRow(run.states[i].db, pk) || pk in run.states[0].db.events
    ensures HasRow(run.states[i].db, pk) <==> pk !in Due(run.states[i].db)
  {
    OnlyOldEventsAreDue(project, run, 0, i);
    if !HasRow(run.states[i].db, pk) {
      assert pk in Due(run.states[i].db);
      assert pk in Due(run.states[0].db);
    }
  }

  /** Once a worker has seen the backfill complete, it stays complete. */
  lemma CompleteStaysComplete(project: Event -> int, run: Run, i: nat, j: nat, w: int)
    requires IsRun(project, run) && i <= j < |run.states|
    requires w in run.states[i].workers && run.states[i].workers[w].backfillComplete
    ensures forall pk :: pk in run.states[j].db.events ==> HasRow(run.states[j].db, pk)
  {
    EveryStateIsSafe(project, run, i);
    assert WorkerOk(project, run.states[i], w);
    OnlyOldEventsAreDue(project, run, i, j);
    forall pk | pk in run.states[j].db.events ensures HasRow(run.states[j].db, pk) {
      assert pk !in Due(run.states[j].db);
    }
  }

  // ----- Counting failures

  /** The failure a step records for row `id`. */
  ghost predicate Fails(s: State, l: Label, id: int) {
    && Enabled(s, l) && l.RecordItem?
    && var r := s.workers[l.worker].phase.results[0];
       r.id == id && !r.ok
  }

  /** A recorded failure raises the count by one exactly when the report knew
      the row's count; whoever still holds the lease knows it. */
  lemma FailureRaisesByOne(project: Event -> int, s: State, l: Label, id: int)
    requires Safe(project, s) && Fails(s, l, id)
    ensures id in s.db.rows && id in After(project, s, l).db.rows
    ensures var row, after := s.db.rows[id], After(project, s, l).db.rows[id];
      var r := s.workers[l.worker].phase.results[0];
      && (after.attempts == row.attempts + 1 <==> r.attempts == row.attempts)
      && (row.claimedBy == Some(l.worker) ==> r.attempts == row.attempts)
      && 1 <= after.attempts <= MAX_ATTEMPTS && after.claimedAt.None?
      && (row.deadAt.None? ==> (after.deadAt.Some? <==> after.attempts == MAX_ATTEMPTS))
      && (after.deadAt.None? ==> after.availableAt == s.now + RetryDelay(after.attempts))
  {
    var w := l.worker;
    assert WorkerOk(project, s, w);
    assert ResultOk(s, w, s.workers[w].phase.results[0]);
    assert RowOk(s, id);
  }

  ghost function Failures(run: Run, id: int, n: nat): nat
    requires |run.states| == |run.labels| + 1 && n <= |run.labels|
  {
    if n == 0 then 0 else Failures(run, id, n - 1) + if Fails(run.states[n - 1], run.labels[n - 1], id) then 1 else 0
  }

  /** Only whoever holds the row's lease reports a failure of it. */
  ghost predicate HolderReports(run: Run, id: int, n: nat)
    requires |run.states| == |run.labels| + 1 && n <= |run.labels|
  {
    forall i :: 0 <= i < n && Fails(run.states[i], run.labels[i], id) ==>
      HeldBy(run.states[i], id, run.labels[i].worker)
  }

  ghost predicate HeldBy(s: State, id: int, w: int) {
    id in s.db.rows && s.db.rows[id].claimedBy == Some(w)
  }

  /** A step that records no failure of a row leaves its count and its dead letter. */
  lemma CountKept(project: Event -> int, s: State, l: Label, id: int)
    requires Safe(project, s) && Enabled(s, l) && !Fails(s, l, id) && id in s.db.rows
    ensures id in After(project, s, l).db.rows
    ensures After(project, s, l).db.rows[id].attempts == s.db.rows[id].attempts
    ensures After(project, s, l).db.rows[id].deadAt == s.db.rows[id].deadAt
  {
    RowsPersist(project, s, l, id);
  }

  /** A row that just appeared counts nothing. */
  lemma NewRowsCountNothing(project: Event -> int, s: State, l: Label, id: int)
    requires Safe(project, s) && Enabled(s, l) && id !in s.db.rows && id in After(project, s, l).db.rows
    ensures After(project, s, l).db.rows[id].attempts == 0 && After(project, s, l).db.rows[id].deadAt.None?
    ensures !Fails(s, l, id)
  {
    match l {
      case Ingest(pk, event) =>
      case Backfill(w, pks) => QueuedRowsAreNew(s.db, pks, s.now, id);
      case _ =>
    }
  }

  lemma {:induction false} QueuedRowsAreNew(t: Tables, pks: seq<int>, now: int, id: int)
    requires id !in t.rows && id in QueuedAll(t, pks, now).rows
    ensures QueuedAll(t, pks, now).rows[id].attempts == 0 && QueuedAll(t, pks, now).rows[id].deadAt.None?
  {
    if pks != [] && id in QueuedAll(t, pks[..|pks| - 1], now).rows {
      QueuedRowsAreNew(t, pks[..|pks| - 1], now, id);
    }
  }

  lemma UnknownRowsDoNotFail(project: Event -> int, s: State, l: Label, id: int)
    requires Safe(project, s) && Enabled(s, l) && id !in s.db.rows
    ensures !Fails(s, l, id)
  {
    if l.RecordItem? {
      assert WorkerOk(project, s, l.worker);
      assert ResultOk(s, l.worker, s.workers[l.worker].phase.results[0]);
    }
  }

  /** When only lease holders report, a row's count is the number of its
      failures, at most ten are ever reported, and the tenth is its dead letter. */
  lemma {:induction false} CountsAreFailures(project: Event -> int, run: Run, id: int, n: nat)
    requires IsRun(project, run) && n <= |run.labels| && HolderReports(run, id, n)
    ensures id !in run.states[n].db.rows ==> Failures(run, id, n) == 0
    ensures id in run.states[n].db.rows ==>
              && run.states[n].db.rows[id].attempts == Failures(run, id, n) <= MAX_ATTEMPTS
              && (run.states[n].db.rows[id].deadAt.Some? <==> Failures(run, id, n) == MAX_ATTEMPTS)
  {
    if n > 0 {
      var s, l := run.states[n - 1], run.labels[n - 1];
      CountsAreFailures(project, run, id, n - 1);
      EveryStateIsSafe(project, run, n - 1);
      assert StepOk(project, run, n - 1);
      if id !in s.db.rows {
        UnknownRowsDoNotFail(project, s, l, id);
        if id in run.states[n].db.rows {
          NewRowsCountNothing(project, s, l, id);
        }
      } else if Fails(s, l, id) {
        assert HeldBy(s, id, l.worker);
        FailureRaisesByOne(project, s, l, id);
      } else {
        CountKept(project, s, l, id);
      }
    }
  }

  // ----- A late report

  function Body(): Event {
    Event("e", 0)
  }

  /** One event older than the outbox, and nothing else. */
  function Beginning(): State {
    State(Tables(map[1 := Body()], map[], 1), map[], map[], {}, 0)
  }

  function LateRow(attempts: nat, availableAt: int, claim: Option<(int, int)>): Row {
    Row(1, Upsert, attempts, availableAt, if claim.Some? then Some(claim.value.0) else None,
        if claim.Some? then Some(claim.value.1) else None, None, None)
  }

  /** The state in which workers 1 and 2 are in the given phases. */
  function LateState(row: Row, one: Phase, two: Phase, sent: set<BulkOperation>, now: int): State {
    State(Tables(map[1 := Body()], map[1 := row], 2), map[],
          map[1 := Worker(one, false), 2 := Worker(two, false)], sent, now)
  }

  /** What every lease of the row sends. */
  function Sent(project: Event -> int): set<BulkOperation> {
    {Index(1, project(Body()))}
  }

  function LateTask(project: Event -> int, attempts: nat): Task {
    Task(1, attempts, Index(1, project(Body())))
  }

  function Writing(project: Event -> int, attempts: nat): Phase {
    Applying([LateTask(project, attempts)], [])
  }

  function Failed(attempts: nat): Phase {
    Recording([TaskResult(1, attempts, false)])
  }

  /** Worker 1 still writing what it took first. */
  function Late(project: Event -> int, row: Row, two: Phase, now: int): State {
    LateState(row, Writing(project, 0), two, Sent(project), now)
  }

  /** One more step of a run. */
  lemma Extended(project: Event -> int, run: Run, l: Label, s: State) returns (more: Run)
    requires IsRun(project, run) && Enabled(run.states[|run.labels|], l)
    requires s == After(project, run.states[|run.labels|], l)
    ensures IsRun(project, more) && more == Run(run.states + [s], run.labels + [l])
  {
    more := Run(run.states + [s], run.labels + [l]);
    forall i | 0 <= i < |more.labels| ensures StepOk(project, more, i) {
      if i < |run.labels| {
        assert StepOk(project, run, i);
      }
    }
  }

  lemma LateClaim(project: Event -> int, row: Row, now: int, worker: int)
    requires row.event == 1 && row.operation == Upsert
    ensures var t := Tables(map[1 := Body()], map[1 := row], 2);
      && ClaimedAll(t, Elements([1]), worker, now)
         == t.(rows := map[1 := row.(claimedAt := Some(now), claimedBy := Some(worker))])
      && Applying(PreparedAll(project, t, [1]), []) == Writing(project, row.attempts)
      && Operations(PreparedAll(project, t, [1])) == Sent(project)
  {
    var t := Tables(map[1 := Body()], map[1 := row], 2);
    var held := row.(claimedAt := Some(now), claimedBy := Some(worker));
    assert 1 in Elements([1]) by { assert [1][0] == 1; }
    assert ClaimedAll(t, Elements([1]), worker, now).rows == map[1 := held];
    assert PreparedAll(project, t, [1]) == [LateTask(project, row.attempts)];
  }

  lemma LateItem(project: Event -> int, attempts: nat)
    ensures ItemDone(Writing(project, attempts), false) == Failed(attempts)
    ensures ResultDone(Failed(attempts)) == Idle
  {
  }

  /** Worker 2 takes the row, fails and records it, counting one more. */
  lemma FailsOnce(project: Event -> int, run: Run, row: Row, now: int) returns (more: Run)
    requires IsRun(project, run) && row.event == 1 && row.operation == Upsert && row.attempts + 1 < MAX_ATTEMPTS
    requires row.Claimable(now)
    requires run.states[|run.labels|] == Late(project, row, Idle, now)
    ensures IsRun(project, more)
    ensures more.states[|more.labels|]
            == Late(project, RecordedRow(row, TaskResult(1, row.attempts, false), now), Idle, now)
  {
    var held := row.(claimedAt := Some(now), claimedBy := Some(2));
    var two := Writing(project, row.attempts);
    LateClaim(project, row, now, 2);
    LateItem(project, row.attempts);
    more := Extended(project, run, Claim(2, [1]), Late(project, held, two, now));
    more := Extended(project, more, ApplyItem(2, false, false),
                     Late(project, held, Failed(row.attempts), now));
    more := Extended(project, more, RecordItem(2),
                     Late(project, RecordedRow(row, TaskResult(1, row.attempts, false), now), Idle, now));
  }

  /** Worker 1 takes the row, then its lease runs out. */
  lemma LeaseRunsOut(project: Event -> int) returns (run: Run)
    ensures IsRun(project, run)
    ensures run.states[|run.labels|] == Late(project, LateRow(0, 0, Some((0, 1))), Idle, 121)
  {
    var s0 := Beginning();
    var one := s0.(workers := map[1 := Worker(Idle, false)]);
    var both := s0.(workers := map[1 := Worker(Idle, false), 2 := Worker(Idle, false)]);
    run := Run([s0], []);
    run := Extended(project, run, Start(1), one);
    run := Extended(project, run, Start(2), both);
    run := Queues(project, run, both);
    run := Takes(project, run);
    run := Extended(project, run, Tick(121), Late(project, LateRow(0, 0, Some((0, 1))), Idle, 121));
  }

  lemma Queues(project: Event -> int, run: Run, both: State) returns (more: Run)
    requires IsRun(project, run) && run.states[|run.labels|] == both
    requires both == Beginning().(workers := map[1 := Worker(Idle, false), 2 := Worker(Idle, false)])
    ensures IsRun(project, more)
    ensures more.states[|more.labels|] == LateState(LateRow(0, 0, None), Idle, Idle, {}, 0)
  {
    assert [1][..0] == [];
    assert QueuedAll(both.db, [1], 0) == Queued(both.db, 1, 0);
    more := Extended(project, run, Backfill(1, [1]), LateState(LateRow(0, 0, None), Idle, Idle, {}, 0));
  }

  lemma Takes(project: Event -> int, run: Run) returns (more: Run)
    requires IsRun(project, run) && run.states[|run.labels|] == LateState(LateRow(0, 0, None), Idle, Idle, {}, 0)
    ensures IsRun(project, more)
    ensures more.states[|more.labels|] == Late(project, LateRow(0, 0, Some((0, 1))), Idle, 0)
  {
    LateClaim(project, LateRow(0, 0, None), 0, 1);
    more := Extended(project, run, Claim(1, [1]), Late(project, LateRow(0, 0, Some((0, 1))), Idle, 0));
  }

  /** A worker whose lease ran out reports its failure after another's two:
      the count falls from two back to one. */
  lemma LateReportLowersCount(project: Event -> int) returns (run: Run)
    ensures IsRun(project, run) && |run.labels| > 0
    ensures var n := |run.labels|;
      && Fails(run.states[n - 1], run.labels[n - 1], 1)
      && 1 in run.states[n - 1].db.rows && 1 in run.states[n].db.rows
      && run.states[n - 1].db.rows[1].attempts == 2 && run.states[n].db.rows[1].attempts == 1
  {
    run := LeaseRunsOut(project);
    run := FailsOnce(project, run, LateRow(0, 0, Some((0, 1))), 121);
    var once := RecordedRow(LateRow(0, 0, Some((0, 1))), TaskResult(1, 0, false), 121);
    run := Extended(project, run, Tick(200), Late(project, once, Idle, 200));
    run := FailsOnce(project, run, once, 200);
    var twice := RecordedRow(once, TaskResult(1, 1, false), 200);
    run := Reports(project, run, twice, 200);
  }

  lemma Reports(project: Event -> int, run: Run, row: Row, now: int) returns (more: Run)
    requires IsRun(project, run) && run.states[|run.labels|] == Late(project, row, Idle, now)
    ensures IsRun(project, more) && |more.labels| > 0
    ensures var n := |more.labels|;
      && Fails(more.states[n - 1], more.labels[n - 1], 1)
      && more.states[n - 1].db.rows == map[1 := row]
      && more.states[n].db.rows == map[1 := RecordedRow(row, TaskResult(1, 0, false), now)]
  {
    LateItem(project, 0);
    more := Extended(project, run, ApplyItem(1, false, false), LateState(row, Failed(0), Idle, Sent(project), now));
    more := Extended(project, more, RecordItem(1),
                     LateState(RecordedRow(row, TaskResult(1, 0, false), now), Idle, Idle, Sent(project), now));
  }
}
