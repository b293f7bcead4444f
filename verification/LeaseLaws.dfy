/** How long a row is held, when it may be taken, and what a report makes of it. */
module LeaseLaws {
  import opened Collections
  import opened Outbox
  import opened OutboxProtocol
  import opened OutboxRuns

  /** Step `i` of a run takes row `id`. */
  ghost predicate Takes(run: Run, i: nat, id: int) {
    i < |run.labels| && run.labels[i].Claim? && id in run.labels[i].ids
  }

  /** The outcome of row `id` that a step records. */
  ghost predicate Reports(s: State, l: Label, id: int) {
    && l.RecordItem? && l.worker in s.workers
    && s.workers[l.worker].phase.Recording? && s.workers[l.worker].phase.results != []
    && s.workers[l.worker].phase.results[0].id == id
  }

  /** Between `i` and `j` nothing is recorded of row `id`. */
  ghost predicate Unreported(run: Run, i: nat, j: nat, id: int)
    requires |run.states| == |run.labels| + 1 && j <= |run.labels|
  {
    forall k :: i < k < j ==> !Reports(run.states[k], run.labels[k], id)
  }

  /** A row that is taken is not processed, not dead, and due. */
  lemma TakenRowsAreDue(project: Event -> int, run: Run, i: nat, id: int)
    requires IsRun(project, run) && Takes(run, i, id)
    ensures id in run.states[i].db.rows
    ensures var row := run.states[i].db.rows[id];
      row.processedAt.None? && row.deadAt.None? && row.availableAt <= run.states[i].now
  {
    assert StepOk(project, run, i);
  }

  lemma TakingLeases(project: Event -> int, run: Run, i: nat, id: int)
    requires IsRun(project, run) && Takes(run, i, id)
    ensures id in run.states[i + 1].db.rows
    ensures run.states[i + 1].db.rows[id].claimedAt == Some(run.states[i].now)
    ensures run.states[i + 1].db.rows[id].claimedBy == Some(run.labels[i].worker)
  {
    assert StepOk(project, run, i);
  }

  lemma {:induction false} TimeGoesOn(project: Event -> int, run: Run, i: nat, j: nat)
    requires IsRun(project, run) && i <= j < |run.states|
    ensures run.states[i].now <= run.states[j].now
  {
    if i < j {
      TimeGoesOn(project, run, i, j - 1);
      assert StepOk(project, run, j - 1);
    }
  }

  /** Until something is recorded of it, a row is held since `i` or later. */
  lemma {:induction false} StaysLeased(project: Event -> int, run: Run, i: nat, j: nat, id: int)
    requires IsRun(project, run) && Takes(run, i, id) && i < j < |run.states|
    requires j <= |run.labels| && Unreported(run, i, j, id)
    ensures id in run.states[j].db.rows && run.states[j].db.rows[id].claimedAt.Some?
    ensures run.states[i].now <= run.states[j].db.rows[id].claimedAt.value
  {
    if j == i + 1 {
      TakingLeases(project, run, i, id);
    } else {
      StaysLeased(project, run, i, j - 1, id);
      assert StepOk(project, run, j - 1);
      EveryStateIsSafe(project, run, j - 1);
      RowsPersist(project, run.states[j - 1], run.labels[j - 1], id);
      TimeGoesOn(project, run, i, j - 1);
    }
  }

  /** A row is not taken again within 120 seconds, unless its outcome is
      recorded in between. */
  lemma LeasesExclude(project: Event -> int, run: Run, i: nat, j: nat, id: int)
    requires IsRun(project, run) && i < j && Takes(run, i, id) && Takes(run, j, id)
    requires Unreported(run, i, j, id)
    ensures run.states[j].now > run.states[i].now + 120
  {
    StaysLeased(project, run, i, j, id);
    assert StepOk(project, run, j);
  }

  // ----- Reports

  /** What a report makes of its row: done for good; put off, leaving the lease,
      by as long as the failures ask; or given up with the tenth. */
  lemma ReportsSettle(project: Event -> int, s: State, l: Label, id: int)
    requires Safe(project, s) && Enabled(s, l) && Reports(s, l, id)
    ensures id in s.db.rows && id in After(project, s, l).db.rows
    ensures var row, after := s.db.rows[id], After(project, s, l).db.rows[id];
      var r := s.workers[l.worker].phase.results[0];
      && after.event == row.event && after.operation == row.operation
      && after.claimedAt.None? && after.claimedBy.None?
      && (r.ok ==> after.processedAt == Some(s.now) && after.deadAt == row.deadAt
                   && after.attempts == row.attempts && after.availableAt == row.availableAt)
      && (!r.ok ==> after.processedAt == row.processedAt && after.attempts == r.attempts + 1)
      && (!r.ok && r.attempts < 9 ==>
            after.deadAt == row.deadAt && after.availableAt == s.now + [2, 4, 8, 16, 32, 64, 128, 256, 256][r.attempts])
      && (!r.ok && r.attempts >= 9 ==> after.deadAt == Some(s.now) && after.availableAt == row.availableAt)
  {
    var r := s.workers[l.worker].phase.results[0];
    assert WorkerOk(project, s, l.worker) && ResultOk(s, l.worker, r);
    if r.attempts < 9 {
      DelaysInSeconds(r.attempts + 1);
    }
  }

  /** The delays, in seconds. */
  lemma DelaysInSeconds(attempts: nat)
    requires 1 <= attempts <= 9
    ensures RetryDelay(attempts) == [2, 4, 8, 16, 32, 64, 128, 256, 256][attempts - 1]
  {
    assert Pow2(4) == 16 && Pow2(8) == 256;
  }

  /** `after` has each row reported as its report makes it, the others as they were. */
  ghost predicate Reported(rows: map<int, Row>, rs: seq<TaskResult>, now: int, after: map<int, Row>) {
    && after.Keys == rows.Keys
    && (forall k :: 0 <= k < |rs| && rs[k].id in rows ==> after[rs[k].id] == RecordedRow(rows[rs[k].id], rs[k], now))
    && forall id :: id in rows && (forall k :: 0 <= k < |rs| ==> rs[k].id != id) ==> after[id] == rows[id]
  }

  lemma OneMoreReported(t: Tables, rs: seq<TaskResult>, r: TaskResult, now: int, before: Tables)
    requires Reported(t.rows, rs, now, before.rows) && forall k :: 0 <= k < |rs| ==> rs[k].id != r.id
    ensures Reported(t.rows, rs + [r], now, Recorded(before, r, now).rows)
  {
    var more := rs + [r];
    assert more[|rs|] == r && forall k :: 0 <= k < |rs| ==> more[k] == rs[k];
  }

  /** Reports of different rows reach each its own row, and no other. */
  lemma {:induction false} ReportsReachTheirRows(t: Tables, rs: seq<TaskResult>, now: int)
    requires forall k, l :: 0 <= k < l < |rs| ==> rs[k].id != rs[l].id
    ensures RecordedAll(t, rs, now).events == t.events && RecordedAll(t, rs, now).nextRow == t.nextRow
    ensures Reported(t.rows, rs, now, RecordedAll(t, rs, now).rows)
  {
    if rs != [] {
      var n := |rs| - 1;
      ReportsReachTheirRows(t, rs[..n], now);
      OneMoreReported(t, rs[..n], rs[n], now, RecordedAll(t, rs[..n], now));
      assert rs == rs[..n] + [rs[n]];
    }
  }

  // ----- New rows

  /** A new row asks at once for its event's projection, and nobody has it. */
  ghost predicate IsNewRow(row: Row, pk: int, now: int) {
    row == Row(pk, Upsert, 0, now, None, None, None, None)
  }

  /** Taking an event in stores it beside a new row, unless one with its
      event id is known: then nothing changes. */
  lemma IngestQueues(t: Tables, pk: int, e: Event, now: int)
    requires pk !in t.events && !HasRow(t, pk)
    ensures (exists p :: p in t.events && t.events[p].eventId == e.eventId) ==> Stored(t, pk, e, now) == t
    ensures (forall p :: p in t.events ==> t.events[p].eventId != e.eventId) ==>
              var after := Stored(t, pk, e, now);
              && after.events == t.events[pk := e] && after.nextRow == t.nextRow + 1
              && after.rows.Keys == t.rows.Keys + {t.nextRow} && IsNewRow(after.rows[t.nextRow], pk, now)
              && forall id :: id in t.rows && id != t.nextRow ==> after.rows[id] == t.rows[id]
  {
  }

  /** What is due is exactly the events no row asks to bring in. */
  lemma DueHaveNoRow(t: Tables, pk: int)
    ensures pk in Due(t) <==>
              pk in t.events && forall id :: id in t.rows && t.rows[id].operation == Upsert ==> t.rows[id].event != pk
  {
  }

  /** Queueing a due event adds one new row for it. */
  lemma DueAreQueued(t: Tables, pk: int, now: int)
    requires pk in Due(t)
    ensures Queued(t, pk, now).events == t.events && Queued(t, pk, now).nextRow == t.nextRow + 1
    ensures Queued(t, pk, now).rows.Keys == t.rows.Keys + {t.nextRow}
    ensures IsNewRow(Queued(t, pk, now).rows[t.nextRow], pk, now)
    ensures forall id :: id in t.rows && id != t.nextRow ==> Queued(t, pk, now).rows[id] == t.rows[id]
  {
  }

  /** What a row asks of the index: its event as it is stored now; the removal
      of what is gone, or of what the row asks to delete. */
  lemma PreparedOperation(project: Event -> int, t: Tables, id: int)
    requires id in t.rows
    ensures var task, row := Prepared(project, t, id), t.rows[id];
      && task.id == id && task.attempts == row.attempts
      && (row.operation == Upsert && row.event in t.events ==>
            task.operation == Index(row.event, project(t.events[row.event])))
      && (row.operation == Delete || row.event !in t.events ==> task.operation == Remove(row.event))
  {
  }

  /** What a write leaves in the index. */
  lemma WritesLand(index: map<int, int>, operation: BulkOperation)
    ensures forall pk, doc :: operation == Index(pk, doc) ==> Written(index, operation) == index[pk := doc]
    ensures forall pk :: operation == Remove(pk) ==> Written(index, operation) == index - {pk}
  {
  }
}
