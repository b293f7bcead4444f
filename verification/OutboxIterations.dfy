/** One worker's iteration as steps of the protocol. */
module OutboxIterations {
  import opened Collections
  import opened Outbox
  import opened OutboxProtocol

  /** The steps `labels` lead from `s` to `t`. */
  ghost predicate Leads(project: Event -> int, s: State, labels: seq<Label>, t: State)
    decreases |labels|
  {
    if labels == [] then s == t
    else Enabled(s, labels[0]) && Leads(project, After(project, s, labels[0]), labels[1..], t)
  }

  lemma {:induction false} LeadsOn(project: Event -> int, s: State, a: seq<Label>, m: State, b: seq<Label>, t: State)
    requires Leads(project, s, a, m) && Leads(project, m, b, t)
    ensures Leads(project, s, a + b, t)
    decreases |a|
  {
    if a == [] {
      assert a + b == b;
    } else {
      LeadsOn(project, After(project, s, a[0]), a[1..], m, b, t);
      assert (a + b)[1..] == a[1..] + b;
    }
  }

  lemma OneStep(project: Event -> int, s: State, l: Label)
    requires Enabled(s, l)
    ensures Leads(project, s, [l], After(project, s, l))
  {
    assert [l][1..] == [];
    assert Leads(project, After(project, s, l), [], After(project, s, l));
  }

  /** Worker `w` in the given phase, over the given tables. */
  ghost predicate Stands(s: State, t: Tables, w: int, worker: Worker, now: int) {
    s.db == t && w in s.workers && s.workers[w] == worker && s.now == now
  }

  /** Some steps lead from `s` to a state with these tables and this worker. */
  ghost predicate Reaches(project: Event -> int, s: State, t: Tables, w: int, worker: Worker) {
    exists labels, after :: Leads(project, s, labels, after) && Stands(after, t, w, worker, s.now)
  }

  lemma Reached(project: Event -> int, s: State, t: Tables, w: int, worker: Worker)
    requires Stands(s, t, w, worker, s.now)
    ensures Reaches(project, s, t, w, worker)
  {
    assert Leads(project, s, [], s);
  }

  /** A step, then whatever can be reached behind it. */
  lemma ReachesAfter(project: Event -> int, s: State, l: Label, t: Tables, w: int, worker: Worker)
    requires Enabled(s, l) && After(project, s, l).now == s.now
    requires Reaches(project, After(project, s, l), t, w, worker)
    ensures Reaches(project, s, t, w, worker)
  {
    var m := After(project, s, l);
    var labels, after :| Leads(project, m, labels, after) && Stands(after, t, w, worker, m.now);
    OneStep(project, s, l);
    LeadsOn(project, s, [l], m, labels, after);
  }

  // ----- Recording

  lemma {:induction false} RecordedFirst(t: Tables, rs: seq<TaskResult>, now: int)
    requires rs != []
    ensures RecordedAll(t, rs, now) == RecordedAll(Recorded(t, rs[0], now), rs[1..], now)
  {
    var n := |rs| - 1;
    if n == 0 {
      assert rs[..0] == [] && rs[1..] == [];
    } else {
      RecordedFirst(t, rs[..n], now);
      assert rs[..n][1..] == rs[1..][..n - 1];
      assert rs[1..][n - 1] == rs[n];
    }
  }

  /** The first `n` outcomes recorded, and what is left given up. */
  lemma {:induction false} Records(project: Event -> int, s: State, t: Tables, w: int, rs: seq<TaskResult>, n: nat,
                                   complete: bool)
    requires Stands(s, t, w, Worker(if rs == [] then Idle else Recording(rs), complete), s.now) && n <= |rs|
    ensures Reaches(project, s, RecordedAll(t, rs[..n], s.now), w, Worker(Idle, complete))
    decreases |rs|
  {
    if rs == [] {
      Reached(project, s, t, w, Worker(Idle, complete));
    } else if n == 0 {
      GivesUp(project, s, t, w, Recording(rs), complete);
    } else {
      var l := RecordItem(w);
      var m := After(project, s, l);
      RecordedFirst(t, rs[..n], s.now);
      assert rs[..n][1..] == rs[1..][..n - 1];
      Records(project, m, Recorded(t, rs[0], s.now), w, rs[1..], n - 1, complete);
      ReachesAfter(project, s, l, RecordedAll(t, rs[..n], s.now), w, Worker(Idle, complete));
    }
  }

  lemma GivesUp(project: Event -> int, s: State, t: Tables, w: int, phase: Phase, complete: bool)
    requires Stands(s, t, w, Worker(phase, complete), s.now)
    ensures Reaches(project, s, t, w, Worker(Idle, complete))
  {
    var l := GiveUp(w);
    Reached(project, After(project, s, l), t, w, Worker(Idle, complete));
    ReachesAfter(project, s, l, t, w, Worker(Idle, complete));
  }

  // ----- Writing

  /** Each task with an outcome, by position. */
  ghost predicate AreResults(tasks: seq<Task>, results: seq<TaskResult>) {
    && |results| == |tasks|
    && forall k :: 0 <= k < |tasks| ==> results[k].id == tasks[k].id && results[k].attempts == tasks[k].attempts
  }

  /** The items from `k` on, each written exactly when its outcome is good,
      then the first `n` outcomes recorded. */
  lemma {:induction false} AppliesAll(project: Event -> int, s: State, t: Tables, w: int, tasks: seq<Task>,
                                      results: seq<TaskResult>, k: nat, n: nat, complete: bool)
    requires AreResults(tasks, results) && k < |tasks| && n <= |results|
    requires Stands(s, t, w, Worker(Applying(tasks, results[..k]), complete), s.now)
    ensures Reaches(project, s, RecordedAll(t, results[..n], s.now), w, Worker(Idle, complete))
    decreases |tasks| - k
  {
    var ok := results[k].ok;
    var l := ApplyItem(w, ok, ok);
    var m := After(project, s, l);
    assert results[..k] + [TaskResult(tasks[k].id, tasks[k].attempts, ok)] == results[..k + 1];
    if k + 1 < |tasks| {
      AppliesAll(project, m, t, w, tasks, results, k + 1, n, complete);
    } else {
      assert results[..k + 1] == results;
      Records(project, m, t, w, results, n, complete);
    }
    ReachesAfter(project, s, l, RecordedAll(t, results[..n], s.now), w, Worker(Idle, complete));
  }

  // ----- Claiming

  lemma PreparedFromBefore(project: Event -> int, t: Tables, ids: seq<int>, tasks: seq<Task>, w: int, now: int)
    requires ArePrepared(project, ClaimedAll(t, Elements(ids), w, now), ids, tasks)
    requires forall k :: 0 <= k < |ids| ==> ids[k] in t.rows
    ensures PreparedAll(project, t, ids) == tasks
  {
    var after := ClaimedAll(t, Elements(ids), w, now);
    forall k | 0 <= k < |ids| ensures Prepared(project, t, ids[k]) == tasks[k] {
      assert tasks[k] == Prepared(project, after, ids[k]);
    }
  }

  lemma MayBeClaimed(s: State, w: int, ids: seq<int>, n: nat, locked: set<int>)
    requires InPhase(s, w, IsIdle()) && ids != [] && IsFirst(MayTake(s.db, s.now, locked), n, ids)
    ensures Enabled(s, Claim(w, ids))
  {
    forall k | 0 <= k < |ids| ensures ids[k] in s.db.rows && s.db.rows[ids[k]].Claimable(s.now) {
      assert ids[k] in ids;
    }
  }

  /** Claiming the first rows that may be taken, and all that follows: giving
      up when their events cannot be loaded, else writing and recording. */
  lemma ClaimsAndApplies(project: Event -> int, s: State, t: Tables, w: int, ids: seq<int>, tasks: seq<Task>,
                         results: seq<TaskResult>, n: nat, locked: set<int>, loads: bool, recorded: nat, complete: bool)
    requires Stands(s, t, w, Worker(Idle, complete), s.now)
    requires ids != [] ==> IsFirst(MayTake(t, s.now, locked), n, ids)
    requires AreResults(tasks, results) && recorded <= |results|
    requires if loads then ArePrepared(project, ClaimedAll(t, Elements(ids), w, s.now), ids, tasks) else tasks == []
    ensures Reaches(project, s, RecordedAll(ClaimedAll(t, Elements(ids), w, s.now), results[..recorded], s.now), w,
                    Worker(Idle, complete))
  {
    var claimed := ClaimedAll(t, Elements(ids), w, s.now);
    var after := RecordedAll(claimed, results[..recorded], s.now);
    if ids == [] {
      NothingClaimed(t, w, s.now);
      Reached(project, s, t, w, Worker(Idle, complete));
    } else {
      var l := Claim(w, ids);
      MayBeClaimed(s, w, ids, n, locked);
      var m := After(project, s, l);
      if loads {
        PreparedFromBefore(project, t, ids, tasks, w, s.now);
        assert results[..0] == [];
        AppliesAll(project, m, claimed, w, tasks, results, 0, recorded, complete);
      } else {
        GivesUp(project, m, claimed, w, m.workers[w].phase, complete);
      }
      ReachesAfter(project, s, l, after, w, Worker(Idle, complete));
    }
  }

  lemma NothingClaimed(t: Tables, worker: int, now: int)
    ensures ClaimedAll(t, Elements([]), worker, now) == t
  {
    assert ClaimedAll(t, Elements([]), worker, now).rows == t.rows;
  }

  // ----- Backfill

  /** Queueing the first due events, then seeing whether any is left after a
      batch that was not full, unless that fails. */
  lemma BackfillsThen(project: Event -> int, s: State, t: Tables, w: int, first: seq<int>, n: nat, checks: bool,
                      complete: bool, after: Tables, worker: Worker)
    requires Stands(s, t, w, Worker(Idle, false), s.now) && IsFirst(Due(t), n, first)
    requires var queued := QueuedAll(t, first, s.now); complete <==> checks && |Due(t)| < n && Due(queued) == {}
    requires forall m: State :: Stands(m, QueuedAll(t, first, s.now), w, Worker(Idle, complete), s.now) ==>
               Reaches(project, m, after, w, worker)
    ensures Reaches(project, s, after, w, worker)
  {
    var l := Backfill(w, first);
    forall k | 0 <= k < |first| ensures first[k] in s.db.events {
      assert first[k] in first;
      assert first[k] in Due(t);
    }
    var m := After(project, s, l);
    if checks && |Due(t)| < n {
      var check := CheckBackfill(w);
      var c := After(project, m, check);
      assert Stands(c, QueuedAll(t, first, s.now), w, Worker(Idle, complete), s.now);
      ReachesAfter(project, m, check, after, w, worker);
    } else {
      assert Stands(m, QueuedAll(t, first, s.now), w, Worker(Idle, complete), s.now);
    }
    ReachesAfter(project, s, l, after, w, worker);
  }
}
