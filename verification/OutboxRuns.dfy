/** What every run of the durable protocol guarantees, whatever the interleaving,
    the crashes, the clocks and the outcomes of the deliveries. */
module OutboxRuns {
  import opened Domain
  import opened OutboxRows
  import opened OutboxProtocol
  import opened OutboxClocks

  /** Runs: every step is enabled where it is taken. */
  ghost predicate Run(states: seq<State>, steps: seq<Step>, maxAttempts: int) {
    && |states| == |steps| + 1
    && states[0] == Init()
    && forall k {:trigger steps[k]} :: 0 <= k < |steps| ==>
         Enabled(states[k], steps[k]) && states[k + 1] == Apply(states[k], steps[k], maxAttempts)
  }

  lemma {:induction false} Reachable(states: seq<State>, steps: seq<Step>, maxAttempts: int, k: nat)
    requires Run(states, steps, maxAttempts) && k < |states|
    ensures Inv(states[k], maxAttempts)
  {
    if k > 0 {
      Reachable(states, steps, maxAttempts, k - 1);
      StepKeeps(states[k - 1], steps[k - 1], maxAttempts);
    }
  }

  /** No lost or premature finalisation. In every state of every run an activation with
      instructions is pending exactly while one of its instruction tasks is open. */
  lemma NeitherLostNorPremature(states: seq<State>, steps: seq<Step>, maxAttempts: int, k: nat, a: Id)
    requires Run(states, steps, maxAttempts) && k < |states|
    requires a in states[k].db.activations
    ensures states[k].db.activations[a].status == ActPending <==>
              || states[k].db.activations[a].instructionCount == 0
              || exists i: nat :: Open(states[k].db.tasks, a, i)
  {
    Reachable(states, steps, maxAttempts, k);
  }

  /** An activation of no instructions has no task whose outcome could ever close it. */
  lemma EmptyActivationNeverCloses(states: seq<State>, steps: seq<Step>, maxAttempts: int, k: nat, a: Id)
    requires Run(states, steps, maxAttempts) && k < |states|
    requires a in states[k].db.activations && states[k].db.activations[a].instructionCount == 0
    ensures states[k].db.activations[a].status == ActPending
    ensures forall i: nat :: ResourceTask(a, i) !in states[k].db.tasks
  {
    Reachable(states, steps, maxAttempts, k);
  }

  /** The ledger agrees in every reachable state: the statuses match, the counts add up, the
      reservation's power is the sum of the allocations left, which once closed are those of the
      delivered instructions, and the closing webhook is there exactly when asked for and closed. */
  lemma LedgerAgrees(states: seq<State>, steps: seq<Step>, maxAttempts: int, k: nat, a: Id)
    requires Run(states, steps, maxAttempts) && k < |states|
    requires a in states[k].db.activations
    ensures var db := states[k].db;
            var act := db.activations[a];
            && act.reservation in db.reservations && act.reservation in db.allocations
            && var res := db.reservations[act.reservation];
               var rows := db.allocations[act.reservation];
            && (act.status == ActPending <==> res.status == ACTIVATED)
            && (act.status == ActCompleted <==> res.status == COMPLETED)
            && (act.status == ActFailed <==> res.status == FAILED)
            && (act.status != ActPending ==>
                  && act.acceptedCount + act.rejectedCount == act.instructionCount
                  && act.acceptedCount == |DeliveredIndices(db.tasks, a)|
                  && (act.status == ActFailed <==> act.rejectedCount != 0)
                  && forall i: nat :: HasAllocation(rows, i) <==> i in DeliveredIndices(db.tasks, a))
            && res.allocatedPower == TotalPower(rows)
            && (WebhookTask(a, ActivationCompleted) in db.tasks <==>
                  res.callback.Some? && act.status == ActCompleted)
            && (WebhookTask(a, ActivationFailed) in db.tasks <==>
                  res.callback.Some? && act.status == ActFailed)
  {
    Reachable(states, steps, maxAttempts, k);
    assert ActivationAgrees(states[k].db, a);
  }

  /** A reservation was activated exactly if an activation names it, and by one activation only. */
  lemma OneActivationPerReservation(states: seq<State>, steps: seq<Step>, maxAttempts: int, k: nat, r: Id)
    requires Run(states, steps, maxAttempts) && k < |states|
    requires r in states[k].db.reservations
    ensures states[k].db.reservations[r].status in {ACTIVATED, COMPLETED, FAILED} <==>
              exists a :: a in states[k].db.activations && states[k].db.activations[a].reservation == r
    ensures forall a, b :: a in states[k].db.activations && b in states[k].db.activations && a != b ==>
              states[k].db.activations[a].reservation != r || states[k].db.activations[b].reservation != r
  {
    Reachable(states, steps, maxAttempts, k);
    var db := states[k].db;
    if ActivatedBefore(db, r) {
      var a :| a in db.activations && db.activations[a].reservation == r;
      assert ActivationAgrees(db, a);
    }
  }

  // ----- Lease fencing

  /** Claims and outcomes of one event are ranked: claim n, outcome n, claim n + 1, ... */
  ghost function Rank(entry: Entry): nat {
    2 * entry.attempts + (if entry.Recorded? then 1 else 0)
  }

  ghost function RowRank(row: TaskRow): nat {
    2 * row.attempts + (if row.status == Processing || row.status == Pending then 0 else 1)
  }

  ghost predicate Ordered(log: seq<Entry>) {
    forall i, j :: 0 <= i < j < |log| && log[i].event == log[j].event ==> Rank(log[i]) < Rank(log[j])
  }

  ghost predicate EntryFits(tasks: Tasks, entry: Entry) {
    && entry.event in tasks
    && 1 <= entry.attempts
    && Rank(entry) <= RowRank(tasks[entry.event])
    && (entry.Recorded? && entry.attempts == tasks[entry.event].attempts ==> entry.status == tasks[entry.event].status)
    && (entry.Recorded? && Terminal(entry.status) ==> tasks[entry.event].attempts == entry.attempts)
  }

  ghost predicate HasRecord(log: seq<Entry>, e: EventId, attempts: nat, status: TaskStatus) {
    exists j :: 0 <= j < |log| && log[j].Recorded? && log[j].event == e && log[j].attempts == attempts && log[j].status == status
  }

  ghost predicate Logged(tasks: Tasks, log: seq<Entry>, e: EventId)
    requires e in tasks
  {
    && (forall n: nat :: 1 <= n <= tasks[e].attempts ==> Claimed(e, n) in log)
    && (tasks[e].status !in {Pending, Processing} ==> HasRecord(log, e, tasks[e].attempts, tasks[e].status))
  }

  ghost predicate LogInv(tasks: Tasks, log: seq<Entry>) {
    && Ordered(log)
    && (forall i :: 0 <= i < |log| ==> EntryFits(tasks, log[i]))
    && (forall e :: e in tasks ==> Logged(tasks, log, e))
  }

  lemma LogGrows(tasks: Tasks, log: seq<Entry>, e: EventId, row: TaskRow, entry: Entry)
    requires LogInv(tasks, log)
    requires e in tasks && entry.event == e && 1 <= entry.attempts == row.attempts
    requires !Terminal(tasks[e].status)
    requires RowRank(tasks[e]) < Rank(entry) == RowRank(row)
    requires if entry.Claimed? then row.status == Processing && row.attempts == tasks[e].attempts + 1
             else entry.status == row.status && row.status !in {Pending, Processing} && row.attempts == tasks[e].attempts
    ensures LogInv(tasks[e := row], log + [entry])
  {
    var tasks', log' := tasks[e := row], log + [entry];
    forall i | 0 <= i < |log'|
      ensures EntryFits(tasks', log'[i])
    {
      if i < |log| {
        assert EntryFits(tasks, log[i]);
      }
    }
    forall x | x in tasks'
      ensures Logged(tasks', log', x)
    {
      assert Logged(tasks, log, x);
      if x == e {
        assert log'[|log|] == entry;
      } else if tasks[x].status !in {Pending, Processing} {
        RecordStays(log, entry, x, tasks[x].attempts, tasks[x].status);
      }
    }
  }

  lemma RecordStays(log: seq<Entry>, entry: Entry, e: EventId, attempts: nat, status: TaskStatus)
    requires HasRecord(log, e, attempts, status)
    ensures HasRecord(log + [entry], e, attempts, status)
  {
    var j :| 0 <= j < |log| && log[j].Recorded? && log[j].event == e && log[j].attempts == attempts && log[j].status == status;
    assert (log + [entry])[j] == log[j];
  }

  /** Rows that appear unclaimed say nothing in the log. */
  lemma LogIgnoresNewRows(tasks: Tasks, tasks': Tasks, log: seq<Entry>)
    requires LogInv(tasks, log)
    requires forall e :: e in tasks ==> e in tasks' && tasks'[e] == tasks[e]
    requires forall e :: e in tasks' && e !in tasks ==> tasks'[e].status == Pending && tasks'[e].attempts == 0
    ensures LogInv(tasks', log)
  {
    forall i | 0 <= i < |log|
      ensures EntryFits(tasks', log[i])
    {
      assert EntryFits(tasks, log[i]);
    }
    forall e | e in tasks'
      ensures Logged(tasks', log, e)
    {
      if e in tasks {
        assert Logged(tasks, log, e);
      }
    }
  }

  /** A commit publishes the own row and at most one new row. */
  lemma CommitEffect(db: Db, tx: Tx)
    requires tx.event in db.tasks && Committable(db, tx)
    ensures var written := db.tasks[tx.event := tx.row];
            var tasks' := Committed(db, tx).tasks;
            && (forall e :: e in written ==> e in tasks' && tasks'[e] == written[e])
            && (forall e :: e in tasks' && e !in written ==> tasks'[e].status == Pending && tasks'[e].attempts == 0)
  {
  }

  lemma CommitKeepsLog(db: Db, log: seq<Entry>, tx: Tx, maxAttempts: int)
    requires LogInv(db.tasks, log)
    requires TxInv(db.tasks, db.activations, tx, maxAttempts) && Committable(db, tx)
    ensures LogInv(Committed(db, tx).tasks, log + [Recorded(tx.event, tx.attempts, tx.row.status, tx.outcome)])
  {
    CommitEffect(db, tx);
    var entry := Recorded(tx.event, tx.attempts, tx.row.status, tx.outcome);
    LogGrows(db.tasks, log, tx.event, tx.row, entry);
    LogIgnoresNewRows(db.tasks[tx.event := tx.row], Committed(db, tx).tasks, log + [entry]);
  }

  lemma ClaimKeepsLog(tasks: Tasks, log: seq<Entry>, e: EventId, lockedUntil: Time, now: Time)
    requires LogInv(tasks, log) && e in tasks && Due(tasks[e], now)
    ensures var row := ClaimedRow(tasks[e], lockedUntil); LogInv(tasks[e := row], log + [Claimed(e, row.attempts)])
  {
    var row := ClaimedRow(tasks[e], lockedUntil);
    LogGrows(tasks, log, e, row, Claimed(e, row.attempts));
  }

  lemma ActivateKeepsLog(db: Db, log: seq<Entry>, r: Id, a: Id, now: Time, maxAttempts: int)
    requires LogInv(db.tasks, log) && TasksInv(db.tasks, db.activations, maxAttempts)
    requires a !in db.activations && r in db.reservations && r in db.allocations
    ensures LogInv(Activate(db, r, a, now).tasks, log)
  {
    ActivatedTasks(db.tasks, db.activations, a, |db.allocations[r]|, db.reservations[r].callback.Some?, now, maxAttempts);
    LogIgnoresNewRows(db.tasks, Activate(db, r, a, now).tasks, log);
  }

  lemma OtherStepsLeaveTasks(s: State, step: Step, maxAttempts: int)
    requires Enabled(s, step)
    requires !step.ClaimRow? && !step.ResolveCommit? && !step.ActivateCommit?
    ensures Apply(s, step, maxAttempts).db.tasks == s.db.tasks
    ensures Apply(s, step, maxAttempts).db.activations == s.db.activations
    ensures Apply(s, step, maxAttempts).log == s.log
  {
  }

  /** Only a claim, a commit and an activation touch the tasks or the log. */
  lemma StepKeepsLog(s: State, step: Step, maxAttempts: int)
    requires Inv(s, maxAttempts) && LogInv(s.db.tasks, s.log) && Enabled(s, step)
    ensures LogInv(Apply(s, step, maxAttempts).db.tasks, Apply(s, step, maxAttempts).log)
  {
    if step.ClaimRow? {
      ClaimKeepsLog(s.db.tasks, s.log, step.e, step.lockedUntil, step.now);
    } else if step.ResolveCommit? {
      CommitKeepsLog(s.db, s.log, s.txs[step.t], maxAttempts);
    } else if step.ActivateCommit? {
      ActivateKeepsLog(s.db, s.log, step.r, step.a, step.now, maxAttempts);
    } else {
      OtherStepsLeaveTasks(s, step, maxAttempts);
    }
  }

  lemma {:induction false} ReachableLog(states: seq<State>, steps: seq<Step>, maxAttempts: int, k: nat)
    requires Run(states, steps, maxAttempts) && k < |states|
    ensures LogInv(states[k].db.tasks, states[k].log)
  {
    if k > 0 {
      Reachable(states, steps, maxAttempts, k - 1);
      ReachableLog(states, steps, maxAttempts, k - 1);
      StepKeepsLog(states[k - 1], steps[k - 1], maxAttempts);
    }
  }

  /** Lease fencing. No two claims of an event share an attempt number; an outcome is recorded at
      most once per attempt, only for the latest claim made so far, and nothing follows a
      terminal outcome. */
  lemma LeaseFencing(states: seq<State>, steps: seq<Step>, maxAttempts: int, k: nat, i: nat, j: nat)
    requires Run(states, steps, maxAttempts) && k < |states|
    requires i < j < |states[k].log| && states[k].log[i].event == states[k].log[j].event
    ensures var x, y := states[k].log[i], states[k].log[j];
            && (x.Claimed? && y.Claimed? ==> x.attempts < y.attempts)
            && (x.Recorded? && y.Recorded? ==> x.attempts < y.attempts)
            && (x.Claimed? && y.Recorded? ==> x.attempts <= y.attempts)
            && (x.Recorded? && y.Claimed? ==> x.attempts < y.attempts)
            && !(x.Recorded? && Terminal(x.status))
  {
    ReachableLog(states, steps, maxAttempts, k);
    var x, y := states[k].log[i], states[k].log[j];
    assert EntryFits(states[k].db.tasks, x) && EntryFits(states[k].db.tasks, y);
    assert Rank(x) < Rank(y);
  }

  /** The log is complete: a row's counter counts its claims, and its outcome was recorded. */
  lemma AttemptsCountClaims(states: seq<State>, steps: seq<Step>, maxAttempts: int, k: nat, e: EventId)
    requires Run(states, steps, maxAttempts) && k < |states| && e in states[k].db.tasks
    ensures forall n: nat :: 1 <= n <= states[k].db.tasks[e].attempts <==> Claimed(e, n) in states[k].log
    ensures Terminal(states[k].db.tasks[e].status) ==>
              HasRecord(states[k].log, e, states[k].db.tasks[e].attempts, states[k].db.tasks[e].status)
  {
    ReachableLog(states, steps, maxAttempts, k);
    assert Logged(states[k].db.tasks, states[k].log, e);
    forall n: nat | Claimed(e, n) in states[k].log
      ensures 1 <= n <= states[k].db.tasks[e].attempts
    {
      var i :| 0 <= i < |states[k].log| && states[k].log[i] == Claimed(e, n);
      assert EntryFits(states[k].db.tasks, states[k].log[i]);
    }
  }

  lemma ActivateKeepsTerminal(db: Db, r: Id, a: Id, now: Time, maxAttempts: int, e: EventId)
    requires TasksInv(db.tasks, db.activations, maxAttempts)
    requires a !in db.activations && r in db.reservations && r in db.allocations && e in db.tasks
    ensures e in Activate(db, r, a, now).tasks && Activate(db, r, a, now).tasks[e] == db.tasks[e]
  {
    ActivatedTasks(db.tasks, db.activations, a, |db.allocations[r]|, db.reservations[r].callback.Some?, now, maxAttempts);
  }

  lemma TerminalStep(s: State, step: Step, maxAttempts: int, e: EventId)
    requires TasksInv(s.db.tasks, s.db.activations, maxAttempts) && Enabled(s, step)
    requires TxsInv(s.db.tasks, s.db.activations, s.txs, maxAttempts)
    requires e in s.db.tasks && Terminal(s.db.tasks[e].status)
    ensures e in Apply(s, step, maxAttempts).db.tasks
    ensures Apply(s, step, maxAttempts).db.tasks[e] == s.db.tasks[e]
  {
    if step.ResolveCommit? {
      CommitKeepsTerminal(s.db, s.txs[step.t], maxAttempts, e);
    } else if step.ActivateCommit? {
      ActivateKeepsTerminal(s.db, step.r, step.a, step.now, maxAttempts, e);
    } else if !step.ClaimRow? {
      OtherStepsLeaveTasks(s, step, maxAttempts);
    }
  }

  lemma CommitKeepsTerminal(db: Db, tx: Tx, maxAttempts: int, e: EventId)
    requires TxInv(db.tasks, db.activations, tx, maxAttempts) && Committable(db, tx)
    requires e in db.tasks && Terminal(db.tasks[e].status)
    ensures e in Committed(db, tx).tasks && Committed(db, tx).tasks[e] == db.tasks[e]
  {
    CommitEffect(db, tx);
  }

  /** DELIVERED and DEAD rows never change again. */
  lemma {:induction false} TerminalForever(
      states: seq<State>, steps: seq<Step>, maxAttempts: int, j: nat, k: nat, e: EventId)
    requires Run(states, steps, maxAttempts) && j <= k < |states|
    requires e in states[j].db.tasks && Terminal(states[j].db.tasks[e].status)
    ensures e in states[k].db.tasks && states[k].db.tasks[e] == states[j].db.tasks[e]
  {
    if j < k {
      TerminalForever(states, steps, maxAttempts, j, k - 1, e);
      Reachable(states, steps, maxAttempts, k - 1);
      TerminalStep(states[k - 1], steps[k - 1], maxAttempts, e);
    }
  }

  lemma ClosedStep(s: State, step: Step, maxAttempts: int, a: Id)
    requires TxsInv(s.db.tasks, s.db.activations, s.txs, maxAttempts) && Enabled(s, step)
    requires a in s.db.activations && s.db.activations[a].status != ActPending
    ensures a in Apply(s, step, maxAttempts).db.activations
    ensures Apply(s, step, maxAttempts).db.activations[a] == s.db.activations[a]
  {
    if step.ResolveCommit? {
      CommitKeepsClosed(s.db, s.txs[step.t], maxAttempts, a);
    } else if !step.ClaimRow? && !step.ActivateCommit? {
      OtherStepsLeaveTasks(s, step, maxAttempts);
    }
  }

  lemma CommitKeepsClosed(db: Db, tx: Tx, maxAttempts: int, a: Id)
    requires TxInv(db.tasks, db.activations, tx, maxAttempts) && Committable(db, tx)
    requires a in db.activations && db.activations[a].status != ActPending
    ensures a in Committed(db, tx).activations && Committed(db, tx).activations[a] == db.activations[a]
  {
  }

  /** An activation is closed once: its counts, status and completion time never change after. */
  lemma {:induction false} ClosedForever(
      states: seq<State>, steps: seq<Step>, maxAttempts: int, j: nat, k: nat, a: Id)
    requires Run(states, steps, maxAttempts) && j <= k < |states|
    requires a in states[j].db.activations && states[j].db.activations[a].status != ActPending
    ensures a in states[k].db.activations && states[k].db.activations[a] == states[j].db.activations[a]
  {
    if j < k {
      ClosedForever(states, steps, maxAttempts, j, k - 1, a);
      Reachable(states, steps, maxAttempts, k - 1);
      ClosedStep(states[k - 1], steps[k - 1], maxAttempts, a);
    }
  }

  /** Retries are bounded: a row waiting for a retry was claimed before and may be claimed again. */
  lemma RetriesBounded(states: seq<State>, steps: seq<Step>, maxAttempts: int, k: nat, e: EventId)
    requires Run(states, steps, maxAttempts) && k < |states| && e in states[k].db.tasks
    requires states[k].db.tasks[e].status == Retry
    ensures 1 <= states[k].db.tasks[e].attempts < maxAttempts
  {
    Reachable(states, steps, maxAttempts, k);
  }

  /** A reservation changes only by an expiry that is due, a cancellation or an activation of its own,
      or when its activation closes: each as it says. */
  lemma ReservationChanges(s: State, step: Step, maxAttempts: int, r: Id)
    requires Enabled(s, step) && r in s.db.reservations
    ensures r in Apply(s, step, maxAttempts).db.reservations
    ensures var before, after := s.db.reservations[r], Apply(s, step, maxAttempts).db.reservations[r];
            if step.Expire? then
              after == before.(status := if before.status == CONFIRMED && step.now >= before.expiresAt then EXPIRED
                                         else before.status)
            else if step.CancelCommit? && step.r == r then after == before.(status := CANCELLED)
            else if step.ActivateCommit? && step.r == r then after == before.(status := ACTIVATED)
            else after == before || ClosesFor(s, step, r)
  {
  }

  ghost predicate ClosesFor(s: State, step: Step, r: Id) {
    && step.ResolveCommit? && step.t in s.txs && s.txs[step.t].stage.Ready? && s.txs[step.t].stage.verdict.Some?
    && s.txs[step.t].event.activation in s.db.activations
    && s.db.activations[s.txs[step.t].event.activation].reservation == r
  }

  // ----- Clocks and progress

  ghost predicate LeasesHold(steps: seq<Step>) {
    forall k :: 0 <= k < |steps| ==> LeaseHolds(steps[k])
  }

  lemma {:induction false} ReachableClocks(states: seq<State>, steps: seq<Step>, maxAttempts: int, k: nat)
    requires Run(states, steps, maxAttempts) && LeasesHold(steps) && k < |states|
    ensures ClocksInv(states[k])
  {
    if k > 0 {
      Reachable(states, steps, maxAttempts, k - 1);
      ReachableClocks(states, steps, maxAttempts, k - 1);
      StepKeepsClocks(states[k - 1], steps[k - 1], maxAttempts);
    }
  }

  /** The close this transaction decided on is before the creation of its activation, which the
      check constraint on the completion time refuses. */
  ghost predicate RefusedByClock(s: State, t: nat) {
    && t in s.txs && s.txs[t].stage.Ready? && s.txs[t].stage.verdict.Some?
    && s.txs[t].event.activation in s.db.activations
    && s.txs[t].now < s.db.activations[s.txs[t].event.activation].createdAt
  }

  /** The clock is the only reason for which a transaction that is ready cannot commit. */
  lemma OnlyClocksRefuse(states: seq<State>, steps: seq<Step>, maxAttempts: int, k: nat, t: nat)
    requires Run(states, steps, maxAttempts) && k < |states|
    requires t in states[k].txs && states[k].txs[t].stage.Ready?
    ensures Committable(states[k].db, states[k].txs[t]) <==> !RefusedByClock(states[k], t)
  {
    Reachable(states, steps, maxAttempts, k);
    ReadyUnlessRefused(states[k], t, maxAttempts);
  }

  lemma ReadyUnlessRefused(s: State, t: nat, maxAttempts: int)
    requires TxsInv(s.db.tasks, s.db.activations, s.txs, maxAttempts) && ActivationsInv(s.db)
    requires t in s.txs && s.txs[t].stage.Ready?
    ensures Committable(s.db, s.txs[t]) <==> !RefusedByClock(s, t)
  {
    assert TxInv(s.db.tasks, s.db.activations, s.txs[t], maxAttempts);
    if !RefusedByClock(s, t) {
      ReadyCommits(s.db, s.txs[t], maxAttempts);
    }
  }

  lemma NoneRefused(states: seq<State>, steps: seq<Step>, maxAttempts: int, k: nat, t: nat)
    requires Run(states, steps, maxAttempts) && LeasesHold(steps) && k < |states|
    ensures !RefusedByClock(states[k], t)
  {
    ReachableClocks(states, steps, maxAttempts, k);
  }

  /** The transactions in flight never block each other for good: one of them can always go on. */
  lemma SomeTransactionMoves(states: seq<State>, steps: seq<Step>, maxAttempts: int, k: nat, t: nat)
    requires Run(states, steps, maxAttempts) && LeasesHold(steps) && k < |states|
    requires t in states[k].txs
    ensures exists u :: u in states[k].txs &&
              (Enabled(states[k], ResolveLock(u)) || Enabled(states[k], ResolveRead(u)) || Enabled(states[k], ResolveCommit(u)))
  {
    Reachable(states, steps, maxAttempts, k);
    ReachableClocks(states, steps, maxAttempts, k);
    var s := states[k];
    if ActivationFree(s, s.txs[t].event.activation) && s.txs[t].stage == Written {
      assert Enabled(s, ResolveLock(t));
    } else {
      var u :| u in s.txs && s.txs[u].stage != Written;
      assert TxClocked(s.txs[u], s.db.activations);
      HolderMoves(s, u, maxAttempts);
    }
  }

  lemma HolderMoves(s: State, u: nat, maxAttempts: int)
    requires u in s.txs && s.txs[u].stage != Written
    requires TxInv(s.db.tasks, s.db.activations, s.txs[u], maxAttempts) && ActivationsInv(s.db)
    requires NotBefore(s.db.activations, s.txs[u].event.activation, s.txs[u].now)
    ensures Enabled(s, ResolveRead(u)) || Enabled(s, ResolveCommit(u))
  {
    if s.txs[u].stage.Ready? {
      ReadyCommits(s.db, s.txs[u], maxAttempts);
      assert Enabled(s, ResolveCommit(u));
    } else {
      assert Enabled(s, ResolveRead(u));
    }
  }

  lemma ReadyCommits(db: Db, tx: Tx, maxAttempts: int)
    requires TxInv(db.tasks, db.activations, tx, maxAttempts) && ActivationsInv(db) && tx.stage.Ready?
    requires tx.stage.verdict.Some? ==> NotBefore(db.activations, tx.event.activation, tx.now)
    ensures Committable(db, tx)
  {
    if tx.stage.verdict.Some? {
      assert ActivationAgrees(db, tx.event.activation);
      DeliveredAtMostAll(db.tasks[tx.event := tx.row], tx.event.activation);
    }
  }
}
