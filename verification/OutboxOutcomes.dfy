/** What becomes of what the deliveries reported: over every run of the durable protocol, what the
    ledger ends with is what the last outcome of each instruction said. */
module OutboxOutcomes {
  import opened Domain
  import opened OutboxRows
  import opened OutboxProtocol
  import opened OutboxRuns

  /** Before step k a worker resolved this attempt of the event with this outcome. */
  ghost predicate Reported(steps: seq<Step>, k: nat, e: EventId, attempts: nat, outcome: Outcome)
    requires k <= |steps|
  {
    exists j :: 0 <= j < k && steps[j].ResolveWrite? && steps[j].claim.event == e && steps[j].claim.attempts == attempts &&
      outcome == Outcome(steps[j].delivered, steps[j].retryable)
  }

  ghost predicate TxReported(steps: seq<Step>, k: nat, tx: Tx, maxAttempts: int)
    requires k <= |steps|
  {
    RecordsAs(tx.row.status, tx.outcome, tx.attempts, maxAttempts) && Reported(steps, k, tx.event, tx.attempts, tx.outcome)
  }

  ghost predicate EntryReported(steps: seq<Step>, k: nat, entry: Entry, maxAttempts: int)
    requires k <= |steps|
  {
    entry.Recorded? ==>
      && RecordsAs(entry.status, entry.outcome, entry.attempts, maxAttempts)
      && Reported(steps, k, entry.event, entry.attempts, entry.outcome)
  }

  ghost predicate OutcomesInv(txs: map<nat, Tx>, log: seq<Entry>, steps: seq<Step>, k: nat, maxAttempts: int)
    requires k <= |steps|
  {
    && (forall t :: t in txs ==> TxReported(steps, k, txs[t], maxAttempts))
    && (forall i :: 0 <= i < |log| ==> EntryReported(steps, k, log[i], maxAttempts))
  }

  lemma ReportedStays(steps: seq<Step>, k: nat, next: nat, e: EventId, attempts: nat, outcome: Outcome)
    requires k <= next <= |steps| && Reported(steps, k, e, attempts, outcome)
    ensures Reported(steps, next, e, attempts, outcome)
  {
    var j :| 0 <= j < k && steps[j].ResolveWrite? && steps[j].claim.event == e && steps[j].claim.attempts == attempts &&
      outcome == Outcome(steps[j].delivered, steps[j].retryable);
    assert j < next;
  }

  lemma OutcomesStay(txs: map<nat, Tx>, log: seq<Entry>, steps: seq<Step>, k: nat, next: nat, maxAttempts: int)
    requires k <= next <= |steps| && OutcomesInv(txs, log, steps, k, maxAttempts)
    ensures OutcomesInv(txs, log, steps, next, maxAttempts)
  {
    forall t | t in txs
      ensures TxReported(steps, next, txs[t], maxAttempts)
    {
      assert TxReported(steps, k, txs[t], maxAttempts);
      ReportedStays(steps, k, next, txs[t].event, txs[t].attempts, txs[t].outcome);
    }
    forall i | 0 <= i < |log|
      ensures EntryReported(steps, next, log[i], maxAttempts)
    {
      assert EntryReported(steps, k, log[i], maxAttempts);
      if log[i].Recorded? {
        ReportedStays(steps, k, next, log[i].event, log[i].attempts, log[i].outcome);
      }
    }
  }

  lemma FreshIsReported(
      steps: seq<Step>, k: nat, next: nat, row: TaskRow, claim: Claim, delivered: bool, retryable: bool, maxAttempts: int)
    requires next == k + 1 <= |steps| && row.attempts == claim.attempts
    requires exists t :: steps[k] == ResolveWrite(t, claim, delivered, retryable)
    ensures TxReported(steps, next, FreshTx(row, claim, delivered, retryable, claim.clock, maxAttempts), maxAttempts)
  {
    OutcomeIsRecorded(row, Outcome(delivered, retryable), claim.clock, maxAttempts);
    assert steps[k].ResolveWrite?;
  }

  lemma TxsAfter(s: State, step: Step, maxAttempts: int)
    requires Enabled(s, step) && !step.ResolveWrite?
    ensures forall t :: t in Apply(s, step, maxAttempts).txs ==>
              t in s.txs && Apply(s, step, maxAttempts).txs[t] == s.txs[t].(stage := Apply(s, step, maxAttempts).txs[t].stage)
    ensures Apply(s, step, maxAttempts).log ==
              if step.ClaimRow? then s.log + [Claimed(step.e, s.db.tasks[step.e].attempts + 1)]
              else if step.ResolveCommit? then
                var tx := s.txs[step.t]; s.log + [Recorded(tx.event, tx.attempts, tx.row.status, tx.outcome)]
              else s.log
  {
  }

  lemma WriteKeepsOutcomes(s: State, steps: seq<Step>, k: nat, next: nat, maxAttempts: int)
    requires next == k + 1 <= |steps| && Enabled(s, steps[k]) && steps[k].ResolveWrite?
    requires OutcomesInv(s.txs, s.log, steps, next, maxAttempts)
    ensures OutcomesInv(Apply(s, steps[k], maxAttempts).txs, Apply(s, steps[k], maxAttempts).log, steps, next, maxAttempts)
  {
    var claim := steps[k].claim;
    if claim.event in s.db.tasks && s.db.tasks[claim.event].attempts == claim.attempts {
      FreshIsReported(steps, k, next, s.db.tasks[claim.event], claim, steps[k].delivered, steps[k].retryable, maxAttempts);
    }
  }

  lemma StepKeepsOutcomes(s: State, steps: seq<Step>, k: nat, next: nat, maxAttempts: int)
    requires next == k + 1 <= |steps| && Enabled(s, steps[k])
    requires OutcomesInv(s.txs, s.log, steps, k, maxAttempts)
    ensures OutcomesInv(Apply(s, steps[k], maxAttempts).txs, Apply(s, steps[k], maxAttempts).log, steps, next, maxAttempts)
  {
    OutcomesStay(s.txs, s.log, steps, k, next, maxAttempts);
    if steps[k].ResolveWrite? {
      WriteKeepsOutcomes(s, steps, k, next, maxAttempts);
    } else {
      TxsAfter(s, steps[k], maxAttempts);
      if steps[k].ResolveCommit? {
        assert TxReported(steps, next, s.txs[steps[k].t], maxAttempts);
      }
    }
  }

  lemma {:induction false} ReachableOutcomes(states: seq<State>, steps: seq<Step>, maxAttempts: int, k: nat)
    requires Run(states, steps, maxAttempts) && k < |states|
    ensures OutcomesInv(states[k].txs, states[k].log, steps, k, maxAttempts)
  {
    if k > 0 {
      ReachableOutcomes(states, steps, maxAttempts, k - 1);
      StepKeepsOutcomes(states[k - 1], steps, k - 1, k, maxAttempts);
    }
  }

  /** Every outcome the log holds was reported by a worker for that attempt, and recorded as it says. */
  lemma OutcomesAreRecorded(states: seq<State>, steps: seq<Step>, maxAttempts: int, k: nat, i: nat)
    requires Run(states, steps, maxAttempts) && k < |states| && i < |states[k].log| && states[k].log[i].Recorded?
    ensures var entry := states[k].log[i];
            && Reported(steps, k, entry.event, entry.attempts, entry.outcome)
            && (entry.status == Delivered <==> entry.outcome.delivered)
            && (entry.status == Dead <==>
                  !entry.outcome.delivered && (!entry.outcome.retryable || entry.attempts >= maxAttempts))
            && (entry.status == Retry <==>
                  !entry.outcome.delivered && entry.outcome.retryable && entry.attempts < maxAttempts)
  {
    ReachableOutcomes(states, steps, maxAttempts, k);
    assert EntryReported(steps, k, states[k].log[i], maxAttempts);
  }

  // ----- The last word on an event

  /** The last entry of the event, if any, records this outcome. */
  ghost predicate EndsWith(log: seq<Entry>, e: EventId, delivered: bool) {
    exists j :: 0 <= j < |log| && LastOf(log, j, e) && log[j].Recorded? && log[j].outcome.delivered == delivered &&
      Terminal(log[j].status)
  }

  ghost predicate LastOf(log: seq<Entry>, j: nat, e: EventId) {
    && j < |log| && log[j].event == e
    && forall l :: j < l < |log| ==> log[l].event != e
  }

  lemma TerminalIsLast(tasks: Tasks, log: seq<Entry>, j: nat)
    requires LogInv(tasks, log) && j < |log| && log[j].Recorded? && Terminal(log[j].status)
    ensures LastOf(log, j, log[j].event)
  {
    forall l | j < l < |log|
      ensures log[l].event != log[j].event
    {
      assert EntryFits(tasks, log[j]) && EntryFits(tasks, log[l]);
    }
  }

  ghost predicate RecordsFit(log: seq<Entry>, maxAttempts: int) {
    forall i :: 0 <= i < |log| && log[i].Recorded? ==>
      RecordsAs(log[i].status, log[i].outcome, log[i].attempts, maxAttempts)
  }

  lemma TerminalEnds(tasks: Tasks, log: seq<Entry>, maxAttempts: int, e: EventId)
    requires LogInv(tasks, log) && RecordsFit(log, maxAttempts) && e in tasks && Terminal(tasks[e].status)
    ensures EndsWith(log, e, tasks[e].status == Delivered)
  {
    assert Logged(tasks, log, e);
    var j :| 0 <= j < |log| && log[j].Recorded? && log[j].event == e && log[j].attempts == tasks[e].attempts &&
      log[j].status == tasks[e].status;
    TerminalIsLast(tasks, log, j);
  }

  lemma EndedIsTerminal(tasks: Tasks, log: seq<Entry>, maxAttempts: int, e: EventId, delivered: bool)
    requires LogInv(tasks, log) && RecordsFit(log, maxAttempts) && e in tasks && EndsWith(log, e, delivered)
    ensures tasks[e].status == if delivered then Delivered else Dead
  {
    var j :| 0 <= j < |log| && LastOf(log, j, e) && log[j].Recorded? && log[j].outcome.delivered == delivered &&
      Terminal(log[j].status);
    assert EntryFits(tasks, log[j]);
  }

  /** A row is DELIVERED exactly if the last outcome reported of it was a delivery, and DEAD exactly
      if that was a failure for good. */
  lemma RowsFollowOutcomes(states: seq<State>, steps: seq<Step>, maxAttempts: int, k: nat, e: EventId)
    requires Run(states, steps, maxAttempts) && k < |states| && e in states[k].db.tasks
    ensures states[k].db.tasks[e].status == Delivered <==> EndsWith(states[k].log, e, true)
    ensures states[k].db.tasks[e].status == Dead <==> EndsWith(states[k].log, e, false)
  {
    ReachableLog(states, steps, maxAttempts, k);
    ReachableRecords(states, steps, maxAttempts, k);
    RowFollows(states[k].db.tasks, states[k].log, maxAttempts, e);
  }

  lemma ReachableRecords(states: seq<State>, steps: seq<Step>, maxAttempts: int, k: nat)
    requires Run(states, steps, maxAttempts) && k < |states|
    ensures RecordsFit(states[k].log, maxAttempts)
  {
    ReachableOutcomes(states, steps, maxAttempts, k);
    forall i | 0 <= i < |states[k].log| && states[k].log[i].Recorded?
      ensures RecordsAs(states[k].log[i].status, states[k].log[i].outcome, states[k].log[i].attempts, maxAttempts)
    {
      assert EntryReported(steps, k, states[k].log[i], maxAttempts);
    }
  }

  lemma RowFollows(tasks: Tasks, log: seq<Entry>, maxAttempts: int, e: EventId)
    requires LogInv(tasks, log) && RecordsFit(log, maxAttempts) && e in tasks
    ensures tasks[e].status == Delivered <==> EndsWith(log, e, true)
    ensures tasks[e].status == Dead <==> EndsWith(log, e, false)
  {
    if Terminal(tasks[e].status) {
      TerminalEnds(tasks, log, maxAttempts, e);
    }
    if EndsWith(log, e, true) {
      EndedIsTerminal(tasks, log, maxAttempts, e, true);
    }
    if EndsWith(log, e, false) {
      EndedIsTerminal(tasks, log, maxAttempts, e, false);
    }
  }

  lemma DeliveredAre(tasks: Tasks, activations: Activations, a: Id, maxAttempts: int, i: nat)
    requires TasksInv(tasks, activations, maxAttempts) && a in activations
    ensures i in DeliveredIndices(tasks, a) <==>
              i < activations[a].instructionCount && tasks[ResourceTask(a, i)].status == Delivered
  {
    IndicesAre(tasks, a, i);
  }

  /** Once an activation is closed, the allocations left are exactly those of the instructions whose
      last outcome was a delivery, and it is completed exactly if that is all of them. */
  lemma OutcomesDecide(states: seq<State>, steps: seq<Step>, maxAttempts: int, k: nat, a: Id)
    requires Run(states, steps, maxAttempts) && k < |states|
    requires a in states[k].db.activations && states[k].db.activations[a].status != ActPending
    ensures var db := states[k].db;
            var act := db.activations[a];
            && act.reservation in db.allocations
            && (forall i: nat :: HasAllocation(db.allocations[act.reservation], i) <==>
                  i < act.instructionCount && EndsWith(states[k].log, ResourceTask(a, i), true))
            && (act.status == ActCompleted <==>
                  forall i: nat :: i < act.instructionCount ==> EndsWith(states[k].log, ResourceTask(a, i), true))
  {
    var db, log := states[k].db, states[k].log;
    var act := db.activations[a];
    Reachable(states, steps, maxAttempts, k);
    LedgerAgrees(states, steps, maxAttempts, k, a);
    forall i: nat
      ensures i in DeliveredIndices(db.tasks, a) <==> i < act.instructionCount && EndsWith(log, ResourceTask(a, i), true)
    {
      DeliveredAre(db.tasks, db.activations, a, maxAttempts, i);
      if i < act.instructionCount {
        RowsFollowOutcomes(states, steps, maxAttempts, k, ResourceTask(a, i));
      }
    }
    AllDelivered(db.tasks, a, act.instructionCount);
  }

  lemma AllDelivered(tasks: Tasks, a: Id, count: nat)
    requires forall i :: i in DeliveredIndices(tasks, a) ==> i < count
    ensures |DeliveredIndices(tasks, a)| == count <==> forall i: nat :: i < count ==> i in DeliveredIndices(tasks, a)
  {
    BelowIs(count);
    assert DeliveredIndices(tasks, a) <= Below(count);
    if |DeliveredIndices(tasks, a)| == count {
      FullSubset(DeliveredIndices(tasks, a), Below(count));
    }
    if Below(count) <= DeliveredIndices(tasks, a) {
      assert DeliveredIndices(tasks, a) == Below(count);
    }
  }

  lemma FullSubset<T>(x: set<T>, y: set<T>)
    requires x <= y && |x| == |y|
    ensures x == y
  {
    SubsetSize(x, y);
    if e :| e in y && e !in x {
      SubsetSize(x, y - {e});
      assert false;
    }
  }

  // ----- Allocations are only ever taken away

  ghost predicate RowsOnlyDrop(before: map<Id, seq<AllocationRow>>, after: map<Id, seq<AllocationRow>>, r: Id) {
    r in before ==> r in after && forall row :: row in after[r] ==> row in before[r]
  }

  lemma {:induction false} KeepDrops(rows: seq<AllocationRow>, indices: set<nat>)
    ensures forall row :: row in Keep(rows, indices) ==> row in rows
  {
    if rows != [] {
      KeepDrops(rows[1..], indices);
      assert rows == [rows[0]] + rows[1..];
    }
  }

  lemma StepOnlyDrops(s: State, step: Step, maxAttempts: int, r: Id)
    requires Enabled(s, step)
    ensures RowsOnlyDrop(s.db.allocations, Apply(s, step, maxAttempts).db.allocations, r)
  {
    if step.ResolveCommit? {
      CommitOnlyDrops(s.db, s.txs[step.t], r);
    }
  }

  lemma CommitOnlyDrops(db: Db, tx: Tx, r: Id)
    requires Committable(db, tx)
    ensures RowsOnlyDrop(db.allocations, Committed(db, tx).allocations, r)
  {
    if tx.stage.verdict.Some? {
      var q := db.activations[tx.event.activation].reservation;
      KeepDrops(db.allocations[q], tx.stage.verdict.value.accepted);
    }
  }

  /** No step of a run adds an allocation to a reservation, or changes one: those left after closing,
      known by their indices, are the ones it was created with. */
  lemma {:induction false} AllocationsOnlyDrop(
      states: seq<State>, steps: seq<Step>, maxAttempts: int, j: nat, k: nat, r: Id)
    requires Run(states, steps, maxAttempts) && j <= k < |states| && r in states[j].db.allocations
    ensures r in states[k].db.allocations
    ensures forall row :: row in states[k].db.allocations[r] ==> row in states[j].db.allocations[r]
  {
    if j < k {
      AllocationsOnlyDrop(states, steps, maxAttempts, j, k - 1, r);
      StepOnlyDrops(states[k - 1], steps[k - 1], maxAttempts, r);
    }
  }
}
