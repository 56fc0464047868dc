/** From a granted reservation to its durable activation: the activation rows that a creation's
    allocations lead to, and when there is nothing to instruct. */
module EmptyActivation {
  import opened Domain
  import opened OutboxRows
  import OP = OutboxProtocol
  import OutboxRuns
  import OutboxLeases
  import L = Ledger

  type Offer = Domain.Offer

  /** save_reservation numbers the allocations from zero. */
  function RowsOf(allocations: seq<L.Allocation>): seq<AllocationRow> {
    if allocations == [] then []
    else
      var n := |allocations| - 1;
      RowsOf(allocations[..n]) + [AllocationRow(|RowsOf(allocations[..n])|, allocations[n].resource, allocations[n].power)]
  }

  lemma {:induction false} RowsAreNumbered(allocations: seq<L.Allocation>)
    ensures |RowsOf(allocations)| == |allocations|
    ensures OP.NumberedFrom(RowsOf(allocations), 0)
    ensures TotalPower(RowsOf(allocations)) == L.Power(allocations)
  {
    if allocations != [] {
      var n := |allocations| - 1;
      RowsAreNumbered(allocations[..n]);
      TotalAppend(RowsOf(allocations[..n]), RowsOf(allocations)[n]);
    }
  }

  lemma {:induction false} TotalAppend(rows: seq<AllocationRow>, row: AllocationRow)
    ensures TotalPower(rows + [row]) == TotalPower(rows) + row.power
  {
    if rows == [] {
      assert [] + [row] == [row] && [row][1..] == [];
    } else {
      TotalAppend(rows[1..], row);
      assert (rows + [row])[1..] == rows[1..] + [row];
    }
  }

  /** Whatever a creation granted can be activated at once, with one instruction for each allocation;
      there is none, and the activation is pending for good, exactly if the request was within the
      tolerance and nothing was free of the first offer. */
  lemma EmptyExactly(
      entries: seq<L.Entry>, offers: seq<Offer>, direction: Direction, scope: L.Scope, power: real, maxAttempts: int)
    requires power > 0.0 && offers != []
    requires L.Allocate(entries, offers, direction, scope, power).remaining <= L.TOLERANCE
    ensures var rows := RowsOf(L.Allocate(entries, offers, direction, scope, power).allocations);
            var states := OutboxLeases.ActivationStates(power, rows);
            && OutboxRuns.Run(states, OutboxLeases.ActivationSteps(power, rows), maxAttempts)
            && states[3].db.activations.Keys == {0} && states[3].db.activations[0].status == ActPending
            && (states[3].db.activations[0].instructionCount == 0 <==>
                  power <= L.TOLERANCE && L.Free(entries, offers[0], direction, scope) == 0.0)
  {
    var allocations := L.Allocate(entries, offers, direction, scope, power).allocations;
    RowsAreNumbered(allocations);
    OutboxLeases.ActivationRun(power, RowsOf(allocations), maxAttempts);
    L.EmptyReservationExactly(entries, offers, direction, scope, power);
  }

  /** And stays so in every run that goes on from there. */
  lemma {:induction false} StuckForever(
      states: seq<OP.State>, steps: seq<OP.Step>, maxAttempts: int, j: nat, k: nat, a: Id)
    requires OutboxRuns.Run(states, steps, maxAttempts) && j <= k < |states|
    requires a in states[j].db.activations && states[j].db.activations[a].instructionCount == 0
    ensures a in states[k].db.activations && states[k].db.activations[a] == states[j].db.activations[a]
    ensures states[k].db.activations[a].status == ActPending
  {
    if j < k {
      StuckForever(states, steps, maxAttempts, j, k - 1, a);
      OutboxRuns.Reachable(states, steps, maxAttempts, k - 1);
      StuckStep(states[k - 1], steps[k - 1], maxAttempts, a);
    }
    OutboxRuns.EmptyActivationNeverCloses(states, steps, maxAttempts, k, a);
  }

  lemma StuckStep(s: OP.State, step: OP.Step, maxAttempts: int, a: Id)
    requires OP.TasksInv(s.db.tasks, s.db.activations, maxAttempts)
    requires OP.TxsInv(s.db.tasks, s.db.activations, s.txs, maxAttempts) && OP.Enabled(s, step)
    requires a in s.db.activations && s.db.activations[a].instructionCount == 0
    ensures a in OP.Apply(s, step, maxAttempts).db.activations
    ensures OP.Apply(s, step, maxAttempts).db.activations[a] == s.db.activations[a]
  {
    if step.ResolveCommit? {
      CommitLeaves(s.db, s.txs[step.t], maxAttempts, a);
    } else if !step.ClaimRow? && !step.ActivateCommit? {
      OutboxRuns.OtherStepsLeaveTasks(s, step, maxAttempts);
    }
  }

  lemma CommitLeaves(db: Db, tx: OP.Tx, maxAttempts: int, a: Id)
    requires OP.TasksInv(db.tasks, db.activations, maxAttempts)
    requires OP.TxInv(db.tasks, db.activations, tx, maxAttempts) && OP.Committable(db, tx)
    requires a in db.activations && db.activations[a].instructionCount == 0
    ensures a in OP.Committed(db, tx).activations && OP.Committed(db, tx).activations[a] == db.activations[a]
  {
    if tx.stage.verdict.Some? {
      assert tx.event.ResourceTask? && tx.event in db.tasks;
      assert ResourceTask(tx.event.activation, tx.event.index) in db.tasks;
    }
  }
}
