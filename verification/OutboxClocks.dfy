/** Clocks of the outbox. A processor claims and resolves by one clock
    (src/der_flex/outbox.py:35-52), and a row becomes due no earlier than its activation was
    created; so while leases do not end before they begin, no resolve is behind the creation
    of the activation it closes. */
module OutboxClocks {
  import opened Domain
  import opened OutboxRows
  import opened OutboxProtocol

  ghost predicate RowClocked(row: TaskRow, createdAt: Time) {
    && (row.status == Pending || row.status == Retry ==> createdAt <= row.availableAt)
    && (row.status == Processing && row.lockedUntil.Some? ==> createdAt <= row.lockedUntil.value)
  }

  ghost predicate NotBefore(activations: Activations, a: Id, now: Time) {
    a in activations ==> activations[a].createdAt <= now
  }

  ghost predicate Clocked(tasks: Tasks, activations: Activations) {
    forall e :: e in tasks && e.activation in activations ==> RowClocked(tasks[e], activations[e.activation].createdAt)
  }

  ghost predicate ClaimsClocked(claims: set<Claim>, activations: Activations) {
    forall c :: c in claims ==> NotBefore(activations, c.event.activation, c.clock)
  }

  ghost predicate TxClocked(tx: Tx, activations: Activations) {
    && NotBefore(activations, tx.event.activation, tx.now)
    && (tx.event.activation in activations ==> RowClocked(tx.row, activations[tx.event.activation].createdAt))
  }

  ghost predicate TxsClocked(txs: map<nat, Tx>, activations: Activations) {
    forall t :: t in txs ==> TxClocked(txs[t], activations)
  }

  ghost predicate ClocksInv(s: State) {
    && Clocked(s.db.tasks, s.db.activations)
    && ClaimsClocked(s.claims, s.db.activations)
    && TxsClocked(s.txs, s.db.activations)
  }

  /** A lease that does not end before it begins. */
  ghost predicate LeaseHolds(step: Step) {
    step.ClaimRow? ==> step.now <= step.lockedUntil
  }

  lemma DueIsNotBefore(row: TaskRow, createdAt: Time, now: Time)
    requires RowClocked(row, createdAt) && Due(row, now)
    ensures createdAt <= now
  {
  }

  lemma ResolvedRowClocked(
      row: TaskRow, delivered: bool, retryable: bool, now: Time, maxAttempts: int, createdAt: Time)
    requires createdAt <= now
    ensures RowClocked(ResolvedRow(row, delivered, retryable, now, maxAttempts), createdAt)
  {
    BackoffBounds(row.attempts);
  }

  lemma ClaimKeepsClocks(tasks: Tasks, activations: Activations, e: EventId, now: Time, lockedUntil: Time)
    requires Clocked(tasks, activations) && e in tasks && Due(tasks[e], now) && now <= lockedUntil
    ensures Clocked(tasks[e := ClaimedRow(tasks[e], lockedUntil)], activations)
    ensures NotBefore(activations, e.activation, now)
  {
    if e.activation in activations {
      DueIsNotBefore(tasks[e], activations[e.activation].createdAt, now);
    }
  }

  /** Closing an activation does not move its creation. */
  ghost predicate SameCreation(before: Activations, after: Activations) {
    && after.Keys == before.Keys
    && forall a :: a in before ==> after[a].createdAt == before[a].createdAt
  }

  lemma WriteKeepsClocks(tasks: Tasks, activations: Activations, e: EventId, row: TaskRow)
    requires Clocked(tasks, activations)
    requires e.activation in activations ==> RowClocked(row, activations[e.activation].createdAt)
    ensures Clocked(tasks[e := row], activations)
  {
  }

  lemma CloseKeepsClocks(db: Db, a: Id, verdict: Verdict, now: Time)
    requires Clocked(db.tasks, db.activations) && Closable(db, a, verdict, now)
    ensures var db' := Close(db, a, verdict, now);
            Clocked(db'.tasks, db'.activations) && SameCreation(db.activations, db'.activations)
  {
    var event := WebhookTask(a, FinalEvent(verdict.total - |verdict.accepted|));
    WriteKeepsClocks(db.tasks, db.activations, event, TaskRow(Pending, 0, now, None, None));
  }

  lemma CommitKeepsClocks(db: Db, tx: Tx)
    requires Clocked(db.tasks, db.activations) && TxClocked(tx, db.activations) && Committable(db, tx)
    ensures var db' := Committed(db, tx);
            Clocked(db'.tasks, db'.activations) && SameCreation(db.activations, db'.activations)
  {
    WriteKeepsClocks(db.tasks, db.activations, tx.event, tx.row);
    var written := db.(tasks := db.tasks[tx.event := tx.row]);
    if tx.stage.verdict.Some? {
      CloseKeepsClocks(written, tx.event.activation, tx.stage.verdict.value, tx.now);
    }
  }

  lemma ActivateKeepsClocks(s: State, r: Id, a: Id, now: Time, maxAttempts: int)
    requires ClocksInv(s) && TasksInv(s.db.tasks, s.db.activations, maxAttempts) && ClaimsInv(s.db.tasks, s.claims)
    requires TxsInv(s.db.tasks, s.db.activations, s.txs, maxAttempts)
    requires a !in s.db.activations && r in s.db.reservations && r in s.db.allocations
    ensures var db' := Activate(s.db, r, a, now);
            Clocked(db'.tasks, db'.activations) && ClaimsClocked(s.claims, db'.activations) && TxsClocked(s.txs, db'.activations)
  {
    var db' := Activate(s.db, r, a, now);
    ActivatedTasks(s.db.tasks, s.db.activations, a, |s.db.allocations[r]|, s.db.reservations[r].callback.Some?, now, maxAttempts);
    forall e | e in db'.tasks && e.activation in db'.activations
      ensures RowClocked(db'.tasks[e], db'.activations[e.activation].createdAt)
    {
      if e.activation != a {
        assert e in s.db.tasks;
      }
    }
    forall t | t in s.txs
      ensures TxClocked(s.txs[t], db'.activations)
    {
      assert TxInv(s.db.tasks, s.db.activations, s.txs[t], maxAttempts);
    }
  }

  lemma ResolveWriteKeepsClocks(
      s: State, t: nat, claim: Claim, delivered: bool, retryable: bool, maxAttempts: int)
    requires ClocksInv(s) && claim in s.claims
    ensures ClocksInv(Writes(s, t, claim, delivered, retryable, claim.clock, maxAttempts))
  {
    var activations, a := s.db.activations, claim.event.activation;
    if claim.event in s.db.tasks && a in activations {
      ResolvedRowClocked(s.db.tasks[claim.event], delivered, retryable, claim.clock, maxAttempts, activations[a].createdAt);
    }
  }

  lemma CommitStepKeepsClocks(s: State, t: nat)
    requires ClocksInv(s) && t in s.txs && Committable(s.db, s.txs[t])
    ensures ClocksInv(Commits(s, t))
  {
    CommitKeepsClocks(s.db, s.txs[t]);
  }

  lemma StageKeepsClocks(s: State, step: Step, maxAttempts: int)
    requires ClocksInv(s) && Enabled(s, step) && (step.ResolveLock? || step.ResolveRead?)
    ensures ClocksInv(Apply(s, step, maxAttempts))
  {
    assert TxClocked(s.txs[step.t], s.db.activations);
  }

  lemma ClaimStepKeepsClocks(s: State, e: EventId, now: Time, lockedUntil: Time)
    requires ClocksInv(s) && e in s.db.tasks && Due(s.db.tasks[e], now) && now <= lockedUntil
    ensures ClocksInv(Claims(s, e, now, lockedUntil))
  {
    ClaimKeepsClocks(s.db.tasks, s.db.activations, e, now, lockedUntil);
  }

  lemma ActivateStepKeepsClocks(s: State, step: Step, maxAttempts: int)
    requires Inv(s, maxAttempts) && ClocksInv(s) && Enabled(s, step) && step.ActivateCommit?
    ensures ClocksInv(Apply(s, step, maxAttempts))
  {
    ActivateKeepsClocks(s, step.r, step.a, step.now, maxAttempts);
  }

  lemma QuietStepKeepsClocks(s: State, step: Step, maxAttempts: int)
    requires ClocksInv(s) && Enabled(s, step)
    requires step.Create? || step.Expire? || step.ReadConfirmed? || step.CancelCommit? || step.Release? || step.ResolveAbort?
    ensures ClocksInv(Apply(s, step, maxAttempts))
  {
  }

  /** Clocks agree after every step, provided only that a lease does not end before it begins. */
  lemma StepKeepsClocks(s: State, step: Step, maxAttempts: int)
    requires Inv(s, maxAttempts) && ClocksInv(s) && Enabled(s, step) && LeaseHolds(step)
    ensures ClocksInv(Apply(s, step, maxAttempts))
  {
    match step
    case ClaimRow(e, now, lockedUntil) => ClaimStepKeepsClocks(s, e, now, lockedUntil);
    case ActivateCommit(r, a, now) => ActivateStepKeepsClocks(s, step, maxAttempts);
    case ResolveWrite(t, claim, delivered, retryable) =>
      ResolveWriteKeepsClocks(s, t, claim, delivered, retryable, maxAttempts);
    case ResolveCommit(t) => CommitStepKeepsClocks(s, t);
    case ResolveLock(_) => StageKeepsClocks(s, step, maxAttempts);
    case ResolveRead(_) => StageKeepsClocks(s, step, maxAttempts);
    case _ => QuietStepKeepsClocks(s, step, maxAttempts);
  }
}
