/** The durable activation and outbox protocol as a system of interleaved steps.

    Workers claim rows under a lease, crash, are overtaken and resolve late. A
    resolve transaction is split into its statements under READ COMMITTED: rewrite
    the own task row under its row lock, take the activation row lock, re-read the
    tasks (a fresh statement snapshot: committed rows plus the own write), then
    commit or abort. Nothing a transaction wrote is visible before it commits.
    Activation and cancellation are split too: they read the reservation status under its
    advisory lock but without a row lock, while any other transaction may expire it. */
module OutboxProtocol {
  import opened Domain
  import opened OutboxRows

  type Tasks = map<EventId, TaskRow>
  type Activations = map<Id, ActivationRow>

  /** What a worker holds of a claim, with the clock of the batch: it resolves by the same one. */
  datatype Claim = Claim(event: EventId, attempts: nat, clock: Time)

  datatype Stage =
    | Written                             // own row rewritten, activation row still to be locked
    | ActivationLocked                    // activation row locked and seen pending
    | Ready(verdict: Option<Verdict>)     // nothing left to do but commit

  datatype Tx = Tx(event: EventId, attempts: nat, row: TaskRow, outcome: Outcome, now: Time, stage: Stage)

  /** One committed effect of the outbox, in commit order. */
  datatype Entry =
    | Claimed(event: EventId, attempts: nat)
    | Recorded(event: EventId, attempts: nat, status: TaskStatus, outcome: Outcome)

  datatype State = State(
    db: Db,
    claims: set<Claim>,          // claims ever handed to a worker, in use, lost or late
    txs: map<nat, Tx>,           // resolve transactions in flight
    held: set<Id>,               // reservations read as confirmed under their advisory lock
    log: seq<Entry>)

  datatype Step =
    | Create(r: Id, row: ReservationRow, rows: seq<AllocationRow>)
    | Expire(now: Time)
    | ReadConfirmed(r: Id)
    | CancelCommit(r: Id)
    | ActivateCommit(r: Id, a: Id, now: Time)
    | Release(r: Id)
    | ClaimRow(e: EventId, now: Time, lockedUntil: Time)
    | ResolveWrite(t: nat, claim: Claim, delivered: bool, retryable: bool)
    | ResolveLock(t: nat)
    | ResolveRead(t: nat)
    | ResolveCommit(t: nat)
    | ResolveAbort(t: nat)

  ghost function Init(): State {
    State(Db(map[], map[], map[], map[]), {}, map[], {}, [])
  }

  ghost predicate NumberedFrom(rows: seq<AllocationRow>, first: nat) {
    forall k :: 0 <= k < |rows| ==> rows[k].index == first + k
  }

  ghost predicate ActivatedBefore(db: Db, r: Id) {
    exists a :: a in db.activations && db.activations[a].reservation == r
  }

  /** Only a terminal outcome of an instruction goes on to the activation row. */
  ghost predicate NeedsActivation(tx: Tx) {
    tx.event.ResourceTask? && Terminal(tx.row.status)
  }

  /** The activation row lock is kept from the moment it is granted until the end. */
  ghost predicate Holds(tx: Tx) {
    NeedsActivation(tx) && tx.stage != Written
  }

  ghost predicate RowFree(s: State, e: EventId) {
    forall t :: t in s.txs ==> s.txs[t].event != e
  }

  ghost predicate ActivationFree(s: State, a: Id) {
    forall t :: t in s.txs && Holds(s.txs[t]) ==> s.txs[t].event.activation != a
  }

  ghost predicate Enabled(s: State, step: Step) {
    match step
    case Create(r, row, rows) =>
      && r !in s.db.reservations && r !in s.db.allocations
      && row.status == CONFIRMED
      && NumberedFrom(rows, 0)
      && row.allocatedPower == TotalPower(rows)
    case Expire(now) => true
    case ReadConfirmed(r) =>
      && r !in s.held
      && r in s.db.reservations && s.db.reservations[r].status == CONFIRMED
    case CancelCommit(r) => r in s.held && r in s.db.reservations
    case ActivateCommit(r, a, now) =>
      && r in s.held && a !in s.db.activations
      && r in s.db.reservations && r in s.db.allocations
    case Release(r) => r in s.held
    case ClaimRow(e, now, lockedUntil) =>
      && e in s.db.tasks && RowFree(s, e) && Due(s.db.tasks[e], now)
    case ResolveWrite(t, claim, delivered, retryable) =>
      && t !in s.txs && claim in s.claims && RowFree(s, claim.event)
    case ResolveLock(t) =>
      && t in s.txs && s.txs[t].stage == Written
      && ActivationFree(s, s.txs[t].event.activation)
    case ResolveRead(t) =>
      && t in s.txs && s.txs[t].stage == ActivationLocked
    case ResolveCommit(t) =>
      && t in s.txs && Committable(s.db, s.txs[t])
    case ResolveAbort(t) => t in s.txs
  }

  ghost predicate Committable(db: Db, tx: Tx) {
    tx.stage.Ready? && (tx.stage.verdict.Some? ==> Closable(db, tx.event.activation, tx.stage.verdict.value, tx.now))
  }

  /** The check constraint completed_at >= created_at aborts a close with an older clock. */
  ghost predicate Closable(db: Db, a: Id, verdict: Verdict, now: Time) {
    && a in db.activations
    && db.activations[a].createdAt <= now
    && db.activations[a].reservation in db.reservations
    && db.activations[a].reservation in db.allocations
    && |verdict.accepted| <= verdict.total
  }

  ghost predicate Waiting(activations: Activations, a: Id) {
    a in activations && activations[a].status == ActPending
  }

  ghost function ExpireRow(row: ReservationRow, now: Time): ReservationRow {
    if row.status == CONFIRMED && row.expiresAt <= now then row.(status := EXPIRED) else row
  }

  ghost function ExpireRows(rows: map<Id, ReservationRow>, now: Time): map<Id, ReservationRow> {
    map r | r in rows :: ExpireRow(rows[r], now)
  }

  /** The outbox rows one activation inserts: two webhooks when asked for, one task per allocation. */
  ghost function NewTasks(a: Id, count: nat, callback: bool, now: Time): map<EventId, TaskRow> {
    map e | e in NewEvents(a, count, callback) :: TaskRow(Pending, 0, now, None, None)
  }

  ghost function NewEvents(a: Id, count: nat, callback: bool): set<EventId> {
    (set i | 0 <= i < count :: ResourceTask(a, i)) +
    (if callback then {WebhookTask(a, ActivationAccepted), WebhookTask(a, ActivationStarted)} else {})
  }

  ghost function Activate(db: Db, r: Id, a: Id, now: Time): Db
    requires r in db.reservations && r in db.allocations
  {
    var count := |db.allocations[r]|;
    db.(
      reservations := db.reservations[r := db.reservations[r].(status := ACTIVATED)],
      activations := db.activations[a := ActivationRow(r, ActPending, count, 0, 0, now, None)],
      tasks := db.tasks + NewTasks(a, count, db.reservations[r].callback.Some?, now))
  }

  ghost function Claims(s: State, e: EventId, now: Time, lockedUntil: Time): State
    requires e in s.db.tasks
  {
    var row := ClaimedRow(s.db.tasks[e], lockedUntil);
    s.(db := s.db.(tasks := s.db.tasks[e := row]),
       claims := s.claims + {Claim(e, row.attempts, now)},
       log := s.log + [Claimed(e, row.attempts)])
  }

  /** A claim that is no longer current finds another status or another attempt, and returns. */
  ghost function FreshTx(
      row: TaskRow, claim: Claim, delivered: bool, retryable: bool, now: Time, maxAttempts: int): Tx {
    var tx := Tx(claim.event, claim.attempts, ResolvedRow(row, delivered, retryable, now, maxAttempts),
                 Outcome(delivered, retryable), now, Written);
    if NeedsActivation(tx) then tx else tx.(stage := Ready(None))
  }

  ghost function Writes(
      s: State, t: nat, claim: Claim, delivered: bool, retryable: bool, now: Time, maxAttempts: int): State {
    if claim.event !in s.db.tasks then s
    else
      var row := s.db.tasks[claim.event];
      if row.status != Processing || row.attempts != claim.attempts then s
      else s.(txs := s.txs[t := FreshTx(row, claim, delivered, retryable, now, maxAttempts)])
  }

  ghost function Locks(s: State, t: nat): State
    requires t in s.txs
  {
    var tx := s.txs[t];
    s.(txs := s.txs[t := tx.(stage :=
      if Waiting(s.db.activations, tx.event.activation) then ActivationLocked else Ready(None))])
  }

  ghost function Reads(s: State, t: nat): State
    requires t in s.txs
  {
    var tx := s.txs[t];
    var a := tx.event.activation;
    var view := s.db.tasks[tx.event := tx.row];
    s.(txs := s.txs[t := tx.(stage := Ready(if Settled(view, a) then Some(VerdictOf(view, a)) else None))])
  }

  ghost function Commits(s: State, t: nat): State
    requires t in s.txs && Committable(s.db, s.txs[t])
  {
    var tx := s.txs[t];
    s.(db := Committed(s.db, tx), txs := s.txs - {t},
       log := s.log + [Recorded(tx.event, tx.attempts, tx.row.status, tx.outcome)])
  }

  ghost function Apply(s: State, step: Step, maxAttempts: int): State
    requires Enabled(s, step)
  {
    match step
    case Create(r, row, rows) =>
      s.(db := s.db.(reservations := s.db.reservations[r := row], allocations := s.db.allocations[r := rows]))
    case Expire(now) => s.(db := s.db.(reservations := ExpireRows(s.db.reservations, now)))
    case ReadConfirmed(r) => s.(held := s.held + {r})
    case CancelCommit(r) =>
      s.(db := s.db.(reservations := s.db.reservations[r := s.db.reservations[r].(status := CANCELLED)]),
         held := s.held - {r})
    case ActivateCommit(r, a, now) => s.(db := Activate(s.db, r, a, now), held := s.held - {r})
    case Release(r) => s.(held := s.held - {r})
    case ClaimRow(e, now, lockedUntil) => Claims(s, e, now, lockedUntil)
    case ResolveWrite(t, claim, delivered, retryable) =>
      Writes(s, t, claim, delivered, retryable, claim.clock, maxAttempts)
    case ResolveLock(t) => Locks(s, t)
    case ResolveRead(t) => Reads(s, t)
    case ResolveCommit(t) => Commits(s, t)
    case ResolveAbort(t) => s.(txs := s.txs - {t})
  }

  ghost function Committed(db: Db, tx: Tx): Db
    requires Committable(db, tx)
  {
    var written := db.(tasks := db.tasks[tx.event := tx.row]);
    if tx.stage.verdict.None? then written
    else Close(written, tx.event.activation, tx.stage.verdict.value, tx.now)
  }

  // ----- Invariants

  ghost predicate Open(tasks: Tasks, a: Id, i: nat) {
    ResourceTask(a, i) in tasks && !Terminal(tasks[ResourceTask(a, i)].status)
  }

  ghost predicate SomeOpen(tasks: Tasks, a: Id) {
    exists i :: Open(tasks, a, i)
  }

  ghost predicate OtherOpen(tasks: Tasks, e: EventId)
    requires e.ResourceTask?
  {
    exists i :: i != e.index && Open(tasks, e.activation, i)
  }

  ghost predicate RowInv(row: TaskRow, maxAttempts: int) {
    && (row.status == Pending <==> row.attempts == 0)
    && (row.status == Retry ==> row.attempts < maxAttempts)
    && (row.status == Processing <==> row.lockedUntil.Some?)
  }

  /** Every task belongs to an activation; instruction tasks are numbered below its count. */
  ghost predicate TasksInv(tasks: Tasks, activations: Activations, maxAttempts: int) {
    && (forall e :: e in tasks ==> e.activation in activations && RowInv(tasks[e], maxAttempts))
    && (forall a: Id, i: nat :: a in activations ==>
          (ResourceTask(a, i) in tasks <==> i < activations[a].instructionCount))
  }

  /** Claims name existing rows; a row counts every claim ever made on it. */
  ghost predicate ClaimsInv(tasks: Tasks, claims: set<Claim>) {
    forall c :: c in claims ==> c.event in tasks && 1 <= c.attempts <= tasks[c.event].attempts
  }

  ghost predicate TxInv(tasks: Tasks, activations: Activations, tx: Tx, maxAttempts: int) {
    && tx.event in tasks
    && tasks[tx.event].status == Processing
    && tasks[tx.event].attempts == tx.attempts == tx.row.attempts
    && tx.row.status in {Delivered, Dead, Retry}
    && RowInv(tx.row, maxAttempts)
    && (tx.stage == Ready(None) ==> NeedsActivation(tx) ==> OtherOpen(tasks, tx.event))
    && (tx.stage != Ready(None) ==> NeedsActivation(tx))
    && (tx.stage in {Written, Ready(None)} || Waiting(activations, tx.event.activation))
    && (tx.stage.Ready? && tx.stage.verdict.Some? ==>
          var view := tasks[tx.event := tx.row];
          Settled(view, tx.event.activation) && tx.stage.verdict.value == VerdictOf(view, tx.event.activation))
  }

  ghost predicate Apart(x: Tx, y: Tx) {
    && x.event != y.event
    && (Holds(x) && Holds(y) ==> x.event.activation != y.event.activation)
  }

  ghost predicate TxsInv(tasks: Tasks, activations: Activations, txs: map<nat, Tx>, maxAttempts: int) {
    && (forall t :: t in txs ==> TxInv(tasks, activations, txs[t], maxAttempts))
    && (forall t, u :: t in txs && u in txs && t != u ==> Apart(txs[t], txs[u]))
  }

  /** Neither lost nor premature: an activation waits exactly while an instruction is open. */
  ghost predicate FinalisationInv(tasks: Tasks, activations: Activations) {
    forall a :: a in activations ==>
      (activations[a].status == ActPending <==> activations[a].instructionCount == 0 || SomeOpen(tasks, a))
  }

  ghost predicate StatusesAgree(act: ActivationStatus, res: ReservationStatus) {
    && (act == ActPending <==> res == ACTIVATED)
    && (act == ActCompleted <==> res == COMPLETED)
    && (act == ActFailed <==> res == FAILED)
  }

  ghost predicate HasAllocation(rows: seq<AllocationRow>, i: nat) {
    exists k :: 0 <= k < |rows| && rows[k].index == i
  }

  ghost predicate WebhookAgrees(tasks: Tasks, a: Id, event: WebhookEvent, wanted: bool) {
    WebhookTask(a, event) in tasks <==> wanted
  }

  ghost predicate WebhooksAgree(tasks: Tasks, a: Id, status: ActivationStatus, callback: bool) {
    && WebhookAgrees(tasks, a, ActivationAccepted, callback)
    && WebhookAgrees(tasks, a, ActivationStarted, callback)
    && WebhookAgrees(tasks, a, ActivationCompleted, callback && status == ActCompleted)
    && WebhookAgrees(tasks, a, ActivationFailed, callback && status == ActFailed)
  }

  ghost predicate CountsAgree(tasks: Tasks, a: Id, act: ActivationRow, rows: seq<AllocationRow>) {
    if act.status == ActPending then
      && act.acceptedCount == 0 == act.rejectedCount && act.completedAt.None?
      && |rows| == act.instructionCount && NumberedFrom(rows, 0)
    else
      && act.acceptedCount + act.rejectedCount == act.instructionCount
      && act.acceptedCount == |DeliveredIndices(tasks, a)|
      && (act.status == ActFailed <==> act.rejectedCount != 0)
      && act.completedAt.Some? && act.createdAt <= act.completedAt.value
      && (forall i: nat :: HasAllocation(rows, i) <==> i in DeliveredIndices(tasks, a))
  }

  /** What an activation row, its reservation row, its allocations and its tasks say together. */
  ghost predicate ActivationAgrees(db: Db, a: Id)
    requires a in db.activations
  {
    var act := db.activations[a];
    && act.reservation in db.reservations && act.reservation in db.allocations
    && StatusesAgree(act.status, db.reservations[act.reservation].status)
    && CountsAgree(db.tasks, a, act, db.allocations[act.reservation])
    && WebhooksAgree(db.tasks, a, act.status, db.reservations[act.reservation].callback.Some?)
  }

  ghost predicate ActivationsInv(db: Db) {
    && (forall a :: a in db.activations ==> ActivationAgrees(db, a))
    && (forall a, b :: a in db.activations && b in db.activations && a != b ==>
          db.activations[a].reservation != db.activations[b].reservation)
  }

  ghost predicate ReservationsInv(db: Db, held: set<Id>) {
    && db.reservations.Keys == db.allocations.Keys
    && (forall r :: r in db.reservations ==> db.reservations[r].allocatedPower == TotalPower(db.allocations[r]))
    && (forall r :: r in db.reservations && !ActivatedBefore(db, r) ==>
          && db.reservations[r].status !in {ACTIVATED, COMPLETED, FAILED}
          && NumberedFrom(db.allocations[r], 0))
    && (forall r :: r in held ==> r in db.reservations && !ActivatedBefore(db, r))
  }

  ghost predicate Inv(s: State, maxAttempts: int) {
    && TasksInv(s.db.tasks, s.db.activations, maxAttempts)
    && ClaimsInv(s.db.tasks, s.claims)
    && TxsInv(s.db.tasks, s.db.activations, s.txs, maxAttempts)
    && FinalisationInv(s.db.tasks, s.db.activations)
    && ActivationsInv(s.db)
    && ReservationsInv(s.db, s.held)
  }

  // ----- Every step keeps the invariant

  ghost predicate Keeps(before: State, after: State, maxAttempts: int) {
    Inv(after, maxAttempts) || !Inv(before, maxAttempts)
  }

  lemma CreateKeeps(s: State, step: Step, maxAttempts: int)
    requires Inv(s, maxAttempts) && Enabled(s, step) && step.Create?
    ensures Inv(Apply(s, step, maxAttempts), maxAttempts)
  {
    var db, db' := s.db, Apply(s, step, maxAttempts).db;
    assert forall r :: ActivatedBefore(db', r) <==> ActivatedBefore(db, r);
    forall a | a in db'.activations
      ensures ActivationAgrees(db', a)
    {
      assert ActivationAgrees(db, a);
    }
  }

  /** A reservation that was not activated ends, or nothing happens to it. */
  ghost predicate EndsOnly(before: ReservationRow, after: ReservationRow) {
    || after == before
    || (after == before.(status := after.status) && !WasActivated(before.status) &&
        !WasActivated(after.status) && after.status != CONFIRMED)
  }

  ghost predicate WasActivated(status: ReservationStatus) {
    status in {ACTIVATED, COMPLETED, FAILED}
  }

  ghost predicate StatusOnly(before: map<Id, ReservationRow>, after: map<Id, ReservationRow>) {
    && after.Keys == before.Keys
    && forall r :: r in before ==> EndsOnly(before[r], after[r])
  }

  lemma StatusOnlyKeepsActivation(db: Db, reservations: map<Id, ReservationRow>, a: Id)
    requires a in db.activations && ActivationAgrees(db, a)
    requires StatusOnly(db.reservations, reservations)
    ensures ActivationAgrees(db.(reservations := reservations), a)
  {
    assert EndsOnly(db.reservations[db.activations[a].reservation], reservations[db.activations[a].reservation]);
  }

  lemma StatusOnlyKeepsReservations(db: Db, reservations: map<Id, ReservationRow>, held: set<Id>)
    requires ReservationsInv(db, held)
    requires StatusOnly(db.reservations, reservations)
    ensures ReservationsInv(db.(reservations := reservations), held)
  {
    ActivatedBeforeSame(db, db.(reservations := reservations));
    forall r | r in db.reservations
      ensures EndsOnly(db.reservations[r], reservations[r])
    {
    }
  }

  lemma StatusOnlyKeepsLedger(db: Db, reservations: map<Id, ReservationRow>, held: set<Id>)
    requires ActivationsInv(db) && ReservationsInv(db, held)
    requires StatusOnly(db.reservations, reservations)
    ensures var db' := db.(reservations := reservations); ActivationsInv(db') && ReservationsInv(db', held)
  {
    StatusOnlyKeepsReservations(db, reservations, held);
    forall a | a in db.activations
      ensures ActivationAgrees(db.(reservations := reservations), a)
    {
      StatusOnlyKeepsActivation(db, reservations, a);
    }
  }

  lemma ExpireIsStatusOnly(rows: map<Id, ReservationRow>, now: Time)
    ensures StatusOnly(rows, ExpireRows(rows, now))
  {
  }

  /** What is held was not activated: it is confirmed still, or has expired since it was read. */
  lemma CancelIsStatusOnly(db: Db, held: set<Id>, r: Id)
    requires ReservationsInv(db, held) && r in held
    ensures r in db.reservations
    ensures StatusOnly(db.reservations, db.reservations[r := db.reservations[r].(status := CANCELLED)])
  {
    assert !ActivatedBefore(db, r);
  }

  lemma StatusOnlyKeeps(s: State, step: Step, maxAttempts: int)
    requires Inv(s, maxAttempts) && Enabled(s, step) && (step.Expire? || step.CancelCommit?)
    ensures Inv(Apply(s, step, maxAttempts), maxAttempts)
  {
    if step.CancelCommit? {
      CancelIsStatusOnly(s.db, s.held, step.r);
    } else {
      ExpireIsStatusOnly(s.db.reservations, step.now);
    }
    StatusOnlyKeepsLedger(s.db, Apply(s, step, maxAttempts).db.reservations, s.held);
  }

  lemma ActivationLockKeeps(s: State, step: Step, maxAttempts: int)
    requires Inv(s, maxAttempts) && Enabled(s, step) && (step.ReadConfirmed? || step.Release?)
    ensures Inv(Apply(s, step, maxAttempts), maxAttempts)
  {
  }

  /** Rewriting one row without opening or closing it moves no index set. */
  lemma RewriteSame(tasks: Tasks, e: EventId, row: TaskRow)
    requires e in tasks && !Terminal(tasks[e].status) && !Terminal(row.status)
    ensures forall a, i :: Open(tasks[e := row], a, i) <==> Open(tasks, a, i)
    ensures forall a :: SomeOpen(tasks[e := row], a) <==> SomeOpen(tasks, a)
    ensures forall a :: Indices(tasks[e := row], a) == Indices(tasks, a)
    ensures forall a :: DeliveredIndices(tasks[e := row], a) == DeliveredIndices(tasks, a)
  {
    var tasks' := tasks[e := row];
    assert forall a, i :: Open(tasks', a, i) <==> Open(tasks, a, i);
    forall a
      ensures SomeOpen(tasks', a) <==> SomeOpen(tasks, a)
      ensures Indices(tasks', a) == Indices(tasks, a)
      ensures DeliveredIndices(tasks', a) == DeliveredIndices(tasks, a)
    {
      if SomeOpen(tasks, a) {
        var i :| Open(tasks, a, i);
        assert Open(tasks', a, i);
      }
      if SomeOpen(tasks', a) {
        var i :| Open(tasks', a, i);
        assert Open(tasks, a, i);
      }
      SameIndices(tasks, tasks', a);
    }
  }

  lemma IndicesAre(tasks: Tasks, a: Id, i: nat)
    ensures i in Indices(tasks, a) <==> ResourceTask(a, i) in tasks
  {
    if ResourceTask(a, i) in tasks {
      var e := ResourceTask(a, i);
      assert e in tasks && e.ResourceTask? && e.activation == a && e.index == i;
    }
  }

  lemma SameIndices(tasks: Tasks, tasks': Tasks, a: Id)
    requires forall i: nat :: ResourceTask(a, i) in tasks <==> ResourceTask(a, i) in tasks'
    requires forall i: nat :: ResourceTask(a, i) in tasks ==>
               (tasks[ResourceTask(a, i)].status == Delivered <==> tasks'[ResourceTask(a, i)].status == Delivered)
    ensures Indices(tasks', a) == Indices(tasks, a)
    ensures DeliveredIndices(tasks', a) == DeliveredIndices(tasks, a)
  {
    forall i: nat
      ensures i in Indices(tasks, a) <==> ResourceTask(a, i) in tasks
      ensures i in Indices(tasks', a) <==> ResourceTask(a, i) in tasks'
    {
      IndicesAre(tasks, a, i);
      IndicesAre(tasks', a, i);
    }
  }

  /** Bookkeeping on open rows is invisible to the ledger tables. */
  lemma LedgerIgnoresOpenRows(db: Db, e: EventId, row: TaskRow, held: set<Id>)
    requires ActivationsInv(db) && ReservationsInv(db, held)
    requires e in db.tasks && !Terminal(db.tasks[e].status) && !Terminal(row.status)
    ensures ActivationsInv(db.(tasks := db.tasks[e := row]))
    ensures ReservationsInv(db.(tasks := db.tasks[e := row]), held)
  {
    var db' := db.(tasks := db.tasks[e := row]);
    RewriteSame(db.tasks, e, row);
    forall a | a in db'.activations
      ensures ActivationAgrees(db', a)
    {
      assert ActivationAgrees(db, a);
    }
    assert forall r :: ActivatedBefore(db', r) <==> ActivatedBefore(db, r);
  }

  lemma TasksIgnoreOpenRows(tasks: Tasks, activations: Activations, e: EventId, row: TaskRow, maxAttempts: int)
    requires TasksInv(tasks, activations, maxAttempts)
    requires e in tasks && RowInv(row, maxAttempts)
    ensures TasksInv(tasks[e := row], activations, maxAttempts)
  {
  }

  lemma FinalisationIgnoresOpenRows(tasks: Tasks, activations: Activations, e: EventId, row: TaskRow)
    requires FinalisationInv(tasks, activations)
    requires e in tasks && !Terminal(tasks[e].status) && !Terminal(row.status)
    ensures FinalisationInv(tasks[e := row], activations)
  {
    forall a | a in activations
      ensures SomeOpen(tasks[e := row], a) <==> SomeOpen(tasks, a)
    {
      RewriteSame(tasks, e, row);
    }
  }

  lemma TxsSurviveRewrite(
      tasks: Tasks, activations: Activations, txs: map<nat, Tx>, e: EventId, row: TaskRow, maxAttempts: int)
    requires TxsInv(tasks, activations, txs, maxAttempts)
    requires e in tasks && !Terminal(tasks[e].status) && !Terminal(row.status)
    requires forall t :: t in txs ==> txs[t].event != e
    ensures TxsInv(tasks[e := row], activations, txs, maxAttempts)
  {
    forall t | t in txs
      ensures TxInv(tasks[e := row], activations, txs[t], maxAttempts)
    {
      TxSurvivesRewrite(tasks, activations, txs[t], e, row, maxAttempts);
    }
  }

  lemma ClaimKeepsRows(s: State, e: EventId, now: Time, lockedUntil: Time, maxAttempts: int)
    requires TasksInv(s.db.tasks, s.db.activations, maxAttempts) && ClaimsInv(s.db.tasks, s.claims)
    requires TxsInv(s.db.tasks, s.db.activations, s.txs, maxAttempts)
    requires e in s.db.tasks && RowFree(s, e) && !Terminal(s.db.tasks[e].status)
    ensures var s' := Claims(s, e, now, lockedUntil);
            && TasksInv(s'.db.tasks, s'.db.activations, maxAttempts)
            && ClaimsInv(s'.db.tasks, s'.claims)
            && TxsInv(s'.db.tasks, s'.db.activations, s'.txs, maxAttempts)
  {
    var row := ClaimedRow(s.db.tasks[e], lockedUntil);
    TasksIgnoreOpenRows(s.db.tasks, s.db.activations, e, row, maxAttempts);
    TxsSurviveRewrite(s.db.tasks, s.db.activations, s.txs, e, row, maxAttempts);
    ClaimsGrow(s.db.tasks, s.claims, e, row, now);
  }

  lemma ClaimKeepsLedger(s: State, e: EventId, now: Time, lockedUntil: Time)
    requires FinalisationInv(s.db.tasks, s.db.activations)
    requires ActivationsInv(s.db) && ReservationsInv(s.db, s.held)
    requires e in s.db.tasks && !Terminal(s.db.tasks[e].status)
    ensures var s' := Claims(s, e, now, lockedUntil);
            && FinalisationInv(s'.db.tasks, s'.db.activations)
            && ActivationsInv(s'.db) && ReservationsInv(s'.db, s'.held)
  {
    var row := ClaimedRow(s.db.tasks[e], lockedUntil);
    FinalisationIgnoresOpenRows(s.db.tasks, s.db.activations, e, row);
    LedgerIgnoresOpenRows(s.db, e, row, s.held);
  }

  lemma ClaimsGrow(tasks: Tasks, claims: set<Claim>, e: EventId, row: TaskRow, now: Time)
    requires ClaimsInv(tasks, claims)
    requires e in tasks && row.attempts > tasks[e].attempts
    ensures ClaimsInv(tasks[e := row], claims + {Claim(e, row.attempts, now)})
  {
  }

  lemma TxSurvivesRewrite(tasks: Tasks, activations: Activations, tx: Tx, e: EventId, row: TaskRow, maxAttempts: int)
    requires TxInv(tasks, activations, tx, maxAttempts)
    requires e in tasks && e != tx.event && !Terminal(tasks[e].status) && !Terminal(row.status)
    ensures TxInv(tasks[e := row], activations, tx, maxAttempts)
  {
    var tasks' := tasks[e := row];
    RewriteSame(tasks, e, row);
    if tx.event.ResourceTask? && OtherOpen(tasks, tx.event) {
      var i :| i != tx.event.index && Open(tasks, tx.event.activation, i);
      assert Open(tasks', tx.event.activation, i);
    }
    if tx.stage.Ready? && tx.stage.verdict.Some? {
      var a := tx.event.activation;
      var view, view' := tasks[tx.event := tx.row], tasks'[tx.event := tx.row];
      if e.ResourceTask? && e.activation == a {
        IndicesAre(view, a, e.index);
        assert false;
      }
      forall i: nat
        ensures ResourceTask(a, i) in view <==> ResourceTask(a, i) in view'
        ensures ResourceTask(a, i) in view ==> view[ResourceTask(a, i)] == view'[ResourceTask(a, i)]
        ensures i in Indices(view, a) <==> ResourceTask(a, i) in view
      {
        IndicesAre(view, a, i);
      }
      SameIndices(view, view', a);
    }
  }

  lemma TxsReplaced(s: State, t: nat, tx: Tx, after: State, maxAttempts: int)
    requires Inv(s, maxAttempts)
    requires TxInv(s.db.tasks, s.db.activations, tx, maxAttempts)
    requires forall u :: u in s.txs && u != t ==> Apart(tx, s.txs[u])
    requires after == s.(txs := s.txs[t := tx])
    ensures Inv(after, maxAttempts)
  {
    TxReplaced(s.db.tasks, s.db.activations, s.txs, t, tx, maxAttempts);
  }

  lemma TxReplaced(tasks: Tasks, activations: Activations, txs: map<nat, Tx>, t: nat, tx: Tx, maxAttempts: int)
    requires TxsInv(tasks, activations, txs, maxAttempts)
    requires TxInv(tasks, activations, tx, maxAttempts)
    requires forall u :: u in txs && u != t ==> Apart(tx, txs[u])
    ensures TxsInv(tasks, activations, txs[t := tx], maxAttempts)
  {
  }

  lemma FreshTxInv(
      tasks: Tasks, activations: Activations, claim: Claim, delivered: bool, retryable: bool, now: Time, maxAttempts: int)
    requires TasksInv(tasks, activations, maxAttempts)
    requires claim.event in tasks
    requires tasks[claim.event].status == Processing && tasks[claim.event].attempts == claim.attempts
    ensures var tx := FreshTx(tasks[claim.event], claim, delivered, retryable, now, maxAttempts);
            TxInv(tasks, activations, tx, maxAttempts) && !Holds(tx) && tx.event == claim.event
  {
  }

  lemma WriteKeeps(s: State, t: nat, claim: Claim, delivered: bool, retryable: bool, now: Time, maxAttempts: int)
    requires Inv(s, maxAttempts) && t !in s.txs && RowFree(s, claim.event)
    ensures Inv(Writes(s, t, claim, delivered, retryable, now, maxAttempts), maxAttempts)
  {
    if claim.event in s.db.tasks {
      var row := s.db.tasks[claim.event];
      if row.status == Processing && row.attempts == claim.attempts {
        FreshTxInv(s.db.tasks, s.db.activations, claim, delivered, retryable, now, maxAttempts);
        TxsReplaced(s, t, FreshTx(row, claim, delivered, retryable, now, maxAttempts),
                    Writes(s, t, claim, delivered, retryable, now, maxAttempts), maxAttempts);
      }
    }
  }

  /** The own row is still open, so the activation cannot have been closed. */
  lemma LockedWaits(tasks: Tasks, activations: Activations, tx: Tx, maxAttempts: int)
    requires TasksInv(tasks, activations, maxAttempts) && FinalisationInv(tasks, activations)
    requires TxInv(tasks, activations, tx, maxAttempts) && tx.stage == Written
    ensures Waiting(activations, tx.event.activation)
    ensures TxInv(tasks, activations, tx.(stage := ActivationLocked), maxAttempts)
  {
    assert Open(tasks, tx.event.activation, tx.event.index);
    assert SomeOpen(tasks, tx.event.activation);
  }

  lemma LockKeeps(s: State, t: nat, maxAttempts: int)
    requires Inv(s, maxAttempts) && t in s.txs && s.txs[t].stage == Written
    requires ActivationFree(s, s.txs[t].event.activation)
    ensures Inv(Locks(s, t), maxAttempts)
  {
    LockedWaits(s.db.tasks, s.db.activations, s.txs[t], maxAttempts);
    TxsReplaced(s, t, s.txs[t].(stage := ActivationLocked), Locks(s, t), maxAttempts);
  }

  lemma ReadKeeps(s: State, t: nat, maxAttempts: int)
    requires Inv(s, maxAttempts) && t in s.txs && s.txs[t].stage == ActivationLocked
    ensures Inv(Reads(s, t), maxAttempts)
  {
    var tx := s.txs[t];
    assert TxInv(s.db.tasks, s.db.activations, tx, maxAttempts);
    if !Settled(s.db.tasks[tx.event := tx.row], tx.event.activation) {
      UnsettledHasOtherOpen(s.db.tasks, tx);
    }
    TxsReplaced(s, t, Reads(s, t).txs[t], Reads(s, t), maxAttempts);
  }

  lemma UnsettledHasOtherOpen(tasks: Tasks, tx: Tx)
    requires tx.event in tasks && NeedsActivation(tx)
    requires !Settled(tasks[tx.event := tx.row], tx.event.activation)
    ensures OtherOpen(tasks, tx.event)
  {
    var a := tx.event.activation;
    var view := tasks[tx.event := tx.row];
    IndicesAre(view, a, tx.event.index);
    var i :| i in Indices(view, a) && !Terminal(view[ResourceTask(a, i)].status);
    IndicesAre(view, a, i);
    assert Open(tasks, a, i);
  }

  lemma AbortKeeps(s: State, step: Step, maxAttempts: int)
    requires Inv(s, maxAttempts) && Enabled(s, step) && step.ResolveAbort?
    ensures Inv(Apply(s, step, maxAttempts), maxAttempts)
  {
  }

  // ----- Commits

  /** Both task tables hold the same instruction rows of an activation. */
  ghost predicate SameInstructions(tasks: Tasks, tasks': Tasks, a: Id) {
    && (forall i: nat :: ResourceTask(a, i) in tasks <==> ResourceTask(a, i) in tasks')
    && (forall i: nat :: ResourceTask(a, i) in tasks ==> tasks[ResourceTask(a, i)] == tasks'[ResourceTask(a, i)])
  }

  lemma SameInstructionsSame(tasks: Tasks, tasks': Tasks, a: Id)
    requires SameInstructions(tasks, tasks', a)
    ensures Indices(tasks', a) == Indices(tasks, a)
    ensures DeliveredIndices(tasks', a) == DeliveredIndices(tasks, a)
    ensures Settled(tasks', a) <==> Settled(tasks, a)
    ensures SomeOpen(tasks', a) <==> SomeOpen(tasks, a)
  {
    SameIndices(tasks, tasks', a);
    forall i | i in Indices(tasks, a)
      ensures ResourceTask(a, i) in tasks
    {
      IndicesAre(tasks, a, i);
    }
    assert forall i :: Open(tasks, a, i) <==> Open(tasks', a, i);
  }

  lemma TxUnaffected(
      tasks: Tasks, activations: Activations, tasks': Tasks, activations': Activations, tx: Tx, maxAttempts: int)
    requires TxInv(tasks, activations, tx, maxAttempts)
    requires tx.event in tasks' && tasks'[tx.event] == tasks[tx.event]
    requires Holds(tx) ==> SameInstructions(tasks, tasks', tx.event.activation)
    requires Holds(tx) && Waiting(activations, tx.event.activation) ==> Waiting(activations', tx.event.activation)
    ensures TxInv(tasks', activations', tx, maxAttempts)
  {
    var a := tx.event.activation;
    if tx.stage == Ready(None) && NeedsActivation(tx) {
      var i :| i != tx.event.index && Open(tasks, a, i);
      assert Open(tasks', a, i);
    }
    if tx.stage.Ready? && tx.stage.verdict.Some? {
      SameInstructionsSame(tasks[tx.event := tx.row], tasks'[tx.event := tx.row], a);
    }
  }

  /** A committed row that is not an instruction, or is one but leaves another open. */
  ghost predicate PlainCommit(tasks: Tasks, tx: Tx) {
    tx.stage == Ready(None) && tx.event in tasks && !Terminal(tasks[tx.event].status) &&
    (NeedsActivation(tx) ==> OtherOpen(tasks, tx.event))
  }

  lemma PlainCommitKeepsFinalisation(tasks: Tasks, activations: Activations, tx: Tx)
    requires FinalisationInv(tasks, activations)
    requires PlainCommit(tasks, tx)
    requires tx.event.activation in activations
    ensures FinalisationInv(tasks[tx.event := tx.row], activations)
  {
    var tasks' := tasks[tx.event := tx.row];
    var e := tx.event;
    forall a | a in activations
      ensures SomeOpen(tasks', a) <==> SomeOpen(tasks, a)
    {
      if e.ResourceTask? && a == e.activation {
        assert Open(tasks, a, e.index);
        assert SomeOpen(tasks, a);
        if Terminal(tx.row.status) {
          var i :| i != e.index && Open(tasks, a, i);
          assert Open(tasks', a, i);
        } else {
          assert Open(tasks', a, e.index);
        }
        assert SomeOpen(tasks', a);
      } else {
        SameInstructionsSame(tasks, tasks', a);
      }
    }
  }

  /** Reservations and allocations agree whatever the tasks say. */
  lemma TasksKeepReservations(db: Db, tasks: Tasks, held: set<Id>)
    requires ReservationsInv(db, held)
    ensures ReservationsInv(db.(tasks := tasks), held)
  {
    ActivatedBeforeSame(db, db.(tasks := tasks));
  }

  lemma PlainCommitKeepsLedger(db: Db, tx: Tx, held: set<Id>)
    requires FinalisationInv(db.tasks, db.activations) && ActivationsInv(db) && ReservationsInv(db, held)
    requires PlainCommit(db.tasks, tx)
    ensures ActivationsInv(db.(tasks := db.tasks[tx.event := tx.row]))
    ensures ReservationsInv(db.(tasks := db.tasks[tx.event := tx.row]), held)
  {
    var e := tx.event;
    var db' := db.(tasks := db.tasks[e := tx.row]);
    forall a | a in db'.activations
      ensures ActivationAgrees(db', a)
    {
      assert ActivationAgrees(db, a);
      if e.ResourceTask? && a == e.activation {
        assert Open(db.tasks, a, e.index);
        assert SomeOpen(db.tasks, a);
      } else {
        SameInstructionsSame(db.tasks, db'.tasks, a);
      }
    }
    TasksKeepReservations(db, db'.tasks, held);
  }

  lemma PlainCommitKeepsTxs(
      tasks: Tasks, activations: Activations, txs: map<nat, Tx>, t: nat, maxAttempts: int)
    requires TxsInv(tasks, activations, txs, maxAttempts)
    requires t in txs && PlainCommit(tasks, txs[t])
    ensures TxsInv(tasks[txs[t].event := txs[t].row], activations, txs - {t}, maxAttempts)
  {
    var tx := txs[t];
    var tasks' := tasks[tx.event := tx.row];
    forall u | u in txs && u != t
      ensures TxInv(tasks', activations, txs[u], maxAttempts)
    {
      assert Apart(txs[u], tx);
      if !Terminal(tx.row.status) {
        TxSurvivesRewrite(tasks, activations, txs[u], tx.event, tx.row, maxAttempts);
      } else {
        TxUnaffected(tasks, activations, tasks', activations, txs[u], maxAttempts);
      }
    }
  }

  lemma PlainCommitKeeps(s: State, t: nat, maxAttempts: int)
    requires Inv(s, maxAttempts) && t in s.txs && s.txs[t].stage == Ready(None)
    ensures Inv(Commits(s, t), maxAttempts)
  {
    var tx := s.txs[t];
    assert TxInv(s.db.tasks, s.db.activations, tx, maxAttempts);
    PlainCommitKeepsFinalisation(s.db.tasks, s.db.activations, tx);
    PlainCommitKeepsLedger(s.db, tx, s.held);
    PlainCommitKeepsTxs(s.db.tasks, s.db.activations, s.txs, t, maxAttempts);
    TasksIgnoreOpenRows(s.db.tasks, s.db.activations, tx.event, tx.row, maxAttempts);
    ClaimsStay(s.db.tasks, s.claims, tx.event, tx.row);
    var s' := Commits(s, t);
    assert s'.db == s.db.(tasks := s.db.tasks[tx.event := tx.row]);
  }

  lemma ClaimsStay(tasks: Tasks, claims: set<Claim>, e: EventId, row: TaskRow)
    requires ClaimsInv(tasks, claims)
    requires e in tasks && row.attempts == tasks[e].attempts
    ensures ClaimsInv(tasks[e := row], claims)
  {
  }

  lemma {:induction false} KeepHas(rows: seq<AllocationRow>, indices: set<nat>, i: nat)
    ensures HasAllocation(Keep(rows, indices), i) <==> i in indices && HasAllocation(rows, i)
  {
    if rows != [] {
      KeepHas(rows[1..], indices, i);
      var kept := Keep(rows, indices);
      var rest := Keep(rows[1..], indices);
      HasAllocationCons(rows, i);
      if rows[0].index in indices {
        assert kept == [rows[0]] + rest;
        HasAllocationCons(kept, i);
      } else {
        assert kept == rest;
      }
    }
  }

  lemma HasAllocationCons(rows: seq<AllocationRow>, i: nat)
    requires rows != []
    ensures HasAllocation(rows, i) <==> rows[0].index == i || HasAllocation(rows[1..], i)
  {
    if HasAllocation(rows[1..], i) {
      var k :| 0 <= k < |rows[1..]| && rows[1..][k].index == i;
      assert rows[k + 1].index == i;
    }
    if HasAllocation(rows, i) && rows[0].index != i {
      var k :| 0 <= k < |rows| && rows[k].index == i;
      assert rows[1..][k - 1].index == i;
    }
  }

  ghost function Below(n: nat): set<nat> {
    if n == 0 then {} else Below(n - 1) + {n - 1}
  }

  lemma {:induction false} BelowIs(n: nat)
    ensures forall i: nat :: i in Below(n) <==> i < n
    ensures |Below(n)| == n
  {
    if n > 0 {
      BelowIs(n - 1);
      assert n - 1 !in Below(n - 1);
    }
  }

  lemma IndicesCounted(tasks: Tasks, activations: Activations, a: Id, maxAttempts: int)
    requires TasksInv(tasks, activations, maxAttempts) && a in activations
    ensures Indices(tasks, a) == Below(activations[a].instructionCount)
    ensures |Indices(tasks, a)| == activations[a].instructionCount
  {
    BelowIs(activations[a].instructionCount);
    forall i: nat
      ensures i in Indices(tasks, a) <==> i in Below(activations[a].instructionCount)
    {
      IndicesAre(tasks, a, i);
    }
  }

  /** The facts under which an activation is closed: own row rewritten, every instruction terminal. */
  ghost predicate ClosingFacts(db: Db, a: Id, maxAttempts: int) {
    && TasksInv(db.tasks, db.activations, maxAttempts)
    && a in db.activations && db.activations[a].status == ActPending
    && Settled(db.tasks, a)
    && ActivationsInv(db)
  }

  lemma CloseSettlesActivation(db: Db, a: Id, now: Time, maxAttempts: int)
    requires ClosingFacts(db, a, maxAttempts)
    requires Closable(db, a, VerdictOf(db.tasks, a), now)
    ensures ActivationAgrees(Close(db, a, VerdictOf(db.tasks, a), now), a)
  {
    var verdict := VerdictOf(db.tasks, a);
    var db' := Close(db, a, verdict, now);
    assert ActivationAgrees(db, a);
    var r := db.activations[a].reservation;
    IndicesCounted(db.tasks, db.activations, a, maxAttempts);
    SameInstructionsSame(db.tasks, db'.tasks, a);
    forall i: nat
      ensures HasAllocation(db'.allocations[r], i) <==> i in DeliveredIndices(db'.tasks, a)
    {
      KeepHas(db.allocations[r], verdict.accepted, i);
      if i in verdict.accepted {
        assert db.allocations[r][i].index == i;
      }
    }
    CloseWebhooks(db, a, now);
  }

  lemma CloseWebhooks(db: Db, a: Id, now: Time)
    requires a in db.activations && ActivationAgrees(db, a) && db.activations[a].status == ActPending
    requires Closable(db, a, VerdictOf(db.tasks, a), now)
    ensures var db' := Close(db, a, VerdictOf(db.tasks, a), now);
            WebhooksAgree(db'.tasks, a, db'.activations[a].status,
                          db'.reservations[db.activations[a].reservation].callback.Some?)
  {
    assert WebhookAgrees(db.tasks, a, ActivationCompleted, false);
    assert WebhookAgrees(db.tasks, a, ActivationFailed, false);
  }

  lemma CloseKeepsOthers(db: Db, a: Id, now: Time, maxAttempts: int, b: Id)
    requires ClosingFacts(db, a, maxAttempts)
    requires Closable(db, a, VerdictOf(db.tasks, a), now)
    requires b in db.activations && b != a
    ensures ActivationAgrees(Close(db, a, VerdictOf(db.tasks, a), now), b)
  {
    var db' := Close(db, a, VerdictOf(db.tasks, a), now);
    assert ActivationAgrees(db, b);
    assert db.activations[b].reservation != db.activations[a].reservation;
    SameInstructionsSame(db.tasks, db'.tasks, b);
  }

  lemma CloseKeepsActivations(db: Db, a: Id, now: Time, maxAttempts: int)
    requires ClosingFacts(db, a, maxAttempts)
    requires Closable(db, a, VerdictOf(db.tasks, a), now)
    ensures ActivationsInv(Close(db, a, VerdictOf(db.tasks, a), now))
  {
    var db' := Close(db, a, VerdictOf(db.tasks, a), now);
    forall b | b in db'.activations
      ensures ActivationAgrees(db', b)
    {
      if b == a {
        CloseSettlesActivation(db, a, now, maxAttempts);
      } else {
        CloseKeepsOthers(db, a, now, maxAttempts, b);
      }
    }
  }

  lemma CloseKeepsReservations(db: Db, a: Id, now: Time, held: set<Id>)
    requires ReservationsInv(db, held)
    requires Closable(db, a, VerdictOf(db.tasks, a), now)
    ensures ReservationsInv(Close(db, a, VerdictOf(db.tasks, a), now), held)
  {
    ActivatedBeforeSame(db, Close(db, a, VerdictOf(db.tasks, a), now));
    assert ActivatedBefore(db, db.activations[a].reservation);
  }

  lemma ActivatedBeforeSame(db: Db, db': Db)
    requires db.activations.Keys == db'.activations.Keys
    requires forall a :: a in db.activations ==> db.activations[a].reservation == db'.activations[a].reservation
    ensures forall r :: ActivatedBefore(db', r) <==> ActivatedBefore(db, r)
  {
  }

  lemma CloseKeepsFinalisation(db: Db, a: Id, now: Time, maxAttempts: int)
    requires ClosingFacts(db, a, maxAttempts)
    requires Closable(db, a, VerdictOf(db.tasks, a), now)
    requires forall b :: b in db.activations && b != a ==>
               (db.activations[b].status == ActPending <==>
                  db.activations[b].instructionCount == 0 || SomeOpen(db.tasks, b))
    ensures var db' := Close(db, a, VerdictOf(db.tasks, a), now);
            FinalisationInv(db'.tasks, db'.activations)
  {
    var db' := Close(db, a, VerdictOf(db.tasks, a), now);
    forall b | b in db.activations
      ensures SomeOpen(db'.tasks, b) <==> SomeOpen(db.tasks, b)
    {
      SameInstructionsSame(db.tasks, db'.tasks, b);
    }
    IndicesCounted(db.tasks, db.activations, a, maxAttempts);
    forall i: nat
      ensures !Open(db.tasks, a, i)
    {
      IndicesAre(db.tasks, a, i);
    }
  }

  lemma CloseKeepsTasks(db: Db, claims: set<Claim>, a: Id, now: Time, maxAttempts: int)
    requires TasksInv(db.tasks, db.activations, maxAttempts) && ClaimsInv(db.tasks, claims)
    requires Closable(db, a, VerdictOf(db.tasks, a), now)
    ensures var db' := Close(db, a, VerdictOf(db.tasks, a), now);
            TasksInv(db'.tasks, db'.activations, maxAttempts) && ClaimsInv(db'.tasks, claims)
  {
  }

  lemma ClosingCommitKeepsTxs(s: State, t: nat, maxAttempts: int)
    requires TxsInv(s.db.tasks, s.db.activations, s.txs, maxAttempts)
    requires t in s.txs && s.txs[t].stage.Ready? && s.txs[t].stage.verdict.Some? && Committable(s.db, s.txs[t])
    ensures var db' := Committed(s.db, s.txs[t]);
            TxsInv(db'.tasks, db'.activations, s.txs - {t}, maxAttempts)
  {
    var tx := s.txs[t];
    var db' := Committed(s.db, tx);
    assert TxInv(s.db.tasks, s.db.activations, tx, maxAttempts);
    forall u | u in s.txs && u != t
      ensures TxInv(db'.tasks, db'.activations, s.txs[u], maxAttempts)
    {
      assert Apart(s.txs[u], tx);
      assert TxInv(s.db.tasks, s.db.activations, s.txs[u], maxAttempts);
      TxUnaffected(s.db.tasks, s.db.activations, db'.tasks, db'.activations, s.txs[u], maxAttempts);
    }
  }

  /** A waiting activation's instruction may be rewritten: nothing in the ledger shows it yet. */
  lemma OwnWriteKeepsLedger(db: Db, e: EventId, row: TaskRow, held: set<Id>)
    requires ActivationsInv(db) && ReservationsInv(db, held)
    requires e.ResourceTask? && e in db.tasks && Waiting(db.activations, e.activation)
    ensures ActivationsInv(db.(tasks := db.tasks[e := row]))
    ensures ReservationsInv(db.(tasks := db.tasks[e := row]), held)
  {
    var db' := db.(tasks := db.tasks[e := row]);
    forall a | a in db'.activations
      ensures ActivationAgrees(db', a)
    {
      assert ActivationAgrees(db, a);
      if a != e.activation {
        SameInstructionsSame(db.tasks, db'.tasks, a);
      }
    }
    TasksKeepReservations(db, db'.tasks, held);
  }

  lemma OwnWriteKeepsOthersWaiting(tasks: Tasks, activations: Activations, e: EventId, row: TaskRow)
    requires FinalisationInv(tasks, activations)
    requires e.ResourceTask? && e in tasks
    ensures forall b :: b in activations && b != e.activation ==>
              (activations[b].status == ActPending <==>
                 activations[b].instructionCount == 0 || SomeOpen(tasks[e := row], b))
  {
    forall b | b in activations && b != e.activation
      ensures SomeOpen(tasks[e := row], b) <==> SomeOpen(tasks, b)
    {
      SameInstructionsSame(tasks, tasks[e := row], b);
    }
  }

  lemma ClosingCommitKeeps(s: State, t: nat, maxAttempts: int)
    requires Inv(s, maxAttempts) && t in s.txs && s.txs[t].stage.Ready? && s.txs[t].stage.verdict.Some?
    requires Committable(s.db, s.txs[t])
    ensures Inv(Commits(s, t), maxAttempts)
  {
    var tx := s.txs[t];
    assert TxInv(s.db.tasks, s.db.activations, tx, maxAttempts);
    var e, row, a := tx.event, tx.row, tx.event.activation;
    var written := s.db.(tasks := s.db.tasks[e := row]);
    TasksIgnoreOpenRows(s.db.tasks, s.db.activations, e, row, maxAttempts);
    ClaimsStay(s.db.tasks, s.claims, e, row);
    OwnWriteKeepsLedger(s.db, e, row, s.held);
    OwnWriteKeepsOthersWaiting(s.db.tasks, s.db.activations, e, row);
    assert ClosingFacts(written, a, maxAttempts);
    CloseKeepsTasks(written, s.claims, a, tx.now, maxAttempts);
    CloseKeepsActivations(written, a, tx.now, maxAttempts);
    CloseKeepsReservations(written, a, tx.now, s.held);
    CloseKeepsFinalisation(written, a, tx.now, maxAttempts);
    ClosingCommitKeepsTxs(s, t, maxAttempts);
    assert Commits(s, t).db == Close(written, a, VerdictOf(written.tasks, a), tx.now);
  }

  // ----- Activation

  lemma NewTasksAre(a: Id, count: nat, callback: bool, now: Time, e: EventId)
    ensures e in NewTasks(a, count, callback, now) <==>
              && e.activation == a
              && (e.ResourceTask? ==> e.index < count)
              && (e.WebhookTask? ==> callback && e.event in {ActivationAccepted, ActivationStarted})
    ensures e in NewTasks(a, count, callback, now) ==>
              NewTasks(a, count, callback, now)[e] == TaskRow(Pending, 0, now, None, None)
  {
  }

  /** What one activation does to the task table. */
  lemma ActivatedTasks(
      tasks: Tasks, activations: Activations, a: Id, count: nat, callback: bool, now: Time, maxAttempts: int)
    requires TasksInv(tasks, activations, maxAttempts) && a !in activations
    ensures var tasks' := tasks + NewTasks(a, count, callback, now);
            && (forall e: EventId :: e.activation != a ==> (e in tasks' <==> e in tasks))
            && (forall e :: e in tasks ==> e in tasks' && tasks'[e] == tasks[e])
            && (forall i: nat :: ResourceTask(a, i) in tasks' <==> i < count)
            && (forall e :: e in tasks' && e.activation == a ==> tasks'[e] == TaskRow(Pending, 0, now, None, None))
            && WebhooksAgree(tasks', a, ActPending, callback)
  {
    forall e
      ensures e in NewTasks(a, count, callback, now) <==>
                && e.activation == a
                && (e.ResourceTask? ==> e.index < count)
                && (e.WebhookTask? ==> callback && e.event in {ActivationAccepted, ActivationStarted})
      ensures e in NewTasks(a, count, callback, now) ==>
                NewTasks(a, count, callback, now)[e] == TaskRow(Pending, 0, now, None, None)
    {
      NewTasksAre(a, count, callback, now, e);
    }
  }

  lemma ActivateKeepsTasks(db: Db, claims: set<Claim>, r: Id, a: Id, now: Time, maxAttempts: int)
    requires TasksInv(db.tasks, db.activations, maxAttempts) && ClaimsInv(db.tasks, claims)
    requires FinalisationInv(db.tasks, db.activations)
    requires a !in db.activations && r in db.reservations && r in db.allocations
    ensures var db' := Activate(db, r, a, now);
            && TasksInv(db'.tasks, db'.activations, maxAttempts) && ClaimsInv(db'.tasks, claims)
            && FinalisationInv(db'.tasks, db'.activations)
  {
    var db' := Activate(db, r, a, now);
    var count := |db.allocations[r]|;
    ActivatedTasks(db.tasks, db.activations, a, count, db.reservations[r].callback.Some?, now, maxAttempts);
    forall b | b in db.activations
      ensures SomeOpen(db'.tasks, b) <==> SomeOpen(db.tasks, b)
    {
      SameInstructionsSame(db.tasks, db'.tasks, b);
    }
    if count > 0 {
      assert Open(db'.tasks, a, 0);
    }
  }

  lemma ActivateKeepsTxs(s: State, r: Id, a: Id, now: Time, maxAttempts: int)
    requires TasksInv(s.db.tasks, s.db.activations, maxAttempts)
    requires TxsInv(s.db.tasks, s.db.activations, s.txs, maxAttempts)
    requires a !in s.db.activations && r in s.db.reservations && r in s.db.allocations
    ensures var db' := Activate(s.db, r, a, now); TxsInv(db'.tasks, db'.activations, s.txs, maxAttempts)
  {
    var db' := Activate(s.db, r, a, now);
    ActivatedTasks(s.db.tasks, s.db.activations, a, |s.db.allocations[r]|, s.db.reservations[r].callback.Some?, now, maxAttempts);
    forall t | t in s.txs
      ensures TxInv(db'.tasks, db'.activations, s.txs[t], maxAttempts)
    {
      assert TxInv(s.db.tasks, s.db.activations, s.txs[t], maxAttempts);
      TxUnaffected(s.db.tasks, s.db.activations, db'.tasks, db'.activations, s.txs[t], maxAttempts);
    }
  }

  lemma ActivateAgreesOwn(db: Db, r: Id, a: Id, now: Time, maxAttempts: int)
    requires TasksInv(db.tasks, db.activations, maxAttempts)
    requires a !in db.activations && r in db.reservations && r in db.allocations
    requires NumberedFrom(db.allocations[r], 0)
    ensures ActivationAgrees(Activate(db, r, a, now), a)
  {
    ActivatedTasks(db.tasks, db.activations, a, |db.allocations[r]|, db.reservations[r].callback.Some?, now, maxAttempts);
  }

  lemma ActivateKeepsOther(db: Db, r: Id, a: Id, now: Time, maxAttempts: int, b: Id)
    requires TasksInv(db.tasks, db.activations, maxAttempts)
    requires a !in db.activations && r in db.reservations && r in db.allocations
    requires b in db.activations && db.activations[b].reservation != r && ActivationAgrees(db, b)
    ensures ActivationAgrees(Activate(db, r, a, now), b)
  {
    var db' := Activate(db, r, a, now);
    ActivatedTasks(db.tasks, db.activations, a, |db.allocations[r]|, db.reservations[r].callback.Some?, now, maxAttempts);
    SameInstructionsSame(db.tasks, db'.tasks, b);
  }

  lemma ActivateKeepsActivations(db: Db, r: Id, a: Id, now: Time, maxAttempts: int)
    requires TasksInv(db.tasks, db.activations, maxAttempts) && ActivationsInv(db)
    requires a !in db.activations && r in db.reservations && r in db.allocations
    requires NumberedFrom(db.allocations[r], 0) && !ActivatedBefore(db, r)
    ensures ActivationsInv(Activate(db, r, a, now))
  {
    forall b | b in db.activations
      ensures ActivationAgrees(Activate(db, r, a, now), b)
    {
      ActivateKeepsOther(db, r, a, now, maxAttempts, b);
    }
    ActivateAgreesOwn(db, r, a, now, maxAttempts);
  }

  lemma ActivateKeepsReservations(db: Db, held: set<Id>, r: Id, a: Id, now: Time)
    requires ReservationsInv(db, held)
    requires r in held && a !in db.activations
    ensures ReservationsInv(Activate(db, r, a, now), held - {r})
  {
    var db' := Activate(db, r, a, now);
    assert db'.activations[a].reservation == r;
    forall q
      ensures ActivatedBefore(db', q) <==> q == r || ActivatedBefore(db, q)
    {
      if ActivatedBefore(db, q) {
        var b :| b in db.activations && db.activations[b].reservation == q;
        assert b in db'.activations && db'.activations[b].reservation == q;
      }
    }
  }

  lemma ActivateKeeps(s: State, r: Id, a: Id, now: Time, maxAttempts: int)
    requires Inv(s, maxAttempts)
    requires r in s.held && a !in s.db.activations
    ensures Inv(s.(db := Activate(s.db, r, a, now), held := s.held - {r}), maxAttempts)
  {
    ActivateKeepsTasks(s.db, s.claims, r, a, now, maxAttempts);
    ActivateKeepsTxs(s, r, a, now, maxAttempts);
    ActivateKeepsActivations(s.db, r, a, now, maxAttempts);
    ActivateKeepsReservations(s.db, s.held, r, a, now);
  }

  lemma ReservationStepKeeps(s: State, step: Step, maxAttempts: int)
    requires Inv(s, maxAttempts) && Enabled(s, step)
    requires step.Create? || step.Expire? || step.CancelCommit? || step.ReadConfirmed? || step.Release? || step.ActivateCommit?
    ensures Keeps(s, Apply(s, step, maxAttempts), maxAttempts)
  {
    match step
    case Create(r, row, rows) => CreateKeeps(s, step, maxAttempts);
    case ActivateCommit(r, a, now) => ActivateKeeps(s, r, a, now, maxAttempts);
    case Expire(now) => StatusOnlyKeeps(s, step, maxAttempts);
    case CancelCommit(r) => StatusOnlyKeeps(s, step, maxAttempts);
    case _ => ActivationLockKeeps(s, step, maxAttempts);
  }

  lemma CommitKeeps(s: State, t: nat, maxAttempts: int)
    requires Inv(s, maxAttempts) && t in s.txs && Committable(s.db, s.txs[t])
    ensures Inv(Commits(s, t), maxAttempts)
  {
    if s.txs[t].stage.verdict.Some? {
      ClosingCommitKeeps(s, t, maxAttempts);
    } else {
      PlainCommitKeeps(s, t, maxAttempts);
    }
  }

  lemma ResolveStepKeeps(s: State, step: Step, maxAttempts: int)
    requires Inv(s, maxAttempts) && Enabled(s, step)
    requires step.ResolveLock? || step.ResolveRead? || step.ResolveCommit? || step.ResolveAbort?
    ensures Keeps(s, Apply(s, step, maxAttempts), maxAttempts)
  {
    match step
    case ResolveLock(t) => LockKeeps(s, t, maxAttempts);
    case ResolveRead(t) => ReadKeeps(s, t, maxAttempts);
    case ResolveCommit(t) => CommitKeeps(s, t, maxAttempts);
    case _ => AbortKeeps(s, step, maxAttempts);
  }

  lemma StepKeeps(s: State, step: Step, maxAttempts: int)
    requires Inv(s, maxAttempts) && Enabled(s, step)
    ensures Keeps(s, Apply(s, step, maxAttempts), maxAttempts)
  {
    if step.ClaimRow? {
      ClaimKeepsRows(s, step.e, step.now, step.lockedUntil, maxAttempts);
      ClaimKeepsLedger(s, step.e, step.now, step.lockedUntil);
    } else if step.ResolveWrite? {
      WriteKeeps(s, step.t, step.claim, step.delivered, step.retryable, step.claim.clock, maxAttempts);
    } else if step.ResolveLock? || step.ResolveRead? || step.ResolveCommit? || step.ResolveAbort? {
      ResolveStepKeeps(s, step, maxAttempts);
    } else {
      ReservationStepKeeps(s, step, maxAttempts);
    }
  }
}
