/** The rows of the durable reservation ledger and the single-row and
    single-statement updates its transactions perform
    (src/der_flex/reservations/postgres.py). Identifiers of activations and
    reservations are opaque naturals. An event identifier is a name-based UUID
    in the source; here it is the name itself, which assumes that hash injective. */
module OutboxRows {
  import opened Domain

  type Id = nat

  datatype WebhookEvent = ActivationAccepted | ActivationStarted | ActivationCompleted | ActivationFailed

  datatype EventId =
    | ResourceTask(activation: Id, index: nat)
    | WebhookTask(activation: Id, event: WebhookEvent)

  datatype TaskStatus = Pending | Processing | Retry | Delivered | Dead

  /** The column created_at is the database's own stamp, which only the order of claims reads. */
  datatype TaskRow = TaskRow(
    status: TaskStatus,
    attempts: nat,
    availableAt: Time,
    lockedUntil: Option<Time>,
    deliveredAt: Option<Time>)

  datatype ActivationRow = ActivationRow(
    reservation: Id,
    status: ActivationStatus,
    instructionCount: nat,
    acceptedCount: nat,
    rejectedCount: nat,
    createdAt: Time,
    completedAt: Option<Time>)

  datatype ReservationRow = ReservationRow(
    status: ReservationStatus,
    requestedPower: real,
    allocatedPower: real,
    expiresAt: Time,
    callback: Option<string>)

  datatype AllocationRow = AllocationRow(index: nat, resource: string, power: real)

  /** The four tables; allocation rows are kept in allocation_index order. */
  datatype Db = Db(
    tasks: map<EventId, TaskRow>,
    activations: map<Id, ActivationRow>,
    reservations: map<Id, ReservationRow>,
    allocations: map<Id, seq<AllocationRow>>)

  predicate Terminal(status: TaskStatus) {
    status == Delivered || status == Dead
  }

  function Pow2(n: nat): nat {
    if n == 0 then 1 else 2 * Pow2(n - 1)
  }

  function BackoffSeconds(attempts: nat): nat {
    var doubled := Pow2(if attempts == 0 then 0 else attempts - 1);
    if doubled < 300 then doubled else 300
  }

  /** A claim takes rows that wait and are available, and rows whose lease ran out. */
  predicate Due(row: TaskRow, now: Time) {
    || (row.status in {Pending, Retry} && row.availableAt <= now)
    || (row.status == Processing && row.lockedUntil.Some? && row.lockedUntil.value <= now)
  }

  function ClaimedRow(row: TaskRow, lockedUntil: Time): TaskRow {
    row.(status := Processing, attempts := row.attempts + 1, lockedUntil := Some(lockedUntil))
  }

  function ResolvedRow(row: TaskRow, delivered: bool, retryable: bool, now: Time, maxAttempts: int): TaskRow {
    var terminal := delivered || !retryable || row.attempts >= maxAttempts;
    if delivered then
      row.(status := Delivered, availableAt := now, lockedUntil := None, deliveredAt := Some(now))
    else if terminal then
      row.(status := Dead, availableAt := now, lockedUntil := None, deliveredAt := None)
    else
      row.(status := Retry, availableAt := now + 1_000_000 * BackoffSeconds(row.attempts),
           lockedUntil := None, deliveredAt := None)
  }

  /** What a delivery reported: whether it got through, and whether it is worth another try. */
  datatype Outcome = Outcome(delivered: bool, retryable: bool)

  /** The status that an outcome of a given attempt has to be recorded as. */
  predicate RecordsAs(status: TaskStatus, outcome: Outcome, attempts: nat, maxAttempts: int) {
    && (status == Delivered <==> outcome.delivered)
    && (status == Dead <==> !outcome.delivered && (!outcome.retryable || attempts >= maxAttempts))
    && (status == Retry <==> !outcome.delivered && outcome.retryable && attempts < maxAttempts)
  }

  /** Indices of an activation's instruction tasks, and of those that were delivered. */
  function Indices(tasks: map<EventId, TaskRow>, a: Id): set<nat> {
    set e | e in tasks && e.ResourceTask? && e.activation == a :: e.index
  }

  function DeliveredIndices(tasks: map<EventId, TaskRow>, a: Id): set<nat> {
    set i | i in Indices(tasks, a) && tasks[ResourceTask(a, i)].status == Delivered
  }

  /** The re-read of the tasks finds at least one and none still open. */
  predicate Settled(tasks: map<EventId, TaskRow>, a: Id) {
    && Indices(tasks, a) != {}
    && forall i :: i in Indices(tasks, a) ==> Terminal(tasks[ResourceTask(a, i)].status)
  }

  function Keep(rows: seq<AllocationRow>, indices: set<nat>): seq<AllocationRow> {
    if rows == [] then []
    else (if rows[0].index in indices then [rows[0]] else []) + Keep(rows[1..], indices)
  }

  predicate IndexedUp(rows: seq<AllocationRow>) {
    forall j, k :: 0 <= j < k < |rows| ==> rows[j].index < rows[k].index
  }

  /** The rows kept are exactly those with one of the indices, unchanged and in order. */
  lemma {:induction false} KeepExactly(rows: seq<AllocationRow>, indices: set<nat>)
    requires IndexedUp(rows)
    ensures IndexedUp(Keep(rows, indices))
    ensures forall row :: row in Keep(rows, indices) <==> row in rows && row.index in indices
  {
    if rows != [] {
      KeepExactly(rows[1..], indices);
      assert rows == [rows[0]] + rows[1..];
      forall row | row in rows[1..]
        ensures rows[0].index < row.index
      {
        var k :| 0 <= k < |rows[1..]| && rows[1..][k] == row;
        assert rows[k + 1] == row;
      }
    }
  }

  function TotalPower(rows: seq<AllocationRow>): real {
    if rows == [] then 0.0 else rows[0].power + TotalPower(rows[1..])
  }

  /** What the re-read concluded: the delivered indices out of a number of tasks. */
  datatype Verdict = Verdict(accepted: set<nat>, total: nat)

  function VerdictOf(tasks: map<EventId, TaskRow>, a: Id): Verdict {
    Verdict(DeliveredIndices(tasks, a), |Indices(tasks, a)|)
  }

  function FinalEvent(rejected: int): WebhookEvent {
    if rejected != 0 then ActivationFailed else ActivationCompleted
  }

  /** The writes that close an activation: counts, statuses, kept allocations, final webhook. */
  function Close(db: Db, a: Id, verdict: Verdict, now: Time): Db
    requires a in db.activations
    requires db.activations[a].reservation in db.reservations
    requires db.activations[a].reservation in db.allocations
    requires |verdict.accepted| <= verdict.total
  {
    var act := db.activations[a];
    var r := act.reservation;
    var accepted := |verdict.accepted|;
    var rejected := verdict.total - accepted;
    var kept := Keep(db.allocations[r], verdict.accepted);
    var event := WebhookTask(a, FinalEvent(rejected));
    Db(
      if db.reservations[r].callback.Some? && event !in db.tasks
      then db.tasks[event := TaskRow(Pending, 0, now, None, None)]
      else db.tasks,
      db.activations[a := act.(
        status := if rejected != 0 then ActFailed else ActCompleted,
        acceptedCount := accepted,
        rejectedCount := rejected,
        completedAt := Some(now))],
      db.reservations[r := db.reservations[r].(
        status := if rejected != 0 then FAILED else COMPLETED,
        allocatedPower := TotalPower(kept))],
      db.allocations[r := kept])
  }

  /** Closing stamps its own clock, and leaves every other row, column and count alone. */
  lemma CloseChangesOnly(db: Db, a: Id, verdict: Verdict, now: Time, b: Id, q: Id, e: EventId)
    requires a in db.activations
    requires db.activations[a].reservation in db.reservations && db.activations[a].reservation in db.allocations
    requires |verdict.accepted| <= verdict.total
    ensures var after, act, r := Close(db, a, verdict, now), db.activations[a], db.activations[a].reservation;
            && after.activations[a] == act.(
                 completedAt := Some(now), status := after.activations[a].status,
                 acceptedCount := after.activations[a].acceptedCount, rejectedCount := after.activations[a].rejectedCount)
            && after.reservations[r] == db.reservations[r].(
                 status := after.reservations[r].status, allocatedPower := after.reservations[r].allocatedPower)
            && (b in db.activations && b != a ==> b in after.activations && after.activations[b] == db.activations[b])
            && (q in db.reservations && q != r ==> q in after.reservations && after.reservations[q] == db.reservations[q])
            && (q in db.allocations && q != r ==> q in after.allocations && after.allocations[q] == db.allocations[q])
            && (e in db.tasks ==> e in after.tasks && after.tasks[e] == db.tasks[e])
            && (e in after.tasks && e !in db.tasks ==> after.tasks[e] == TaskRow(Pending, 0, now, None, None))
  {
  }

  lemma DeliveredAtMostAll(tasks: map<EventId, TaskRow>, a: Id)
    ensures |DeliveredIndices(tasks, a)| <= |Indices(tasks, a)|
  {
    SubsetSize(DeliveredIndices(tasks, a), Indices(tasks, a));
  }

  lemma SubsetSize<T>(x: set<T>, y: set<T>)
    requires x <= y
    ensures |x| <= |y|
  {
    if x != {} {
      var e :| e in x;
      SubsetSize(x - {e}, y - {e});
    }
  }

  /** The back-off doubles with every attempt after the first, until it reaches five minutes. */
  lemma BackoffDoubles(attempts: nat)
    ensures BackoffSeconds(1) == 1
    ensures attempts >= 1 ==>
              BackoffSeconds(attempts + 1) ==
                if 2 * BackoffSeconds(attempts) < 300 then 2 * BackoffSeconds(attempts) else 300
  {
    if attempts >= 1 {
      assert Pow2(attempts) == 2 * Pow2(attempts - 1);
    }
  }

  /** Back-off never exceeds five minutes and starts at one second. */
  lemma BackoffBounds(attempts: nat)
    ensures 1 <= BackoffSeconds(attempts) <= 300
  {
    Pow2Positive(if attempts == 0 then 0 else attempts - 1);
  }

  /** A row sent back for a retry is due again within five minutes and has attempts left. */
  lemma RetryIsBounded(row: TaskRow, delivered: bool, retryable: bool, now: Time, maxAttempts: int)
    ensures var after := ResolvedRow(row, delivered, retryable, now, maxAttempts);
            && after.attempts == row.attempts
            && (after.status == Retry <==> !delivered && retryable && row.attempts < maxAttempts)
            && (after.status == Retry ==> now + 1_000_000 <= after.availableAt <= now + 300_000_000)
  {
    BackoffBounds(row.attempts);
  }

  /** A resolve records its outcome: deliveries as such, failures for good once they are not worth
      another try or the attempts are used up; it frees the row, and stamps deliveries only. */
  lemma OutcomeIsRecorded(row: TaskRow, outcome: Outcome, now: Time, maxAttempts: int)
    ensures var after := ResolvedRow(row, outcome.delivered, outcome.retryable, now, maxAttempts);
            && RecordsAs(after.status, outcome, row.attempts, maxAttempts)
            && after.attempts == row.attempts && after.lockedUntil.None?
            && after.deliveredAt == (if outcome.delivered then Some(now) else None)
            && (after.status != Retry ==> after.availableAt == now)
            && (after.status == Retry ==> after.availableAt == now + 1_000_000 * BackoffSeconds(row.attempts))
  {
  }

  lemma {:induction false} Pow2Positive(n: nat)
    ensures Pow2(n) >= 1
  {
    if n > 0 {
      Pow2Positive(n - 1);
    }
  }
}
