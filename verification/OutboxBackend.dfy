/** The outbox side of the PostgreSQL backend and its processor, run by one worker at a
    time. The methods update the tables in place; what they compute is the protocol's
    own transaction taken without interruption, and each keeps the ledger in agreement. */
module OutboxBackend {
  import opened Domain
  import opened OutboxRows
  import opened OutboxProtocol
  import opened OutboxClocks
  import OutboxRuns
  import Sequences
  import opened Totals

  /** What a worker holds after a claim. */
  type OutboxTask = Claim

  datatype Attempt = Accepted | Rejected | Raised

  /** A webhook is always worth another try; an instruction only if its acceptor raised. */
  function OutcomeOf(event: EventId, attempt: Attempt): Outcome {
    if event.WebhookTask? then Outcome(attempt == Accepted, true)
    else Outcome(attempt == Accepted, attempt == Raised)
  }

  // ----- The transactions as functions of the tables

  /** The claim's update; its row filter never lets a terminal row through. */
  function ClaimAll(tasks: map<EventId, TaskRow>, claimed: seq<OutboxTask>, lockedUntil: Time): map<EventId, TaskRow> {
    if claimed == [] then tasks
    else
      var before := ClaimAll(tasks, claimed[..|claimed| - 1], lockedUntil);
      var e := claimed[|claimed| - 1].event;
      if e in before && !Terminal(before[e].status) then before[e := ClaimedRow(before[e], lockedUntil)] else before
  }

  function WithClaims(db: Db, claimed: seq<OutboxTask>, lockedUntil: Time): Db {
    db.(tasks := ClaimAll(db.tasks, claimed, lockedUntil))
  }

  /** Whether the claim is still the current one. */
  predicate Current(db: Db, task: OutboxTask) {
    && task.event in db.tasks
    && db.tasks[task.event].status == Processing
    && db.tasks[task.event].attempts == task.attempts
  }

  predicate Joined(db: Db, a: Id) {
    && a in db.activations
    && db.activations[a].reservation in db.reservations
    && db.activations[a].reservation in db.allocations
  }

  predicate ReadyToClose(db: Db, a: Id) {
    Joined(db, a) && db.activations[a].status == ActPending && Settled(db.tasks, a)
  }

  /** None when the check constraint on the completion time rolls the transaction back. */
  function Finalized(db: Db, a: Id, now: Time): Option<Db> {
    if !ReadyToClose(db, a) then Some(db)
    else if now < db.activations[a].createdAt then None
    else
      DeliveredAtMostAll(db.tasks, a);
      Some(Close(db, a, VerdictOf(db.tasks, a), now))
  }

  function Resolved(db: Db, task: OutboxTask, outcome: Outcome, now: Time, maxAttempts: int): Option<Db> {
    if !Current(db, task) then Some(db)
    else
      var row := ResolvedRow(db.tasks[task.event], outcome.delivered, outcome.retryable, now, maxAttempts);
      var written := db.(tasks := db.tasks[task.event := row]);
      if task.event.ResourceTask? && Terminal(row.status) then Finalized(written, task.event.activation, now)
      else Some(written)
  }

  // ----- The sequential transaction is the interleaved one, undisturbed

  /** The tables between transactions. */
  ghost predicate Settles(db: Db, maxAttempts: int) {
    && TasksInv(db.tasks, db.activations, maxAttempts)
    && FinalisationInv(db.tasks, db.activations)
    && ActivationsInv(db)
    && ReservationsInv(db, {})
  }

  ghost predicate StaysSettled(before: Db, after: Db, maxAttempts: int) {
    !Settles(before, maxAttempts) || Settles(after, maxAttempts)
  }

  ghost function Alone(db: Db): State {
    State(db, {}, map[], {}, [])
  }

  ghost function Ends(s: State): State
    requires 0 in s.txs
  {
    if Committable(s.db, s.txs[0]) then Commits(s, 0) else s.(txs := s.txs - {0})
  }

  ghost function ReadsOn(s: State): State
    requires 0 in s.txs
  {
    Ends(if s.txs[0].stage == ActivationLocked then Reads(s, 0) else s)
  }

  /** The transaction after its first statement, from lock to commit or rollback. */
  ghost function Finishes(s: State): State
    requires 0 in s.txs
  {
    ReadsOn(if s.txs[0].stage == Written then Locks(s, 0) else s)
  }

  ghost function RanAlone(db: Db, task: OutboxTask, outcome: Outcome, now: Time, maxAttempts: int): State {
    var s1 := Writes(Alone(db), 0, task, outcome.delivered, outcome.retryable, now, maxAttempts);
    if 0 in s1.txs then Finishes(s1) else s1
  }

  lemma FinishesPlain(s: State)
    requires 0 in s.txs && s.txs[0].stage == Ready(None)
    ensures Finishes(s).db == s.db.(tasks := s.db.tasks[s.txs[0].event := s.txs[0].row])
  {
  }

  lemma FinishesClosing(s: State, maxAttempts: int)
    requires 0 in s.txs && s.txs[0].stage == Written && ActivationsInv(s.db)
    requires Waiting(s.db.activations, s.txs[0].event.activation)
    ensures var tx := s.txs[0];
            Finishes(s).db == (match Finalized(s.db.(tasks := s.db.tasks[tx.event := tx.row]), tx.event.activation, tx.now)
                               case Some(after) => after case None => s.db)
  {
    var tx := s.txs[0];
    var a := tx.event.activation;
    assert ActivationAgrees(s.db, a);
    DeliveredAtMostAll(s.db.tasks[tx.event := tx.row], a);
  }

  /** A claim that is not current changes nothing. */
  lemma StaleIsSequential(db: Db, task: OutboxTask, outcome: Outcome, now: Time, maxAttempts: int)
    requires !Current(db, task)
    ensures Resolved(db, task, outcome, now, maxAttempts) == Some(db)
    ensures RanAlone(db, task, outcome, now, maxAttempts).db == db
  {
  }

  lemma ClosingIsSequential(db: Db, task: OutboxTask, outcome: Outcome, now: Time, maxAttempts: int)
    requires Settles(db, maxAttempts) && Current(db, task) && task.event.ResourceTask?
    requires Terminal(ResolvedRow(db.tasks[task.event], outcome.delivered, outcome.retryable, now, maxAttempts).status)
    ensures RanAlone(db, task, outcome, now, maxAttempts).db ==
            (match Resolved(db, task, outcome, now, maxAttempts) case Some(after) => after case None => db)
  {
    var e := task.event;
    assert Open(db.tasks, e.activation, e.index);
    assert SomeOpen(db.tasks, e.activation);
    FinishesClosing(Writes(Alone(db), 0, task, outcome.delivered, outcome.retryable, now, maxAttempts), maxAttempts);
  }

  /** Taken one after the other by a lone worker, the protocol's steps do exactly what the
      sequential transaction does. */
  lemma SplitIsSequential(db: Db, task: OutboxTask, outcome: Outcome, now: Time, maxAttempts: int)
    requires Settles(db, maxAttempts)
    ensures RanAlone(db, task, outcome, now, maxAttempts).db ==
            (match Resolved(db, task, outcome, now, maxAttempts) case Some(after) => after case None => db)
  {
    if !Current(db, task) {
      StaleIsSequential(db, task, outcome, now, maxAttempts);
    } else {
      var row := ResolvedRow(db.tasks[task.event], outcome.delivered, outcome.retryable, now, maxAttempts);
      if task.event.ResourceTask? && Terminal(row.status) {
        ClosingIsSequential(db, task, outcome, now, maxAttempts);
      } else {
        FinishesPlain(Writes(Alone(db), 0, task, outcome.delivered, outcome.retryable, now, maxAttempts));
      }
    }
  }

  lemma EndsKeeps(s: State, maxAttempts: int)
    requires Inv(s, maxAttempts) && 0 in s.txs
    ensures Inv(Ends(s), maxAttempts) && Ends(s).held == s.held
  {
    if Committable(s.db, s.txs[0]) {
      if s.txs[0].stage.verdict.Some? {
        ClosingCommitKeeps(s, 0, maxAttempts);
      } else {
        PlainCommitKeeps(s, 0, maxAttempts);
      }
    } else {
      AbortKeeps(s, ResolveAbort(0), maxAttempts);
    }
  }

  lemma ReadsOnKeeps(s: State, maxAttempts: int)
    requires Inv(s, maxAttempts) && 0 in s.txs
    ensures Inv(ReadsOn(s), maxAttempts) && ReadsOn(s).held == s.held
  {
    if s.txs[0].stage == ActivationLocked {
      ReadKeeps(s, 0, maxAttempts);
      EndsKeeps(Reads(s, 0), maxAttempts);
    } else {
      EndsKeeps(s, maxAttempts);
    }
  }

  lemma FinishesKeeps(s: State, maxAttempts: int)
    requires Inv(s, maxAttempts) && s.txs.Keys == {0}
    ensures Inv(Finishes(s), maxAttempts) && Finishes(s).held == s.held
  {
    if s.txs[0].stage == Written {
      OthersDoNotHold(s);
      LockKeeps(s, 0, maxAttempts);
      ReadsOnKeeps(Locks(s, 0), maxAttempts);
    } else {
      ReadsOnKeeps(s, maxAttempts);
    }
  }

  lemma OthersDoNotHold(s: State)
    requires s.txs.Keys == {0} && s.txs[0].stage == Written
    ensures ActivationFree(s, s.txs[0].event.activation)
  {
  }

  lemma AloneIsReady(db: Db, maxAttempts: int)
    requires Settles(db, maxAttempts)
    ensures Inv(Alone(db), maxAttempts)
  {
  }

  lemma RanAloneSettles(db: Db, task: OutboxTask, outcome: Outcome, now: Time, maxAttempts: int)
    requires Settles(db, maxAttempts)
    ensures Settles(RanAlone(db, task, outcome, now, maxAttempts).db, maxAttempts)
  {
    AloneIsReady(db, maxAttempts);
    WriteKeeps(Alone(db), 0, task, outcome.delivered, outcome.retryable, now, maxAttempts);
    WrittenAloneSettles(Writes(Alone(db), 0, task, outcome.delivered, outcome.retryable, now, maxAttempts), maxAttempts);
  }

  lemma WrittenAloneSettles(s: State, maxAttempts: int)
    requires Inv(s, maxAttempts) && s.txs.Keys <= {0} && s.held == {}
    ensures Settles(if 0 in s.txs then Finishes(s).db else s.db, maxAttempts)
  {
    if 0 in s.txs {
      assert s.txs.Keys == {0};
      FinishesKeeps(s, maxAttempts);
    }
  }

  /** Resolving a claim keeps the ledger in agreement. */
  lemma ResolvedSettles(db: Db, task: OutboxTask, outcome: Outcome, now: Time, maxAttempts: int)
    requires Settles(db, maxAttempts)
    ensures match Resolved(db, task, outcome, now, maxAttempts)
            case Some(after) => Settles(after, maxAttempts)
            case None => true
  {
    RanAloneSettles(db, task, outcome, now, maxAttempts);
    SplitIsSequential(db, task, outcome, now, maxAttempts);
  }

  // ----- Remaining work

  function AtLeast(x: int, floor: nat): nat {
    if x < floor then floor else x
  }

  function RowWork(row: TaskRow, maxAttempts: int): nat {
    if Terminal(row.status) then 0
    else if row.status == Processing then AtLeast(maxAttempts - row.attempts, 0) + 1
    else AtLeast(maxAttempts - row.attempts, 1)
  }

  function ActivationWork(act: ActivationRow, maxAttempts: int): nat {
    if act.status == ActPending then AtLeast(maxAttempts, 1) else 0
  }

  ghost function RowsWork(tasks: map<EventId, TaskRow>, maxAttempts: int): map<EventId, nat> {
    map e | e in tasks :: RowWork(tasks[e], maxAttempts)
  }

  ghost function ActivationsWork(activations: map<Id, ActivationRow>, maxAttempts: int): map<Id, nat> {
    map a | a in activations :: ActivationWork(activations[a], maxAttempts)
  }

  /** Attempts left on open rows, and a closing webhook still to come for each waiting activation. */
  ghost function Work(db: Db, maxAttempts: int): nat {
    Total(RowsWork(db.tasks, maxAttempts)) + Total(ActivationsWork(db.activations, maxAttempts))
  }

  lemma RowsWorkUpdate(tasks: map<EventId, TaskRow>, e: EventId, row: TaskRow, maxAttempts: int)
    ensures Total(RowsWork(tasks[e := row], maxAttempts)) + (if e in tasks then RowWork(tasks[e], maxAttempts) else 0)
         == Total(RowsWork(tasks, maxAttempts)) + RowWork(row, maxAttempts)
  {
    assert RowsWork(tasks[e := row], maxAttempts) == RowsWork(tasks, maxAttempts)[e := RowWork(row, maxAttempts)];
    TotalUpdate(RowsWork(tasks, maxAttempts), e, RowWork(row, maxAttempts));
  }

  lemma ActivationsWorkUpdate(activations: map<Id, ActivationRow>, a: Id, act: ActivationRow, maxAttempts: int)
    requires a in activations
    ensures Total(ActivationsWork(activations[a := act], maxAttempts)) + ActivationWork(activations[a], maxAttempts)
         == Total(ActivationsWork(activations, maxAttempts)) + ActivationWork(act, maxAttempts)
  {
    assert ActivationsWork(activations[a := act], maxAttempts)
        == ActivationsWork(activations, maxAttempts)[a := ActivationWork(act, maxAttempts)];
    TotalUpdate(ActivationsWork(activations, maxAttempts), a, ActivationWork(act, maxAttempts));
  }

  lemma CloseKeepsWork(db: Db, a: Id, now: Time, maxAttempts: int)
    requires ReadyToClose(db, a) && Closable(db, a, VerdictOf(db.tasks, a), now)
    ensures Work(Close(db, a, VerdictOf(db.tasks, a), now), maxAttempts) <= Work(db, maxAttempts)
  {
    var db' := Close(db, a, VerdictOf(db.tasks, a), now);
    ActivationsWorkUpdate(db.activations, a, db'.activations[a], maxAttempts);
    if db'.tasks != db.tasks {
      var event := WebhookTask(a, FinalEvent(|Indices(db.tasks, a)| - |DeliveredIndices(db.tasks, a)|));
      RowsWorkUpdate(db.tasks, event, TaskRow(Pending, 0, now, None, None), maxAttempts);
    }
  }

  /** A resolve rolls back exactly when the activation it would close was created later. */
  lemma ResolveRaisesExactly(db: Db, task: OutboxTask, outcome: Outcome, now: Time, maxAttempts: int)
    ensures Resolved(db, task, outcome, now, maxAttempts).None? <==>
              && Current(db, task) && task.event.ResourceTask?
              && var row := ResolvedRow(db.tasks[task.event], outcome.delivered, outcome.retryable, now, maxAttempts);
              && Terminal(row.status)
              && ReadyToClose(db.(tasks := db.tasks[task.event := row]), task.event.activation)
              && now < db.activations[task.event.activation].createdAt
  {
  }

  /** What a resolve does to the rows: its own row records the outcome, every other row stays. */
  lemma ResolveRecords(
      db: Db, task: OutboxTask, outcome: Outcome, now: Time, maxAttempts: int, after: Db, other: EventId)
    requires Current(db, task) && Resolved(db, task, outcome, now, maxAttempts) == Some(after)
    ensures task.event in after.tasks
    ensures RecordsAs(after.tasks[task.event].status, outcome, task.attempts, maxAttempts)
    ensures after.tasks[task.event].attempts == task.attempts
    ensures other in db.tasks && other != task.event ==> other in after.tasks && after.tasks[other] == db.tasks[other]
  {
    OutcomeIsRecorded(db.tasks[task.event], outcome, now, maxAttempts);
  }

  /** Every recorded outcome of a current claim leaves less work, even when it adds a webhook; only
      a clock behind the activation's creation keeps one from being recorded. */
  lemma ResolveReducesWork(db: Db, task: OutboxTask, outcome: Outcome, now: Time, maxAttempts: int)
    requires Current(db, task)
    ensures match Resolved(db, task, outcome, now, maxAttempts)
            case Some(after) => Work(after, maxAttempts) < Work(db, maxAttempts)
            case None => !NotBefore(db.activations, task.event.activation, now)
  {
    var row := ResolvedRow(db.tasks[task.event], outcome.delivered, outcome.retryable, now, maxAttempts);
    var written := db.(tasks := db.tasks[task.event := row]);
    RowsWorkUpdate(db.tasks, task.event, row, maxAttempts);
    assert Work(written, maxAttempts) < Work(db, maxAttempts);
    var a := task.event.activation;
    DeliveredAtMostAll(written.tasks, a);
    if task.event.ResourceTask? && ReadyToClose(written, a) && written.activations[a].createdAt <= now {
      CloseKeepsWork(written, a, now, maxAttempts);
    }
  }

  /** The tables and a batch's claims under one clock, none of it behind an activation's creation. */
  ghost predicate InTime(db: Db, claimed: seq<OutboxTask>, now: Time) {
    && Clocked(db.tasks, db.activations)
    && forall k :: 0 <= k < |claimed| ==> NotBefore(db.activations, claimed[k].event.activation, now)
  }

  ghost predicate StaysInTime(before: Db, after: Db, claimed: seq<OutboxTask>, now: Time) {
    !InTime(before, claimed, now) || InTime(after, claimed, now)
  }

  /** A resolve whose clock is that of its claim never rolls back, and leaves the clocks in order. */
  lemma ResolveInTime(
      db: Db, claimed: seq<OutboxTask>, k: nat, outcome: Outcome, now: Time, maxAttempts: int)
    requires InTime(db, claimed, now) && k < |claimed|
    ensures match Resolved(db, claimed[k], outcome, now, maxAttempts)
            case Some(after) => InTime(after, claimed, now)
            case None => false
  {
    var e := claimed[k].event;
    assert NotBefore(db.activations, e.activation, now);
    if Current(db, claimed[k]) {
      var row := ResolvedRow(db.tasks[e], outcome.delivered, outcome.retryable, now, maxAttempts);
      if e.activation in db.activations {
        ResolvedRowClocked(db.tasks[e], outcome.delivered, outcome.retryable, now, maxAttempts,
                           db.activations[e.activation].createdAt);
      }
      WriteKeepsClocks(db.tasks, db.activations, e, row);
      FinalizeInTime(db.(tasks := db.tasks[e := row]), claimed, e.activation, now);
    }
  }

  lemma FinalizeInTime(db: Db, claimed: seq<OutboxTask>, a: Id, now: Time)
    requires InTime(db, claimed, now) && NotBefore(db.activations, a, now)
    ensures match Finalized(db, a, now) case Some(after) => InTime(after, claimed, now) case None => false
  {
    if ReadyToClose(db, a) {
      DeliveredAtMostAll(db.tasks, a);
      CloseKeepsClocks(db, a, VerdictOf(db.tasks, a), now);
    }
  }

  /** A claim never adds work: the lease costs what the attempt used up. */
  lemma ClaimKeepsWork(tasks: map<EventId, TaskRow>, e: EventId, lockedUntil: Time, maxAttempts: int)
    requires e in tasks && !Terminal(tasks[e].status)
    ensures Total(RowsWork(tasks[e := ClaimedRow(tasks[e], lockedUntil)], maxAttempts)) <= Total(RowsWork(tasks, maxAttempts))
  {
    RowsWorkUpdate(tasks, e, ClaimedRow(tasks[e], lockedUntil), maxAttempts);
  }

  /** No work left means no open row. */
  lemma NoWorkNoOpenRow(db: Db, maxAttempts: int, e: EventId)
    requires e in db.tasks && Work(db, maxAttempts) == 0
    ensures Terminal(db.tasks[e].status)
  {
    TotalRemove(RowsWork(db.tasks, maxAttempts), e);
  }

  // ----- The backend and the processor

  /** What the claim's ORDER BY reads beside the event: the time the database stamped on the row
      when it was inserted, and the rank of the row's identifier. */
  datatype ClaimOrder = ClaimOrder(createdAt: EventId -> Time, identifier: EventId -> int)

  function EventRank(e: EventId): int {
    match e
    case WebhookTask(_, ActivationAccepted) => 0
    case WebhookTask(_, ActivationStarted) => 1
    case ResourceTask(_, _) => 2
    case WebhookTask(_, _) => 3
  }

  /** Whether the ORDER BY may put e before f. */
  predicate NotAfter(order: ClaimOrder, e: EventId, f: EventId) {
    || order.createdAt(e) < order.createdAt(f)
    || (order.createdAt(e) == order.createdAt(f) &&
        (|| EventRank(e) < EventRank(f)
         || (EventRank(e) == EventRank(f) && order.identifier(e) <= order.identifier(f))))
  }

  predicate FirstOf(order: ClaimOrder, events: set<EventId>, e: EventId) {
    forall f :: f in events ==> NotAfter(order, e, f)
  }

  lemma FirstExists(order: ClaimOrder, events: set<EventId>)
    requires events != {}
    ensures exists e :: e in events && FirstOf(order, events, e)
    decreases events
  {
    var e :| e in events;
    if events == {e} {
      assert FirstOf(order, events, e);
    } else {
      FirstExists(order, events - {e});
      var f :| f in events - {e} && FirstOf(order, events - {e}, f);
      var first := if NotAfter(order, e, f) then e else f;
      forall g | g in events
        ensures NotAfter(order, first, g)
      {
        if g != e {
          NotAfterTotal(order, e, f, g);
        }
      }
      assert FirstOf(order, events, first);
    }
  }

  lemma NotAfterTotal(order: ClaimOrder, e: EventId, f: EventId, g: EventId)
    ensures NotAfter(order, e, e) && (NotAfter(order, e, f) || NotAfter(order, f, e))
    ensures NotAfter(order, e, f) && NotAfter(order, f, g) ==> NotAfter(order, e, g)
  {
  }

  /** No row that was left is before one that was taken. */
  ghost predicate TakesFirst(order: ClaimOrder, taken: set<EventId>, all: set<EventId>) {
    forall e, f :: e in taken && f in all - taken ==> NotAfter(order, e, f)
  }

  lemma TakesNext(order: ClaimOrder, taken: set<EventId>, all: set<EventId>, e: EventId)
    requires taken <= all && TakesFirst(order, taken, all)
    requires e in all - taken && FirstOf(order, all - taken, e)
    ensures TakesFirst(order, taken + {e}, all) && taken + {e} <= all
    ensures all - taken - {e} == all - (taken + {e})
    ensures |taken + {e}| == |taken| + 1
  {
  }

  predicate Distinct(claimed: seq<OutboxTask>) {
    forall j, k :: 0 <= j < k < |claimed| ==> claimed[j].event != claimed[k].event
  }

  function Events(claimed: seq<OutboxTask>): set<EventId> {
    set k | 0 <= k < |claimed| :: claimed[k].event
  }

  /** Every claim is of a due row and carries the row's next attempt number and the clock. */
  predicate ClaimsDue(tasks: map<EventId, TaskRow>, claimed: seq<OutboxTask>, now: Time) {
    forall k :: 0 <= k < |claimed| ==>
      && claimed[k].event in tasks
      && Due(tasks[claimed[k].event], now)
      && claimed[k].attempts == tasks[claimed[k].event].attempts + 1
      && claimed[k].clock == now
  }

  function DueRows(tasks: map<EventId, TaskRow>, now: Time): set<EventId> {
    set e | e in tasks && Due(tasks[e], now)
  }

  predicate OpenRows(tasks: map<EventId, TaskRow>, claimed: seq<OutboxTask>) {
    forall k :: 0 <= k < |claimed| ==> claimed[k].event in tasks && !Terminal(tasks[claimed[k].event].status)
  }

  lemma {:induction false} ClaimAllRows(tasks: map<EventId, TaskRow>, claimed: seq<OutboxTask>, lockedUntil: Time)
    requires Distinct(claimed) && OpenRows(tasks, claimed)
    ensures var after := ClaimAll(tasks, claimed, lockedUntil);
            && after.Keys == tasks.Keys
            && forall e :: e in tasks ==>
                 after[e] == if e in Events(claimed) then ClaimedRow(tasks[e], lockedUntil) else tasks[e]
  {
    if claimed != [] {
      var before, last := claimed[..|claimed| - 1], claimed[|claimed| - 1];
      assert last.event in Events(claimed);
      ClaimAllRows(tasks, before, lockedUntil);
      assert Events(claimed) == Events(before) + {last.event};
    }
  }

  lemma EventsAppend(claimed: seq<OutboxTask>, task: OutboxTask)
    ensures Events(claimed + [task]) == Events(claimed) + {task.event}
  {
    var longer := claimed + [task];
    assert longer[|claimed|] == task;
    forall f | f in Events(claimed)
      ensures f in Events(longer)
    {
      var k :| 0 <= k < |claimed| && claimed[k].event == f;
      assert longer[k].event == f;
    }
  }

  lemma NothingLeft<T>(all: set<T>, taken: set<T>)
    requires taken <= all && all - taken == {}
    ensures taken == all
  {
    forall x | x in all
      ensures x in taken
    {
      assert x !in all - taken;
    }
  }

  /** Claims of distinct due rows, whatever the order in which they are returned. */
  ghost predicate Claiming(tasks: map<EventId, TaskRow>, claimed: seq<OutboxTask>, now: Time) {
    && Distinct(claimed) && ClaimsDue(tasks, claimed, now)
  }

  lemma ClaimNext(tasks: map<EventId, TaskRow>, claimed: seq<OutboxTask>, now: Time, e: EventId)
    requires Claiming(tasks, claimed, now)
    requires e in DueRows(tasks, now) - Events(claimed)
    ensures Claiming(tasks, claimed + [Claim(e, tasks[e].attempts + 1, now)], now)
    ensures Events(claimed + [Claim(e, tasks[e].attempts + 1, now)]) == Events(claimed) + {e}
  {
    var longer := claimed + [Claim(e, tasks[e].attempts + 1, now)];
    EventsAppend(claimed, Claim(e, tasks[e].attempts + 1, now));
    forall j | 0 <= j < |claimed|
      ensures longer[j].event in Events(claimed)
    {
    }
  }

  /** Of the chosen rows all but the rest are claimed. */
  ghost predicate ClaimingThese(
      tasks: map<EventId, TaskRow>, claimed: seq<OutboxTask>, now: Time, chosen: set<EventId>, rest: set<EventId>) {
    && rest <= chosen <= DueRows(tasks, now)
    && Events(claimed) == chosen - rest && |claimed| + |rest| == |chosen|
    && Claiming(tasks, claimed, now)
  }

  lemma ClaimTheseNext(
      tasks: map<EventId, TaskRow>, claimed: seq<OutboxTask>, now: Time, chosen: set<EventId>, rest: set<EventId>,
      e: EventId, lockedUntil: Time)
    requires ClaimingThese(tasks, claimed, now, chosen, rest) && e in rest
    ensures var next := Claim(e, tasks[e].attempts + 1, now);
            && ClaimingThese(tasks, claimed + [next], now, chosen, rest - {e})
            && e in ClaimAll(tasks, claimed, lockedUntil) && ClaimAll(tasks, claimed, lockedUntil)[e] == tasks[e]
            && ClaimAll(tasks, claimed + [next], lockedUntil)
            == ClaimAll(tasks, claimed, lockedUntil)[e := ClaimedRow(tasks[e], lockedUntil)]
  {
    ClaimAllNext(tasks, claimed, Claim(e, tasks[e].attempts + 1, now), lockedUntil);
    ClaimNext(tasks, claimed, now, e);
    assert chosen - (rest - {e}) == chosen - rest + {e};
  }

  lemma ClaimAllNext(tasks: map<EventId, TaskRow>, claimed: seq<OutboxTask>, task: OutboxTask, lockedUntil: Time)
    requires Distinct(claimed) && OpenRows(tasks, claimed)
    requires task.event in tasks && task.event !in Events(claimed) && !Terminal(tasks[task.event].status)
    ensures task.event in ClaimAll(tasks, claimed, lockedUntil)
    ensures ClaimAll(tasks, claimed, lockedUntil)[task.event] == tasks[task.event]
    ensures ClaimAll(tasks, claimed + [task], lockedUntil)
         == ClaimAll(tasks, claimed, lockedUntil)[task.event := ClaimedRow(tasks[task.event], lockedUntil)]
  {
    ClaimAllRows(tasks, claimed, lockedUntil);
    var longer := claimed + [task];
    assert longer[..|longer| - 1] == claimed;
  }

  class PostgresReservationBackend {
    var tasks: map<EventId, TaskRow>
    var activations: map<Id, ActivationRow>
    var reservations: map<Id, ReservationRow>
    var allocations: map<Id, seq<AllocationRow>>
    const order: ClaimOrder

    ghost function Model(): Db
      reads this
    {
      Db(tasks, activations, reservations, allocations)
    }

    /** No row is due before its activation was created. */
    ghost predicate InOrder()
      reads this
    {
      Clocked(tasks, activations)
    }

    constructor (order: ClaimOrder)
      ensures Model() == Db(map[], map[], map[], map[]) && this.order == order
    {
      this.order := order;
      tasks, activations, reservations, allocations := map[], map[], map[], map[];
    }

    /** The first due rows that no other worker holds locked, returned in any order. */
    method ClaimOutbox(now: Time, limit: nat, leaseSeconds: int, locked: set<EventId>)
      returns (claimed: seq<OutboxTask>)
      modifies this`tasks
      ensures Claiming(old(tasks), claimed, now)
      ensures Events(claimed) <= DueRows(old(tasks), now) - locked
      ensures TakesFirst(order, Events(claimed), DueRows(old(tasks), now) - locked)
      ensures |claimed| <= limit
      ensures |claimed| < limit ==> Events(claimed) == DueRows(old(tasks), now) - locked
      ensures tasks == ClaimAll(old(tasks), claimed, now + 1_000_000 * leaseSeconds)
    {
      var unclaimed := tasks;
      var lockedUntil := now + 1_000_000 * leaseSeconds;
      var chosen := SelectCandidates(now, limit, locked);
      var rest := chosen;
      claimed := [];
      while rest != {}
        invariant ClaimingThese(unclaimed, claimed, now, chosen, rest)
        invariant tasks == ClaimAll(unclaimed, claimed, lockedUntil)
        decreases rest
      {
        var e :| e in rest;
        ClaimTheseNext(unclaimed, claimed, now, chosen, rest, e, lockedUntil);
        var row := ClaimedRow(tasks[e], lockedUntil);
        tasks := tasks[e := row];
        claimed := claimed + [Claim(e, row.attempts, now)];
        rest := rest - {e};
      }
      assert Events(claimed) == chosen;
    }

    /** The candidates of the claim: ORDER BY, SKIP LOCKED and LIMIT. */
    method SelectCandidates(now: Time, limit: nat, locked: set<EventId>) returns (chosen: set<EventId>)
      ensures chosen <= DueRows(tasks, now) - locked
      ensures TakesFirst(order, chosen, DueRows(tasks, now) - locked)
      ensures |chosen| <= limit
      ensures |chosen| < limit ==> chosen == DueRows(tasks, now) - locked
    {
      var all := DueRows(tasks, now) - locked;
      var candidates := all;
      chosen := {};
      while |chosen| < limit && candidates != {}
        invariant chosen <= all && candidates == all - chosen && |chosen| <= limit
        invariant TakesFirst(order, chosen, all)
        decreases limit - |chosen|
      {
        FirstExists(order, candidates);
        var e :| e in candidates && FirstOf(order, candidates, e);
        TakesNext(order, chosen, all, e);
        chosen, candidates := chosen + {e}, candidates - {e};
      }
      if candidates == {} {
        NothingLeft(all, chosen);
      }
    }

    /** Returns whether the check constraint raised; the caller's transaction then rolls back. */
    method FinalizeActivation(a: Id, now: Time) returns (raised: bool)
      modifies this
      ensures raised <==> Finalized(old(Model()), a, now).None?
      ensures Model() == (match Finalized(old(Model()), a, now) case Some(after) => after case None => old(Model()))
    {
      raised := false;
      if a !in activations || activations[a].reservation !in reservations ||
         activations[a].reservation !in allocations || activations[a].status != ActPending {
        return;
      }
      var act := activations[a];
      var r := act.reservation;
      if !Settled(tasks, a) {
        return;
      }
      var acceptedIndices := DeliveredIndices(tasks, a);
      var accepted := |acceptedIndices|;
      DeliveredAtMostAll(tasks, a);
      var rejected := |Indices(tasks, a)| - accepted;
      if now < act.createdAt {
        raised := true;
        return;
      }
      var remaining := Keep(allocations[r], acceptedIndices);
      activations := activations[a := act.(
        status := if rejected != 0 then ActFailed else ActCompleted,
        acceptedCount := accepted, rejectedCount := rejected, completedAt := Some(now))];
      reservations := reservations[r := reservations[r].(
        status := if rejected != 0 then FAILED else COMPLETED, allocatedPower := TotalPower(remaining))];
      allocations := allocations[r := remaining];
      if reservations[r].callback.Some? {
        var event := WebhookTask(a, FinalEvent(rejected));
        if event !in tasks {
          tasks := tasks[event := TaskRow(Pending, 0, now, None, None)];
        }
      }
    }

    method ResolveOutbox(task: OutboxTask, outcome: Outcome, now: Time, maxAttempts: int) returns (raised: bool)
      modifies this
      ensures raised <==> Resolved(old(Model()), task, outcome, now, maxAttempts).None?
      ensures Model() == (match Resolved(old(Model()), task, outcome, now, maxAttempts)
                          case Some(after) => after case None => old(Model()))
    {
      raised := false;
      if task.event !in tasks {
        return;
      }
      var row := tasks[task.event];
      if row.status != Processing || row.attempts != task.attempts {
        return;
      }
      var before := tasks;
      var terminal := outcome.delivered || !outcome.retryable || row.attempts >= maxAttempts;
      if outcome.delivered {
        row := row.(status := Delivered, availableAt := now, deliveredAt := Some(now));
      } else if terminal {
        row := row.(status := Dead, availableAt := now, deliveredAt := None);
      } else {
        var delay := BackoffSeconds(row.attempts);
        row := row.(status := Retry, availableAt := now + 1_000_000 * delay, deliveredAt := None);
      }
      row := row.(lockedUntil := None);
      tasks := tasks[task.event := row];
      if task.event.ResourceTask? && terminal {
        raised := FinalizeActivation(task.event.activation, now);
        if raised {
          tasks := before;
        }
      }
    }
  }

  function AfterAll(
      db: Db, claimed: seq<OutboxTask>, send: OutboxTask -> Attempt, now: Time, maxAttempts: int): Db {
    if claimed == [] then db
    else
      var before := AfterAll(db, claimed[..|claimed| - 1], send, now, maxAttempts);
      var task := claimed[|claimed| - 1];
      match Resolved(before, task, OutcomeOf(task.event, send(task)), now, maxAttempts)
      case Some(after) => after
      case None => before
  }

  datatype WebhookDelivery = WebhookDelivery(event: EventId, attempts: nat, delivered: bool)

  function Deliveries(claimed: seq<OutboxTask>, send: OutboxTask -> Attempt, maxAttempts: int): seq<WebhookDelivery> {
    if claimed == [] then []
    else
      var task := claimed[|claimed| - 1];
      var outcome := OutcomeOf(task.event, send(task));
      Deliveries(claimed[..|claimed| - 1], send, maxAttempts) + DeliveryOf(task, outcome, maxAttempts)
  }

  function DeliveryOf(task: OutboxTask, outcome: Outcome, maxAttempts: int): seq<WebhookDelivery> {
    if task.event.WebhookTask? && (outcome.delivered || task.attempts >= maxAttempts)
    then [WebhookDelivery(task.event, task.attempts, outcome.delivered)]
    else []
  }

  /** Of a webhook whatever is not delivered is retryable. */
  lemma DeliveryIs(
      task: OutboxTask, outcome: Outcome, maxAttempts: int, before: seq<WebhookDelivery>, sent: seq<WebhookDelivery>)
    requires task.event.WebhookTask? ==> outcome.retryable
    ensures before + (sent + DeliveryOf(task, outcome, maxAttempts)) ==
              if task.event.WebhookTask? && (outcome.delivered || !outcome.retryable || task.attempts >= maxAttempts)
              then before + sent + [WebhookDelivery(task.event, task.attempts, outcome.delivered)]
              else before + sent
  {
  }

  lemma DeliveriesNext(claimed: seq<OutboxTask>, k: nat, send: OutboxTask -> Attempt, maxAttempts: int)
    requires k < |claimed|
    ensures Deliveries(claimed[..k + 1], send, maxAttempts) ==
              Deliveries(claimed[..k], send, maxAttempts) +
              DeliveryOf(claimed[k], OutcomeOf(claimed[k].event, send(claimed[k])), maxAttempts)
  {
    Sequences.InitOf(claimed, k);
  }

  /** Resolving one claim leaves every other row as it is. */
  lemma ResolvedKeepsCurrent(db: Db, task: OutboxTask, outcome: Outcome, now: Time, maxAttempts: int, other: OutboxTask)
    requires Current(db, other) && other.event != task.event
    ensures match Resolved(db, task, outcome, now, maxAttempts)
            case Some(after) => Current(after, other)
            case None => true
  {
  }

  lemma ClaimedAreCurrent(tasks: map<EventId, TaskRow>, claimed: seq<OutboxTask>, lockedUntil: Time, now: Time, db: Db)
    requires Distinct(claimed) && ClaimsDue(tasks, claimed, now)
    requires db.tasks == ClaimAll(tasks, claimed, lockedUntil)
    ensures forall k :: 0 <= k < |claimed| ==> Current(db, claimed[k])
  {
    assert Events(claimed) <= tasks.Keys;
    ClaimAllRows(tasks, claimed, lockedUntil);
    forall k | 0 <= k < |claimed|
      ensures Current(db, claimed[k])
    {
      assert claimed[k].event in Events(claimed);
    }
  }

  lemma {:induction false} ClaimAllWork(
      tasks: map<EventId, TaskRow>, claimed: seq<OutboxTask>, lockedUntil: Time, now: Time, maxAttempts: int)
    requires Distinct(claimed) && ClaimsDue(tasks, claimed, now)
    ensures Total(RowsWork(ClaimAll(tasks, claimed, lockedUntil), maxAttempts)) <= Total(RowsWork(tasks, maxAttempts))
  {
    if claimed != [] {
      var before, e := claimed[..|claimed| - 1], claimed[|claimed| - 1].event;
      ClaimAllWork(tasks, before, lockedUntil, now, maxAttempts);
      ClaimAllRows(tasks, before, lockedUntil);
      assert e !in Events(before);
      ClaimKeepsWork(ClaimAll(tasks, before, lockedUntil), e, lockedUntil, maxAttempts);
    }
  }

  lemma ClaimSettles(db: Db, e: EventId, lockedUntil: Time, maxAttempts: int)
    requires Settles(db, maxAttempts) && e in db.tasks && !Terminal(db.tasks[e].status)
    ensures Settles(db.(tasks := db.tasks[e := ClaimedRow(db.tasks[e], lockedUntil)]), maxAttempts)
  {
    ClaimKeepsRows(Alone(db), e, 0, lockedUntil, maxAttempts);
    ClaimKeepsLedger(Alone(db), e, 0, lockedUntil);
  }

  lemma {:induction false} ClaimAllSettles(db: Db, claimed: seq<OutboxTask>, lockedUntil: Time, maxAttempts: int)
    requires Settles(db, maxAttempts)
    ensures Settles(WithClaims(db, claimed, lockedUntil), maxAttempts)
  {
    if claimed == [] {
      assert WithClaims(db, claimed, lockedUntil) == db;
    } else {
      var before := WithClaims(db, claimed[..|claimed| - 1], lockedUntil);
      var e := claimed[|claimed| - 1].event;
      ClaimAllSettles(db, claimed[..|claimed| - 1], lockedUntil, maxAttempts);
      if e in before.tasks && !Terminal(before.tasks[e].status) {
        ClaimSettles(before, e, lockedUntil, maxAttempts);
      }
    }
  }

  lemma {:induction false} ClaimAllClocked(db: Db, claimed: seq<OutboxTask>, lockedUntil: Time, now: Time)
    requires Clocked(db.tasks, db.activations) && Claiming(db.tasks, claimed, now) && now <= lockedUntil
    ensures Clocked(ClaimAll(db.tasks, claimed, lockedUntil), db.activations)
  {
    if claimed != [] {
      var before, e := claimed[..|claimed| - 1], claimed[|claimed| - 1].event;
      ClaimAllClocked(db, before, lockedUntil, now);
      ClaimAllRows(db.tasks, before, lockedUntil);
      assert e !in Events(before);
      ClaimKeepsClocks(ClaimAll(db.tasks, before, lockedUntil), db.activations, e, now, lockedUntil);
    }
  }

  /** A batch claimed under a lease that is not negative is in time. */
  lemma ClaimedInTime(db: Db, claimed: seq<OutboxTask>, lockedUntil: Time, now: Time)
    requires Clocked(db.tasks, db.activations) && Claiming(db.tasks, claimed, now) && now <= lockedUntil
    ensures InTime(WithClaims(db, claimed, lockedUntil), claimed, now)
  {
    ClaimAllClocked(db, claimed, lockedUntil, now);
    forall k | 0 <= k < |claimed|
      ensures NotBefore(db.activations, claimed[k].event.activation, now)
    {
      var e := claimed[k].event;
      if e.activation in db.activations {
        DueIsNotBefore(db.tasks[e], db.activations[e.activation].createdAt, now);
      }
    }
  }

  /** How the acceptor's or the webhook's answer is recorded: accepted as delivered; rejected by a
      resource as dead; anything else for another try while attempts are left. */
  predicate RecordsAnswer(row: TaskRow, task: OutboxTask, attempt: Attempt, maxAttempts: int) {
    && row.attempts == task.attempts
    && (row.status == Delivered <==> attempt == Accepted)
    && (row.status == Dead <==>
          attempt != Accepted &&
          (task.attempts >= maxAttempts || (task.event.ResourceTask? && attempt == Rejected)))
    && (row.status in {Delivered, Dead, Retry})
  }

  lemma {:induction false} BatchRecords(
      db: Db, claimed: seq<OutboxTask>, k: nat, send: OutboxTask -> Attempt, now: Time, maxAttempts: int, j: nat)
    requires Distinct(claimed) && InTime(db, claimed, now) && k <= |claimed|
    requires forall i :: 0 <= i < |claimed| ==> Current(db, claimed[i])
    requires j < |claimed|
    ensures var after := AfterAll(db, claimed[..k], send, now, maxAttempts);
            && InTime(after, claimed, now) && claimed[j].event in after.tasks
            && if j < k then RecordsAnswer(after.tasks[claimed[j].event], claimed[j], send(claimed[j]), maxAttempts)
               else Current(after, claimed[j])
  {
    if k > 0 {
      var before, task := AfterAll(db, claimed[..k - 1], send, now, maxAttempts), claimed[k - 1];
      var outcome := OutcomeOf(task.event, send(task));
      assert claimed[..k][..k - 1] == claimed[..k - 1];
      BatchRecords(db, claimed, k - 1, send, now, maxAttempts, j);
      BatchRecords(db, claimed, k - 1, send, now, maxAttempts, k - 1);
      ResolveInTime(before, claimed, k - 1, outcome, now, maxAttempts);
      ResolveRecords(before, task, outcome, now, maxAttempts, Resolved(before, task, outcome, now, maxAttempts).value,
                     claimed[j].event);
    }
  }

  /** The recorded deliveries: of each webhook that got through or was given up, whether it got through. */
  lemma {:induction false} DeliveriesAre(
      claimed: seq<OutboxTask>, send: OutboxTask -> Attempt, maxAttempts: int, delivery: WebhookDelivery)
    ensures delivery in Deliveries(claimed, send, maxAttempts) <==>
              exists j :: 0 <= j < |claimed| && claimed[j].event.WebhookTask?
                && (send(claimed[j]) == Accepted || claimed[j].attempts >= maxAttempts)
                && delivery == WebhookDelivery(claimed[j].event, claimed[j].attempts, send(claimed[j]) == Accepted)
  {
    if claimed != [] {
      var init, last := claimed[..|claimed| - 1], claimed[|claimed| - 1];
      DeliveriesAre(init, send, maxAttempts, delivery);
      if delivery in Deliveries(init, send, maxAttempts) {
        var j :| 0 <= j < |init| && init[j].event.WebhookTask?
                && (send(init[j]) == Accepted || init[j].attempts >= maxAttempts)
                && delivery == WebhookDelivery(init[j].event, init[j].attempts, send(init[j]) == Accepted);
        assert claimed[j] == init[j];
      }
      forall j | 0 <= j < |init|
        ensures claimed[j] == init[j]
      {
      }
    }
  }

  /** The claims from k on are still current, and what was resolved was paid for. */
  ghost predicate Resolving(start: Db, db: Db, claimed: seq<OutboxTask>, k: nat, maxAttempts: int) {
    && k <= |claimed|
    && (forall j :: k <= j < |claimed| ==> Current(db, claimed[j]))
    && Work(db, maxAttempts) + k <= Work(start, maxAttempts)
  }

  lemma ResolveNext(start: Db, db: Db, claimed: seq<OutboxTask>, k: nat, outcome: Outcome, now: Time, maxAttempts: int)
    requires Distinct(claimed) && k < |claimed| && Resolving(start, db, claimed, k, maxAttempts)
    ensures match Resolved(db, claimed[k], outcome, now, maxAttempts)
            case Some(after) => Resolving(start, after, claimed, k + 1, maxAttempts)
            case None => true
  {
    ResolveReducesWork(db, claimed[k], outcome, now, maxAttempts);
    forall j | k < j < |claimed|
      ensures match Resolved(db, claimed[k], outcome, now, maxAttempts)
              case Some(after) => Current(after, claimed[j])
              case None => true
    {
      ResolvedKeepsCurrent(db, claimed[k], outcome, now, maxAttempts, claimed[j]);
    }
  }

  lemma ResolveStaysInTime(
      start: Db, db: Db, claimed: seq<OutboxTask>, k: nat, outcome: Outcome, now: Time, maxAttempts: int)
    requires StaysInTime(start, db, claimed, now) && k < |claimed|
    ensures match Resolved(db, claimed[k], outcome, now, maxAttempts)
            case Some(after) => StaysInTime(start, after, claimed, now)
            case None => !InTime(start, claimed, now)
  {
    if InTime(start, claimed, now) {
      ResolveInTime(db, claimed, k, outcome, now, maxAttempts);
    }
  }

  /** What a batch may rely on once its claims are written. */
  lemma BatchStarts(db: Db, claimed: seq<OutboxTask>, lockedUntil: Time, now: Time, maxAttempts: int)
    requires Claiming(db.tasks, claimed, now)
    ensures var start := WithClaims(db, claimed, lockedUntil);
            && (forall k :: 0 <= k < |claimed| ==> Current(start, claimed[k]))
            && Work(start, maxAttempts) <= Work(db, maxAttempts)
            && (now <= lockedUntil && Clocked(db.tasks, db.activations) ==> InTime(start, claimed, now))
  {
    ClaimedAreCurrent(db.tasks, claimed, lockedUntil, now, WithClaims(db, claimed, lockedUntil));
    ClaimAllWork(db.tasks, claimed, lockedUntil, now, maxAttempts);
    if now <= lockedUntil && Clocked(db.tasks, db.activations) {
      ClaimedInTime(db, claimed, lockedUntil, now);
    }
  }

  /** The first k claims of the batch were resolved, the others can be. */
  ghost predicate BatchProgress(
      start: Db, db: Db, claimed: seq<OutboxTask>, k: nat, send: OutboxTask -> Attempt, now: Time, maxAttempts: int,
      sent: seq<WebhookDelivery>) {
    && Resolving(start, db, claimed, k, maxAttempts)
    && StaysInTime(start, db, claimed, now)
    && db == AfterAll(start, claimed[..k], send, now, maxAttempts)
    && sent == Deliveries(claimed[..k], send, maxAttempts)
  }

  lemma BatchProgresses(
      start: Db, db: Db, after: Db, claimed: seq<OutboxTask>, k: nat, send: OutboxTask -> Attempt, outcome: Outcome,
      now: Time, maxAttempts: int, sent: seq<WebhookDelivery>, more: seq<WebhookDelivery>)
    requires Distinct(claimed) && k < |claimed| && BatchProgress(start, db, claimed, k, send, now, maxAttempts, sent)
    requires outcome == OutcomeOf(claimed[k].event, send(claimed[k]))
    requires Resolved(db, claimed[k], outcome, now, maxAttempts) == Some(after)
    requires more == sent + DeliveryOf(claimed[k], outcome, maxAttempts)
    ensures BatchProgress(start, after, claimed, k + 1, send, now, maxAttempts, more)
  {
    DeliveriesNext(claimed, k, send, maxAttempts);
    ResolveNext(start, db, claimed, k, outcome, now, maxAttempts);
    ResolveStaysInTime(start, db, claimed, k, outcome, now, maxAttempts);
    Sequences.InitOf(claimed, k);
  }

  lemma {:induction false} AfterAllSettles(
      db: Db, claimed: seq<OutboxTask>, send: OutboxTask -> Attempt, now: Time, maxAttempts: int)
    requires Settles(db, maxAttempts)
    ensures Settles(AfterAll(db, claimed, send, now, maxAttempts), maxAttempts)
  {
    if claimed != [] {
      var task := claimed[|claimed| - 1];
      AfterAllSettles(db, claimed[..|claimed| - 1], send, now, maxAttempts);
      ResolvedSettles(AfterAll(db, claimed[..|claimed| - 1], send, now, maxAttempts), task,
                      OutcomeOf(task.event, send(task)), now, maxAttempts);
    }
  }

  /** The tables after one batch, of which the first claims were resolved. */
  function AfterBatch(
      db: Db, claimed: seq<OutboxTask>, done: nat, send: OutboxTask -> Attempt, now: Time, lockedUntil: Time,
      maxAttempts: int): Db
    requires done <= |claimed|
  {
    AfterAll(WithClaims(db, claimed, lockedUntil), claimed[..done], send, now, maxAttempts)
  }

  lemma ClaimsStaySettled(db: Db, claimed: seq<OutboxTask>, lockedUntil: Time, maxAttempts: int)
    ensures StaysSettled(db, WithClaims(db, claimed, lockedUntil), maxAttempts)
  {
    if Settles(db, maxAttempts) {
      ClaimAllSettles(db, claimed, lockedUntil, maxAttempts);
    }
  }

  lemma ResolvesStaySettled(
      db: Db, claimed: seq<OutboxTask>, send: OutboxTask -> Attempt, now: Time, maxAttempts: int)
    ensures StaysSettled(db, AfterAll(db, claimed, send, now, maxAttempts), maxAttempts)
  {
    if Settles(db, maxAttempts) {
      AfterAllSettles(db, claimed, send, now, maxAttempts);
    }
  }

  lemma ThenResolves(
      origin: Db, db: Db, claimed: seq<OutboxTask>, send: OutboxTask -> Attempt, now: Time, maxAttempts: int)
    requires StaysSettled(origin, db, maxAttempts)
    ensures StaysSettled(origin, AfterAll(db, claimed, send, now, maxAttempts), maxAttempts)
  {
    ResolvesStaySettled(db, claimed, send, now, maxAttempts);
    StaysSettledOn(origin, db, AfterAll(db, claimed, send, now, maxAttempts), maxAttempts);
  }

  /** A batch keeps the ledger in agreement, wherever it stops. */
  lemma BatchSettles(
      db: Db, claimed: seq<OutboxTask>, done: nat, send: OutboxTask -> Attempt, now: Time, lockedUntil: Time,
      maxAttempts: int)
    requires done <= |claimed|
    ensures StaysSettled(db, AfterBatch(db, claimed, done, send, now, lockedUntil, maxAttempts), maxAttempts)
  {
    ClaimsStaySettled(db, claimed, lockedUntil, maxAttempts);
    ThenResolves(db, WithClaims(db, claimed, lockedUntil), claimed[..done], send, now, maxAttempts);
  }

  lemma StaysSettledOn(a: Db, b: Db, c: Db, maxAttempts: int)
    requires StaysSettled(a, b, maxAttempts) && StaysSettled(b, c, maxAttempts)
    ensures StaysSettled(a, c, maxAttempts)
  {
  }

  class OutboxProcessor {
    const backend: PostgresReservationBackend
    const maxAttempts: int
    const leaseSeconds: int
    var deliveries: seq<WebhookDelivery>

    constructor (backend: PostgresReservationBackend, maxAttempts: int, leaseSeconds: int)
      ensures this.backend == backend && this.maxAttempts == maxAttempts && this.leaseSeconds == leaseSeconds
      ensures deliveries == []
    {
      this.backend, this.maxAttempts, this.leaseSeconds, deliveries := backend, maxAttempts, leaseSeconds, [];
    }

    function Lease(now: Time): Time {
      now + 1_000_000 * leaseSeconds
    }

    /** Delivers and resolves the claims of one batch, in order, up to the first that raises. */
    method ResolveAll(tasks: seq<OutboxTask>, now: Time, send: OutboxTask -> Attempt)
      returns (raised: bool, ghost done: nat)
      requires Distinct(tasks) && forall j :: 0 <= j < |tasks| ==> Current(backend.Model(), tasks[j])
      modifies this, backend
      ensures done <= |tasks| && (!raised ==> done == |tasks|)
      ensures backend.Model() == AfterAll(old(backend.Model()), tasks[..done], send, now, maxAttempts)
      ensures deliveries == old(deliveries) + Deliveries(tasks[..done], send, maxAttempts)
      ensures Work(backend.Model(), maxAttempts) + done <= Work(old(backend.Model()), maxAttempts)
      ensures StaysInTime(old(backend.Model()), backend.Model(), tasks, now)
      ensures InTime(old(backend.Model()), tasks, now) ==> !raised
    {
      raised, done := false, 0;
      ghost var start, db, before := backend.Model(), backend.Model(), deliveries;
      ghost var sent := [];
      var k := 0;
      while k < |tasks|
        invariant 0 <= k <= |tasks| && done == k && !raised
        invariant backend.Model() == db
        invariant BatchProgress(start, db, tasks, k, send, now, maxAttempts, sent)
        invariant deliveries == before + sent
      {
        var task := tasks[k];
        var outcome := OutcomeOf(task.event, send(task));
        ResolveStaysInTime(start, db, tasks, k, outcome, now, maxAttempts);
        raised := backend.ResolveOutbox(task, outcome, now, maxAttempts);
        if raised {
          return;
        }
        ghost var after, more := backend.Model(), sent + DeliveryOf(task, outcome, maxAttempts);
        BatchProgresses(start, db, after, tasks, k, send, outcome, now, maxAttempts, sent, more);
        DeliveryIs(task, outcome, maxAttempts, before, sent);
        var terminal := outcome.delivered || !outcome.retryable || task.attempts >= maxAttempts;
        if task.event.WebhookTask? && terminal {
          deliveries := deliveries + [WebhookDelivery(task.event, task.attempts, outcome.delivered)];
        }
        db, sent := after, more;
        k := k + 1;
        done := k;
      }
      assert tasks[..k] == tasks;
    }

    /** One batch. Were a resolve to raise, which a lease that is not negative excludes, it would end there. */
    method RunOnce(now: Time, limit: nat, send: OutboxTask -> Attempt)
      returns (raised: bool, count: nat, ghost claimed: seq<OutboxTask>, ghost done: nat)
      modifies this, backend
      ensures Distinct(claimed) && ClaimsDue(old(backend.tasks), claimed, now) && done <= |claimed| <= limit
      ensures TakesFirst(backend.order, Events(claimed), DueRows(old(backend.tasks), now))
      ensures |claimed| < limit ==> Events(claimed) == DueRows(old(backend.tasks), now)
      ensures backend.Model() ==
                AfterBatch(old(backend.Model()), claimed, done, send, now, Lease(now), maxAttempts)
      ensures deliveries == old(deliveries) + Deliveries(claimed[..done], send, maxAttempts)
      ensures !raised ==> count == done == |claimed|
      ensures leaseSeconds >= 0 && old(backend.InOrder()) ==> !raised && backend.InOrder()
      ensures Work(backend.Model(), maxAttempts) + done <= Work(old(backend.Model()), maxAttempts)
    {
      ghost var origin := backend.Model();
      var tasks := backend.ClaimOutbox(now, limit, leaseSeconds, {});
      assert DueRows(origin.tasks, now) - {} == DueRows(origin.tasks, now);
      claimed, count := tasks, |tasks|;
      ghost var start := WithClaims(origin, claimed, Lease(now));
      assert backend.Model() == start;
      BatchStarts(origin, claimed, Lease(now), now, maxAttempts);
      raised, done := ResolveAll(tasks, now, send);
      assert Work(backend.Model(), maxAttempts) + done <= Work(start, maxAttempts);
    }

    /** Batches until one claims nothing. What is processed is paid for by remaining work. */
    method Drain(clock: nat -> Time, maxBatches: nat, send: OutboxTask -> Attempt)
      returns (raised: bool, processed: nat, ghost idleAt: Option<Time>)
      modifies this, backend
      ensures Work(backend.Model(), maxAttempts) + processed <= Work(old(backend.Model()), maxAttempts)
      ensures StaysSettled(old(backend.Model()), backend.Model(), maxAttempts)
      ensures leaseSeconds >= 0 && old(backend.InOrder()) ==> !raised && backend.InOrder()
      ensures !raised && Work(old(backend.Model()), maxAttempts) < maxBatches ==> idleAt.Some?
      ensures idleAt.Some? ==> DueRows(backend.tasks, idleAt.value) == {}
    {
      raised, processed, idleAt := false, 0, None;
      ghost var origin := backend.Model();
      ghost var db := origin;
      for batch := 0 to maxBatches
        invariant processed >= batch && idleAt.None? && !raised
        invariant backend.Model() == db
        invariant Work(db, maxAttempts) + processed <= Work(origin, maxAttempts)
        invariant StaysSettled(origin, db, maxAttempts)
        invariant leaseSeconds >= 0 && old(backend.InOrder()) ==> backend.InOrder()
      {
        var count;
        ghost var claimed, done;
        raised, count, claimed, done := RunOnce(clock(batch), 100, send);
        ghost var after := AfterBatch(db, claimed, done, send, clock(batch), Lease(clock(batch)), maxAttempts);
        BatchSettles(db, claimed, done, send, clock(batch), Lease(clock(batch)), maxAttempts);
        StaysSettledOn(origin, db, after, maxAttempts);
        if raised {
          return;
        }
        processed := processed + count;
        if count == 0 {
          assert Events(claimed) == {};
          assert claimed[..done] == [];
          idleAt := Some(clock(batch));
          break;
        }
        db := after;
      }
    }
  }

  /** What runs of the interleaved protocol leave between transactions is what a lone worker starts from. */
  lemma ReachableIsReady(states: seq<State>, steps: seq<Step>, maxAttempts: int, k: nat)
    requires OutboxRuns.Run(states, steps, maxAttempts) && OutboxRuns.LeasesHold(steps) && k < |states|
    ensures Settles(states[k].db, maxAttempts) && Clocked(states[k].db.tasks, states[k].db.activations)
  {
    OutboxRuns.Reachable(states, steps, maxAttempts, k);
    OutboxRuns.ReachableClocks(states, steps, maxAttempts, k);
    ReleasedKeepsReservations(states[k].db, states[k].held);
  }

  lemma ReleasedKeepsReservations(db: Db, held: set<Id>)
    requires ReservationsInv(db, held)
    ensures ReservationsInv(db, {})
  {
  }

  /** An idle outbox seen with a late enough clock has nothing open: the outbox has drained. */
  lemma IdleIsDrained(db: Db, now: Time, maxAttempts: int, e: EventId)
    requires Settles(db, maxAttempts) && e in db.tasks
    requires DueRows(db.tasks, now) == {}
    requires db.tasks[e].availableAt <= now
    requires db.tasks[e].lockedUntil.Some? ==> db.tasks[e].lockedUntil.value <= now
    ensures Terminal(db.tasks[e].status)
  {
    assert e !in DueRows(db.tasks, now);
  }
}
