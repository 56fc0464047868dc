/** The exact condition under which no resolve is refused for its clock: the lease is not
    negative. A negative one lets a clock that went back claim what was just claimed. */
module OutboxLeases {
  import opened Domain
  import opened OutboxRows
  import opened OutboxProtocol
  import opened OutboxRuns

  ghost predicate Leased(steps: seq<Step>, lease: int) {
    forall k :: 0 <= k < |steps| && steps[k].ClaimRow? ==> steps[k].lockedUntil == steps[k].now + lease
  }

  lemma {:induction false} RunExtends(
      states: seq<State>, steps: seq<Step>, step: Step, after: State, maxAttempts: int)
    requires Run(states, steps, maxAttempts) && Enabled(states[|steps|], step)
    requires Apply(states[|steps|], step, maxAttempts) == after
    ensures Run(states + [after], steps + [step], maxAttempts)
  {
    var longer, all := states + [after], steps + [step];
    forall k | 0 <= k < |all|
      ensures Enabled(longer[k], all[k]) && longer[k + 1] == Apply(longer[k], all[k], maxAttempts)
    {
      if k < |steps| {
        assert longer[k] == states[k] && longer[k + 1] == states[k + 1] && all[k] == steps[k];
      }
    }
  }

  // ----- One reservation with given allocations, activated at time zero

  ghost function Row(status: ReservationStatus, requested: real, rows: seq<AllocationRow>): ReservationRow {
    ReservationRow(status, requested, TotalPower(rows), 300_000_000, None)
  }

  ghost function Confirmed(requested: real, rows: seq<AllocationRow>, held: set<Id>): State {
    State(Db(map[], map[], map[0 := Row(CONFIRMED, requested, rows)], map[0 := rows]), {}, map[], held, [])
  }

  ghost function Activated(requested: real, rows: seq<AllocationRow>): State {
    State(Db(NewTasks(0, |rows|, false, 0), map[0 := ActivationRow(0, ActPending, |rows|, 0, 0, 0, None)],
             map[0 := Row(ACTIVATED, requested, rows)], map[0 := rows]), {}, map[], {}, [])
  }

  ghost function ActivationSteps(requested: real, rows: seq<AllocationRow>): seq<Step> {
    [Create(0, Row(CONFIRMED, requested, rows), rows), ReadConfirmed(0), ActivateCommit(0, 0, 0)]
  }

  ghost function ActivationStates(requested: real, rows: seq<AllocationRow>): seq<State> {
    [Init(), Confirmed(requested, rows, {}), Confirmed(requested, rows, {0}), Activated(requested, rows)]
  }

  lemma CreatesOne(requested: real, rows: seq<AllocationRow>, maxAttempts: int)
    requires NumberedFrom(rows, 0)
    ensures Enabled(Init(), Create(0, Row(CONFIRMED, requested, rows), rows))
    ensures Apply(Init(), Create(0, Row(CONFIRMED, requested, rows), rows), maxAttempts) == Confirmed(requested, rows, {})
  {
  }

  lemma ReadsOne(requested: real, rows: seq<AllocationRow>, maxAttempts: int)
    ensures Enabled(Confirmed(requested, rows, {}), ReadConfirmed(0))
    ensures Apply(Confirmed(requested, rows, {}), ReadConfirmed(0), maxAttempts) == Confirmed(requested, rows, {0})
  {
  }

  lemma ActivatesOne(requested: real, rows: seq<AllocationRow>, maxAttempts: int)
    ensures Enabled(Confirmed(requested, rows, {0}), ActivateCommit(0, 0, 0))
    ensures Apply(Confirmed(requested, rows, {0}), ActivateCommit(0, 0, 0), maxAttempts) == Activated(requested, rows)
  {
    assert map[] + NewTasks(0, |rows|, false, 0) == NewTasks(0, |rows|, false, 0);
  }

  /** A reservation with any allocations can be created and activated at once. */
  lemma ActivationRun(requested: real, rows: seq<AllocationRow>, maxAttempts: int)
    requires NumberedFrom(rows, 0)
    ensures Run(ActivationStates(requested, rows), ActivationSteps(requested, rows), maxAttempts)
  {
    CreatesOne(requested, rows, maxAttempts);
    ReadsOne(requested, rows, maxAttempts);
    ActivatesOne(requested, rows, maxAttempts);
  }

  // ----- A claim at a clock that went back, under a negative lease

  const EVENT := ResourceTask(0, 0)
  const ROWS := [AllocationRow(0, "r", 1.0)]

  ghost function WithRow(row: TaskRow, claims: set<Claim>, txs: map<nat, Tx>, log: seq<Entry>): State {
    State(Activated(1.0, ROWS).db.(tasks := map[EVENT := row]), claims, txs, {}, log)
  }

  ghost function FirstClaimed(lease: int): State {
    WithRow(TaskRow(Processing, 1, 0, Some(lease), None), {Claim(EVENT, 1, 0)}, map[], [Claimed(EVENT, 1)])
  }

  ghost function SecondRow(lease: int): TaskRow {
    TaskRow(Processing, 2, 0, Some(lease + lease), None)
  }

  ghost function Resolving(lease: int, txs: map<nat, Tx>): State {
    WithRow(SecondRow(lease), {Claim(EVENT, 1, 0), Claim(EVENT, 2, lease)}, txs,
            [Claimed(EVENT, 1), Claimed(EVENT, 2)])
  }

  ghost function DeliveredTx(lease: int, stage: Stage): Tx {
    Tx(EVENT, 2, TaskRow(Delivered, 2, lease, None, Some(lease)), Outcome(true, false), lease, stage)
  }

  lemma ActivatedIs()
    ensures Activated(1.0, ROWS) == WithRow(TaskRow(Pending, 0, 0, None, None), {}, map[], [])
  {
    assert NewEvents(0, 1, false) == {EVENT} by {
      assert EVENT in NewEvents(0, 1, false);
    }
  }

  lemma ClaimsFirst(lease: int, maxAttempts: int)
    ensures Enabled(Activated(1.0, ROWS), ClaimRow(EVENT, 0, lease))
    ensures Apply(Activated(1.0, ROWS), ClaimRow(EVENT, 0, lease), maxAttempts) == FirstClaimed(lease)
  {
    ActivatedIs();
  }

  lemma ClaimsAgain(lease: int, maxAttempts: int)
    ensures Enabled(FirstClaimed(lease), ClaimRow(EVENT, lease, lease + lease))
    ensures Apply(FirstClaimed(lease), ClaimRow(EVENT, lease, lease + lease), maxAttempts) == Resolving(lease, map[])
  {
  }

  lemma WritesBehind(lease: int, maxAttempts: int)
    ensures Enabled(Resolving(lease, map[]), ResolveWrite(0, Claim(EVENT, 2, lease), true, false))
    ensures Apply(Resolving(lease, map[]), ResolveWrite(0, Claim(EVENT, 2, lease), true, false), maxAttempts)
         == Resolving(lease, map[0 := DeliveredTx(lease, Written)])
  {
  }

  lemma LocksBehind(lease: int, maxAttempts: int)
    ensures Enabled(Resolving(lease, map[0 := DeliveredTx(lease, Written)]), ResolveLock(0))
    ensures Apply(Resolving(lease, map[0 := DeliveredTx(lease, Written)]), ResolveLock(0), maxAttempts)
         == Resolving(lease, map[0 := DeliveredTx(lease, ActivationLocked)])
  {
  }

  lemma ReadsBehind(lease: int, maxAttempts: int)
    ensures Enabled(Resolving(lease, map[0 := DeliveredTx(lease, ActivationLocked)]), ResolveRead(0))
    ensures Apply(Resolving(lease, map[0 := DeliveredTx(lease, ActivationLocked)]), ResolveRead(0), maxAttempts)
         == Resolving(lease, map[0 := DeliveredTx(lease, Ready(Some(Verdict({0}, 1))))])
  {
    var view := map[EVENT := DeliveredTx(lease, Written).row];
    IndicesAre(view, 0, 0);
    assert Indices(view, 0) == {0};
    assert DeliveredIndices(view, 0) == {0};
    assert Resolving(lease, map[0 := DeliveredTx(lease, ActivationLocked)]).db.tasks[EVENT := DeliveredTx(lease, Written).row] == view;
  }

  /** The state before step n of the rest of the run. */
  ghost function BehindState(lease: int, n: nat): State {
    match n
    case 0 => Activated(1.0, ROWS)
    case 1 => FirstClaimed(lease)
    case 2 => Resolving(lease, map[])
    case 3 => Resolving(lease, map[0 := DeliveredTx(lease, Written)])
    case 4 => Resolving(lease, map[0 := DeliveredTx(lease, ActivationLocked)])
    case _ => Resolving(lease, map[0 := DeliveredTx(lease, Ready(Some(Verdict({0}, 1))))])
  }

  ghost function BehindStep(lease: int, n: nat): Step {
    match n
    case 0 => ClaimRow(EVENT, 0, lease)
    case 1 => ClaimRow(EVENT, lease, lease + lease)
    case 2 => ResolveWrite(0, Claim(EVENT, 2, lease), true, false)
    case 3 => ResolveLock(0)
    case _ => ResolveRead(0)
  }

  lemma StepsBehind(lease: int, maxAttempts: int, n: nat)
    requires n < 5
    ensures Enabled(BehindState(lease, n), BehindStep(lease, n))
    ensures Apply(BehindState(lease, n), BehindStep(lease, n), maxAttempts) == BehindState(lease, n + 1)
  {
    match n
    case 0 => ClaimsFirst(lease, maxAttempts);
    case 1 => ClaimsAgain(lease, maxAttempts);
    case 2 => WritesBehind(lease, maxAttempts);
    case 3 => LocksBehind(lease, maxAttempts);
    case _ => ReadsBehind(lease, maxAttempts);
  }

  ghost function BehindStates(lease: int, n: nat): (states: seq<State>)
    ensures |states| == 4 + n && states[3 + n] == BehindState(lease, n)
  {
    if n == 0 then ActivationStates(1.0, ROWS) else BehindStates(lease, n - 1) + [BehindState(lease, n)]
  }

  ghost function BehindSteps(lease: int, n: nat): (steps: seq<Step>)
    ensures |steps| == 3 + n && Leased(steps, lease)
  {
    if n == 0 then ActivationSteps(1.0, ROWS) else BehindSteps(lease, n - 1) + [BehindStep(lease, n - 1)]
  }

  lemma {:induction false} BehindRun(lease: int, maxAttempts: int, n: nat)
    requires n <= 5
    ensures Run(BehindStates(lease, n), BehindSteps(lease, n), maxAttempts)
  {
    if n == 0 {
      ActivationRun(1.0, ROWS, maxAttempts);
    } else {
      BehindRun(lease, maxAttempts, n - 1);
      StepsBehind(lease, maxAttempts, n - 1);
      RunExtends(BehindStates(lease, n - 1), BehindSteps(lease, n - 1), BehindStep(lease, n - 1), BehindState(lease, n), maxAttempts);
    }
  }

  /** A lease decides: no resolve of any run is refused for its clock exactly if it is not negative. */
  lemma LeaseDecides(lease: int, maxAttempts: int)
    ensures lease >= 0 <==>
              forall states, steps, k: nat, t: nat ::
                Run(states, steps, maxAttempts) && Leased(steps, lease) && k < |states| ==> !RefusedByClock(states[k], t)
  {
    if lease >= 0 {
      forall states, steps, k: nat, t: nat | Run(states, steps, maxAttempts) && Leased(steps, lease) && k < |states|
        ensures !RefusedByClock(states[k], t)
      {
        NoneRefused(states, steps, maxAttempts, k, t);
      }
    } else {
      BehindRun(lease, maxAttempts, 5);
      assert RefusedByClock(BehindStates(lease, 5)[8], 0);
    }
  }
}
