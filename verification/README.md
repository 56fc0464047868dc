# Verified model of the DER flexibility service

This project models the parts of the service whose behaviour spans several calls, several
workers or several data structures, and proves what they guarantee for every input and every
run. `dafny verify dfyconfig.toml` checks all of it.

Power and energy are exact reals, times are whole microseconds (forecast durations whole
milliseconds), and Python's `round` is modelled as it is specified on exact values: half to even,
at six or nine decimals. Clocks, fresh identifiers and what resources or webhooks answer are
parameters; identifiers made by hashing stand for what is hashed.

## Parts

- **Durable activation and outbox** (`OutboxRows`, `OutboxProtocol`, `OutboxClocks`, `OutboxRuns`,
  `OutboxOutcomes`, `OutboxLeases`, `OutboxBackend`). Workers claim rows under a lease, deliver, crash, are re-claimed
  and resolve late. `OutboxProtocol` is a step machine under READ COMMITTED: a resolve writes its
  task row, locks the activation row, re-reads the tasks, and commits or aborts, interleaved with
  anything else; a claim carries the clock by which the processor also resolves it. `OutboxBackend`
  holds the objects with the updates in place, one transaction at a time, and shows that a lone
  worker's steps are exactly the sequential transaction.
- **Offer store and publication** (`OfferStore`, `OfferOrdering`, `OfferAggregation`,
  `InMemoryOfferStore`, `Publication`, `PublishedNumbers`, `PooledNumbers`, `Suppression`,
  `SnapshotAnswers`, `UnobservedResidual`). The store as a
  value, the object whose methods compute it, and runs in which the three stages of a public query
  (store query, residual capacity, snapshot) interleave with upserts, removals, reservations and
  other queries.
- **Reservation ledger** (`Ledger`, `LedgerRuns`, `LedgerAnswers`, `LedgerExamples`, `ResidualCapacity`,
  `EmptyActivation`, `ReservationService`). Greedy allocation, expiry, cancellation, activation and
  idempotency, each transaction one step. Reserved power is counted by tenant, as the SQL does, or
  over all tenants, as in memory: the parameter `Scope` says which.
- **PEBC normaliser** (`Pebc`, `PebcEnergy`, `PebcResampling`, `PebcGuarantees`, `PebcPlans`,
  `PebcMaximal`, `PebcCoarse`, `PebcNormalizer`) and the **battery simulator** that feeds it (`Battery`, `BatteryOffers`).
- **Dependency closure** (`DependencyClosure`, `DependencyInventory`, `DependencyOrder`) and
  **gzip encoder** (`Gzip`) of the release script.
- **Advisory locks** (`AdvisoryLocks`) of both PostgreSQL modules.

`Domain`, `Rounding`, `Strings`, `Sequences` and `Totals` are shared; `SampleFleet` delivers the offers
that the examples start from.

## Where the code does less than one might expect

Each with an input or a run that shows it, and the exact condition.

- An activation whose reservation has no allocation has no instruction and stays pending for ever. It
  arises exactly for a request of at most 1e-9 kW when nothing is free of the first offer:
  `EmptyActivation.EmptyExactly`, `EmptyActivation.StuckForever`, and `LedgerExamples.ActivationStuck`
  for a run that reaches one.
- The published residual is reservable up to rounding only, and in memory only if no other tenant
  reserved from a resource of the same name: `ResidualCapacity.AdvertisedIsReservable`, with
  reachable failures under the default policy in `ResidualCapacity.RoundedUpIsRefused` and
  `ResidualCapacity.OtherTenantBlocks`. A request is refused exactly when what is free falls short of
  it by more than 1e-9 kW: `ResidualCapacity.CreateRefusesExactly`.
- With a negative lease, which the processor does not exclude, a resolve can be behind the creation
  of the activation it would close; the check constraint on the completion time then rolls it back.
  With any other lease none ever is: `OutboxLeases.LeaseDecides`.
- A reservation can be created for an interval that has begun. It is past its deadline exactly then,
  and is never activated if clocks do not go back: `LedgerRuns.ConfirmedHasTime`,
  `LedgerRuns.LateIsNeverActivated`, with `LedgerExamples.LateReservation` for a run.
- Tenant and idempotency key are joined by a colon, so two tenants can share a key exactly if one of
  them, with a colon, begins the other: `LedgerRuns.TenantsShareKeysExactly`; tenants `a` and `a:b`
  collide in `LedgerExamples.TenantsCollide`.
- From a resolution of a thousand seconds up to what a day can hold, the coverage test lets a bucket
  pass that misses a few microseconds, and the mean baseline can then lie below the least power
  allowed: `PebcCoarse.CoarseDecides` gives the exact resolutions, with an input for each.
- A change of the residual hides a cell only if some residual stage sees it:
  `Publication.ResidualStagePassesExactly`; one made and undone between two requests does not:
  `UnobservedResidual.UnobservedChange`.
- A dependency marker that holds without extras but not with some makes the closure depend on the
  order in which requirements are listed, and no other marker does: `DependencyOrder.OrderFreeExactly`.

## Model

| member | source | states |
|---|---|---|
| OutboxRuns.NeitherLostNorPremature | src/der_flex/reservations/postgres.py:695-763 | in every state of every interleaving an activation with instructions is PENDING exactly while one of its RESOURCE rows is not terminal |
| OutboxRuns.EmptyActivationNeverCloses | src/der_flex/reservations/postgres.py:762-763 | an activation of no instructions never has a task and stays PENDING |
| EmptyActivation.EmptyExactly | src/der_flex/reservations/service.py:302-317 | whatever a creation granted can be activated with one instruction per allocation, and there is none exactly if the request is at most 1e-9 kW and nothing is free of the first offer |
| EmptyActivation.StuckForever | src/der_flex/reservations/postgres.py:762-763 | an activation without instructions stays unchanged and PENDING in every later state of the protocol |
| OutboxRuns.LedgerAgrees | src/der_flex/reservations/postgres.py:737-839 | reservation and activation statuses match, counts add up once final, allocated power is the sum of the allocations left, which after closing are those of DELIVERED tasks, and each webhook row exists exactly when a callback does |
| OutboxRuns.OneActivationPerReservation | src/der_flex/reservations/service.py:288-317 | a reservation is ACTIVATED, COMPLETED or FAILED exactly if it has an activation, and it has only one |
| OutboxRuns.ReservationChanges | src/der_flex/reservations/postgres.py:263-271 | a reservation changes only by an expiry that is due, a cancellation or activation of its own, or when its activation closes, each as it says |
| OutboxRuns.LeaseFencing | src/der_flex/reservations/postgres.py:637-669 | no two claims of an event share an attempts value, at most one outcome is recorded per attempt and only for the latest claim, and nothing follows a terminal outcome |
| OutboxRuns.AttemptsCountClaims | src/der_flex/reservations/postgres.py:658-661 | a row's attempts are exactly the claims made of it, and a terminal row's outcome was recorded for the last one |
| OutboxOutcomes.OutcomesAreRecorded | src/der_flex/reservations/postgres.py:705-735 | over any interleaving, each outcome in the log was reported by a worker for that attempt, and is recorded DELIVERED exactly if it was a delivery, DEAD exactly if a failure that is not retryable or has used up the attempts, else RETRY |
| OutboxOutcomes.RowsFollowOutcomes | src/der_flex/reservations/postgres.py:696-735 | in every state a row is DELIVERED exactly if the last outcome logged of it is a delivery, and DEAD exactly if it is a failure for good |
| OutboxOutcomes.OutcomesDecide | src/der_flex/reservations/postgres.py:737-839 | once closed, an activation has left exactly the allocations whose instruction's last outcome was a delivery, and is COMPLETED exactly if that is all of them |
| OutboxOutcomes.AllocationsOnlyDrop | src/der_flex/reservations/postgres.py:799-805 | no step of a run adds an allocation to a reservation or changes one |
| OutboxRuns.TerminalForever | src/der_flex/reservations/postgres.py:696-733 | DELIVERED and DEAD rows never change |
| OutboxRuns.ClosedForever | src/der_flex/reservations/postgres.py:752-753 | a closed activation never changes: it is finalised once |
| OutboxRuns.RetriesBounded | src/der_flex/reservations/postgres.py:706-716 | RETRY rows have between one and max_attempts - 1 attempts |
| OutboxRuns.SomeTransactionMoves | src/der_flex/reservations/postgres.py:743-751 | on the activation row locks no two resolves wait for each other: with leases that are not negative, in every state some open transaction can go on |
| OutboxRuns.OnlyClocksRefuse | src/der_flex/reservations/postgres.py:100-106 | a resolve that is ready can commit exactly if it is not a close earlier than the creation of its activation |
| OutboxClocks.StepKeepsClocks | src/der_flex/outbox.py:35-52 | claims, open transactions and the times at which rows become due never fall behind the creation of their activation, in every step whose lease is not negative |
| OutboxLeases.LeaseDecides | src/der_flex/outbox.py:27-40 | no resolve of any run is refused for its clock exactly if the lease is not negative; a run at any negative lease reaches one that is |
| OutboxProtocol.StepKeeps | src/der_flex/reservations/postgres.py:632-839 | every step of the interleaved protocol keeps the invariant behind these |
| OutboxRows.RetryIsBounded | src/der_flex/reservations/postgres.py:706-735 | a resolve never changes attempts, retries exactly an undelivered retryable claim with attempts left, and makes it due within 1 to 300 seconds |
| OutboxRows.OutcomeIsRecorded | src/der_flex/reservations/postgres.py:706-735 | the status a resolve records follows the outcome and the attempts both ways; it frees the row and stamps deliveries, and only those |
| OutboxRows.BackoffDoubles | src/der_flex/reservations/postgres.py:714 | the delay starts at a second and doubles with every attempt until five minutes |
| OutboxRows.KeepExactly | src/der_flex/reservations/postgres.py:799-805 | the allocations kept are those of the given indices, unchanged and in order |
| OutboxRows.CloseChangesOnly | src/der_flex/reservations/postgres.py:764-839 | closing stamps its own clock and changes no other row, column or count |
| OutboxBackend.SplitIsSequential | src/der_flex/reservations/postgres.py:685-735 | a lone worker's interleaved steps are exactly the sequential resolve |
| OutboxBackend.ResolvedSettles | src/der_flex/reservations/postgres.py:685-735 | a resolve keeps the tables in agreement |
| OutboxBackend.ResolveRecords | src/der_flex/reservations/postgres.py:685-735 | resolving a current claim records its outcome in its own row and leaves every other row as it is |
| OutboxBackend.BatchRecords | src/der_flex/outbox.py:42-61 | after a batch each claimed row is DELIVERED exactly if its acceptor or webhook accepted, and DEAD exactly if a resource rejected or a failure used up the attempts |
| OutboxBackend.DeliveriesAre | src/der_flex/outbox.py:53-61 | the deliveries recorded are those of the webhooks that got through or were given up, with whether they got through |
| OutboxBackend.ResolveRaisesExactly | src/der_flex/reservations/postgres.py:734-735 | a resolve rolls back exactly when it would close an activation at a clock before its creation |
| OutboxBackend.ResolveInTime | src/der_flex/outbox.py:42-52 | the resolve of a claim by the claim's own clock never rolls back |
| OutboxBackend.ResolveReducesWork | src/der_flex/reservations/postgres.py:706-735 | resolving a current claim strictly reduces the remaining attempts plus pending activations, finalisation's new webhook row included, unless its clock is before the activation's creation |
| OutboxBackend.ReachableIsReady | src/der_flex/reservations/postgres.py:685-735 | every state that the interleaved protocol reaches under leases that are not negative satisfies what the batches below start from |
| OutboxBackend.ClaimKeepsWork | src/der_flex/reservations/postgres.py:658-661 | claiming does not raise that measure |
| OutboxBackend.NoWorkNoOpenRow | src/der_flex/reservations/postgres.py:639-646 | when the measure is zero no row is open |
| OutboxBackend.BatchSettles | src/der_flex/outbox.py:35-62 | a batch keeps the tables in agreement wherever it stops |
| OutboxBackend.IdleIsDrained | src/der_flex/outbox.py:64-71 | an outbox with nothing due under a late enough clock has only terminal rows |
| OutboxBackend.PostgresReservationBackend.ClaimOutbox | src/der_flex/reservations/postgres.py:632-683 | claims due rows that no other worker holds, at most the limit, all of them if they are fewer, none after one it leaves in the order of creation, event type and identifier, returned in any order, each with its attempts raised and its lease set, and changes nothing else |
| OutboxBackend.PostgresReservationBackend.SelectCandidates | src/der_flex/reservations/postgres.py:639-657 | the candidate query: the first rows in that order |
| OutboxBackend.PostgresReservationBackend.FinalizeActivation | src/der_flex/reservations/postgres.py:737-839 | closes the activation exactly when it is PENDING and its tasks are all terminal, with the counts, statuses, kept allocations and webhook row of the specification, or raises and changes nothing |
| OutboxBackend.PostgresReservationBackend.ResolveOutbox | src/der_flex/reservations/postgres.py:685-735 | records the outcome of a current claim, as in `ResolveRecords`, and finalises, ignores a stale one, and undoes both writes when finalisation raises |
| OutboxBackend.OutboxProcessor.ResolveAll | src/der_flex/outbox.py:42-61 | resolves the claims of a batch in order, records terminal webhook deliveries, pays for each claim with remaining work, and never raises for a batch in time |
| OutboxBackend.OutboxProcessor.RunOnce | src/der_flex/outbox.py:35-62 | one batch: claims, delivers and resolves, and returns how many; with a lease that is not negative it never raises |
| OutboxBackend.OutboxProcessor.Drain | src/der_flex/outbox.py:64-71 | processes no more than the remaining work allows; with a lease that is not negative it never raises, and with more batches than remaining work it ends with nothing due |
| OfferStore.AdmitKeeps | src/der_flex/domain/store.py:140-203 | an upsert keeps one offer per key, every offer at its resource's high-water position, and disconnected resources empty; what it stores is new under its key |
| OfferStore.RejectionChangesNothing | src/der_flex/domain/store.py:155-196 | a stale or conflicting upsert changes nothing at all |
| OfferStore.RemoveKeeps | src/der_flex/domain/store.py:205-226 | so does a removal |
| Suppression.RefusedExactly | src/der_flex/domain/store.py:155-196 | an upsert is stale exactly if its position is behind the resource's, or not beyond it after a disconnection; it conflicts exactly if another offer is stored under its key at its position |
| Suppression.RemovalDisconnects | src/der_flex/domain/store.py:205-226 | a removal takes away exactly the resource's offers, and disconnects it exactly if there were any |
| Suppression.RemovedStaysOut | src/der_flex/domain/store.py:155-160 | over any run, each offer of a resource held after a removal is later than all that were removed |
| Suppression.UpsertSuppressesExactly | src/der_flex/domain/store.py:160-203 | an upsert suppresses exactly the published cells whose offers it changes |
| Suppression.RemovalSuppressesExactly | src/der_flex/domain/store.py:205-226 | a removal suppresses exactly the published cells whose offers it takes away |
| Suppression.QuerySuppressesExactly | src/der_flex/domain/store.py:298-330 | after a query a cell is suppressed exactly if it was before, or it is visible and its participants differ from those it was published for, or from those of a touching cell published before or answered earlier in the query |
| Suppression.OneCohortIsAnswered | src/der_flex/domain/store.py:298-368 | so a query answers every visible, unsuppressed cell if all cells have one large enough cohort |
| OfferStore.PublishAllKeeps | src/der_flex/domain/store.py:298-368 | a query keeps the store valid and never rewrites a published cohort |
| OfferOrdering.DeliveryConverges | src/der_flex/domain/store.py:155-203 | after any delivery of conflict-free offers the store holds exactly those at each resource's greatest position, one per key |
| OfferOrdering.OrderIsIrrelevant | src/der_flex/domain/store.py:155-203 | two deliveries of the same offers, in any order and with any repetitions, end with the same offers and positions |
| OfferAggregation.SameNumbers | src/der_flex/domain/store.py:333-366 | the same offers in another order aggregate to the same numbers |
| PooledNumbers.PooledAddUp | src/der_flex/domain/store.py:333-366 | the offers of two aggregates together have the sums of their numbers, field by field and up to rounding, and each resource takes part once |
| PooledNumbers.OneOfferAsItIs | src/der_flex/domain/store.py:333-366 | an aggregate of one offer has that offer's numbers, rounded |
| PooledNumbers.ConfidenceWeighs | src/der_flex/domain/store.py:333-344 | confidences are averaged with the weight of the capacities behind them |
| PooledNumbers.ConfidenceBetween | src/der_flex/domain/store.py:333-344 | an aggregate's confidence lies between the least and the greatest of its offers' |
| PooledNumbers.NoCapacityLeast | src/der_flex/domain/store.py:333-344 | without any capacity it is the least |
| OfferAggregation.NumbersConverge | src/der_flex/domain/store.py:155-203 | after any two deliveries of the same conflict-free offers every cell has the same participants and the same numbers, at any clock |
| Publication.HighWater | src/der_flex/domain/store.py:155-226 | in every run each stored offer sits at its resource's position, a disconnected resource has none, and keys are unique |
| Publication.StickyPublication | src/der_flex/api/app.py:289-304 | over any run of upserts, removals, reservations, expiries and queries, any two responses for a cell carry the same numbers, and within an epoch are the same response |
| Publication.UpsertSuppressesChanges | src/der_flex/domain/store.py:160-203 | an upsert that changes a published cell's live offers, at any clock, suppresses the cell |
| Publication.RemovalSuppressesChanges | src/der_flex/domain/store.py:205-226 | so does a removal |
| Publication.SameCohortSameOffers | src/der_flex/domain/store.py:141-147 | with one offer per key, equal participants of a cell mean equal offers |
| Publication.SuppressedForever | src/der_flex/domain/store.py:304-330 | suppression of cells and of public residuals is permanent |
| Publication.ChangedIsNeverQueriedAgain | src/der_flex/domain/store.py:269-368 | a published cell whose offers a step changed is in no later query's answer |
| Publication.CohortChangeIsNeverQueriedAgain | src/der_flex/domain/store.py:304-308 | a published cell seen with other participants is in no later query's answer |
| Publication.ResidualChangeIsNeverPublishedAgain | src/der_flex/reservations/service.py:443-468 | once a residual stage sees another residual of a cell than was published, no later stage lets the cell through |
| Publication.ResidualSuppressedExactly | src/der_flex/reservations/service.py:443-468 | a public residual is suppressed exactly if some residual stage saw another one than was published |
| Publication.ResidualStagePassesExactly | src/der_flex/reservations/service.py:443-468 | a stage lets through exactly the cells it is given of which neither it nor an earlier one saw such a difference |
| UnobservedResidual.UnobservedChange | src/der_flex/reservations/service.py:443-468 | a run in which a reservation is made and cancelled between two requests: the cell is let through twice, though the residual differed in between |
| UnobservedResidual.FleetAnswers | src/der_flex/domain/store.py:269-368 | the store that run starts from is reached by delivering ten offers |
| Publication.AdjacentCohortsAgree | src/der_flex/domain/store.py:309-327 | published cells of one tenant, zone and consequence that touch in time have equal cohorts |
| Publication.ChainSharesCohort | src/der_flex/domain/store.py:309-327 | any contiguous chain of published cells shares one cohort |
| Publication.CohortWrittenOnce | src/der_flex/domain/store.py:367 | a cell's published cohort is written once |
| PublishedNumbers.QueryAnswersExactly | src/der_flex/domain/store.py:269-368 | a query answers a cell exactly when it is in the window, has a live offer and enough participants, and is not suppressed by then |
| PublishedNumbers.AnswersAre | src/der_flex/domain/store.py:328-366 | what a query answers of a cell are the numbers of all its live offers, as of the query's clock |
| PublishedNumbers.AggregateIsValid | src/der_flex/domain/store.py:333-366 | aggregating valid offers never fails the aggregate's own validation |
| PublishedNumbers.SanitizeCoarsens | src/der_flex/privacy.py:73-113 | quantities are lowered by less than a resolution, the baseline moved by at most half of one, and participants lowered to whole buckets |
| PublishedNumbers.ResponseIsCoarsened | src/der_flex/api/app.py:289-304 | every response of every run coarsens an adjusted aggregate of its cell with at least the policy's participants |
| InMemoryOfferStore.InMemoryOfferStore.Upsert | src/der_flex/domain/store.py:140-203 | updates the dictionaries as the store model's upsert, and raises in the same cases |
| InMemoryOfferStore.InMemoryOfferStore.RemoveResource | src/der_flex/domain/store.py:205-226 | removes a resource's offers, suppresses their published cells, and returns their number |
| InMemoryOfferStore.InMemoryOfferStore.EligibleOffers | src/der_flex/domain/store.py:242-267 | the live offers of a cell, sorted by resource identifier and permuted only |
| InMemoryOfferStore.InMemoryOfferStore.Group | src/der_flex/domain/store.py:282-297 | groups the visible offers by cell and orders the cells |
| InMemoryOfferStore.InMemoryOfferStore.PublishCell | src/der_flex/domain/store.py:298-367 | one pass of the query loop suppresses, skips or publishes as the model, whose suppressions `QuerySuppressesExactly` gives |
| InMemoryOfferStore.InMemoryOfferStore.Query | src/der_flex/domain/store.py:269-368 | computes the store model's answer and state, of which `QueryAnswersExactly` and `QuerySuppressesExactly` say what they hold |
| InMemoryOfferStore.InMemoryOfferStore.PublishPrivacySnapshot | src/der_flex/domain/store.py:95-138 | stores what `SnapExactly` says, and answers exactly the epoch's snapshots in the window, each once |
| SnapshotAnswers.SnapExactly | src/der_flex/domain/store.py:106-115 | after the call the snapshots are those there before, unchanged, and the first candidate of each other cell |
| SnapshotAnswers.CandidatesAre | src/der_flex/api/app.py:290-295 | exactly the aggregates with enough participants become candidates |
| SnapshotAnswers.RespondAnswers | src/der_flex/api/app.py:289-304 | a cell in the window is answered exactly if it had a snapshot in the epoch or is eligible in this request, by that snapshot or the first eligible one, coarsened |
| SnapshotAnswers.EveryEligibleIsAnswered | src/der_flex/api/app.py:289-304 | in every run each aggregate of a request with enough participants and in the window has a response for its cell in the answer |
| InMemoryOfferStore.ByResourceSorts | src/der_flex/domain/store.py:242-267 | sorting by resource is a permutation in order |
| Ledger.AllocateConserves | src/der_flex/reservations/service.py:149-175 | what is granted and what is missing add up to the request |
| Ledger.AllocateRefuses | src/der_flex/reservations/service.py:149-175 | the greedy loop fails exactly when all that is free falls short of the request by more than 1e-9 |
| Ledger.AllocateWithinFree | src/der_flex/reservations/service.py:152-173 | no offer's resource gets more than is free of it |
| Ledger.AllocateOnlyOffered | src/der_flex/reservations/service.py:152-173 | a resource without an offer gets nothing |
| LedgerAnswers.AllocateInOrder | src/der_flex/reservations/service.py:152-173 | an offer gives nothing before every earlier one has given all that is free of it |
| LedgerAnswers.AllocateDraws | src/der_flex/reservations/service.py:159-171 | an allocation carries the baseline and version of the offer it is drawn on |
| Ledger.EmptyReservationExactly | src/der_flex/reservations/service.py:159-173 | a reservation without allocations arises exactly for requests of at most 1e-9 kW when the first offer has nothing free |
| LedgerRuns.NoOverselling | src/der_flex/reservations/service.py:124-202 | over any run, what active reservations hold of a resource in a product never exceeds a bound on the capacities offered for it at the reservations, hence never the capacity if offers are fixed |
| LedgerRuns.EligibleOnePerResource | src/der_flex/domain/store.py:141-147 | the offers a reservation draws on are of its cell, live, and one per resource |
| LedgerRuns.EntryAgrees | src/der_flex/reservations/service.py:239-281 | allocated power is the sum of the allocations, at most the request and at least it less 1e-9 unless partly rejected; activation and reservation statuses match and counts add up; identifiers are unique |
| LedgerRuns.FinalForever | src/der_flex/reservations/service.py:212-222 | final statuses are never left and a request never changes |
| LedgerAnswers.CreateAnswers | src/der_flex/reservations/service.py:124-202 | each answer of a creation has its exact condition: invalid, conflict or replay, too few participants, too little capacity with what is missing, or created |
| LedgerAnswers.CreatedServes | src/der_flex/reservations/service.py:176-202 | what is created is the one new entry, serves the request, names the whole cohort and draws on the offers |
| LedgerAnswers.LookAnswers | src/der_flex/reservations/service.py:204-210 | in every run a look answers the reservation of its identifier as it is in the book afterwards, and NotFound exactly if no entry has it |
| LedgerAnswers.CallOffAnswers | src/der_flex/reservations/service.py:212-222 | in every run a cancellation cancels exactly what is found confirmed, and otherwise answers the status that refuses it |
| LedgerAnswers.AcceptedExactly | src/der_flex/reservations/service.py:245-249 | the kept allocations are, in order, exactly those whose position is accepted |
| LedgerAnswers.AcceptedCount | src/der_flex/reservations/service.py:250-253 | their number is that of the accepted positions, and all are kept exactly if every position is accepted |
| LedgerAnswers.ActivateNowAnswers | src/der_flex/reservations/service.py:224-281 | in every run an activation settles exactly what is found confirmed: it is COMPLETED exactly if every position was accepted, counts those that were, and keeps their allocations |
| LedgerAnswers.BeginAnswers | src/der_flex/reservations/service.py:288-317 | a durable activation opens exactly what is found confirmed, with one pending instruction per allocation |
| LedgerAnswers.SettlementAnswers | src/der_flex/reservations/postgres.py:764-790 | the outbox settles it by what was accepted in the same way |
| LedgerRuns.ConfirmedHasTime | src/der_flex/reservations/backend.py:146-151 | after a transaction no earlier reservation is confirmed past its interval's start or for five minutes, and the one it creates is past its deadline exactly if its interval has begun |
| LedgerRuns.LateIsNeverActivated | src/der_flex/reservations/service.py:192-193 | with clocks that do not go back, a reservation created for an interval that has begun stays CONFIRMED until the next transaction that expires, and is EXPIRED from then on |
| LedgerRuns.LateIsRefused | src/der_flex/reservations/service.py:231-236 | activating such a reservation is refused as expired, however soon |
| LedgerExamples.LateReservation | src/der_flex/reservations/service.py:192-193 | a run that creates one as its interval begins |
| LedgerRuns.ReplayOrConflict | src/der_flex/reservations/service.py:130-139 | a key used once answers, in every later state, with the same reservation for the same request and a conflict otherwise, and creates nothing |
| LedgerRuns.TenantsShareKeysExactly | src/der_flex/reservations/service.py:115 | two tenants can share an idempotency key exactly if one of them followed by a colon is a prefix of the other |
| LedgerRuns.SharedKeyConflicts | src/der_flex/reservations/service.py:130-139 | the tenant that comes second with a shared key is answered with a conflict in every later state |
| LedgerExamples.TenantsCollide | src/der_flex/security.py:118-119 | a run in which tenant a uses key b:k and tenant a:b is refused its own key k |
| LedgerRuns.ActivationIsIdempotent | src/der_flex/reservations/service.py:224-230 | asking again for a settled activation, at any later time, answers the same and changes nothing |
| LedgerRuns.EmptyStaysPending | src/der_flex/reservations/postgres.py:762-763 | an activation of no instructions is never settled |
| LedgerExamples.ActivationStuck | src/der_flex/reservations/service.py:159-173 | a run that uses up the first offer, reserves half a billionth of a kW and begins an activation without instructions |
| LedgerRuns.StepKeeps | src/der_flex/reservations/service.py:124-281 | every transaction keeps the ledger's invariant, and no entry disappears or grows |
| ResidualCapacity.ResidualIsFree | src/der_flex/reservations/service.py:385-424 | the aggregate residual, before rounding, never exceeds the sum of what is free of the offers |
| ResidualCapacity.CreateRefusesExactly | src/der_flex/reservations/service.py:152-175 | a creation is refused for capacity exactly when the offers' free capacity is below the request less 1e-9 |
| ResidualCapacity.PublishedAtMostResidual | src/der_flex/reservations/service.py:405-424 | rounding and flooring publish at most a millionth and half a billionth of a kW more than the aggregate residual |
| ResidualCapacity.AdvertisedIsReservable | src/der_flex/reservations/service.py:385-424 | a first request for up to a millionth of a kW less than the public number is created, counting by tenant or without other tenants' reservations |
| ResidualCapacity.RoundedUpIsRefused | src/der_flex/reservations/service.py:406-411 | under the default policy ten offers of 9.9999996 kW together are published as 10 kW, and a first request for 10 kW is refused |
| ResidualCapacity.OtherTenantBlocks | src/der_flex/reservations/backend.py:162-179 | after a run in which another tenant reserved 1 kW of its own resource of the same name, 10 kW is still published and counting all tenants refuses it; counting by tenant creates it |
| ReservationService.InMemoryReservationBackend.Expire | src/der_flex/reservations/backend.py:146-151 | expires exactly the confirmed reservations past their deadline |
| ReservationService.InMemoryReservationBackend.ReservedForOffer | src/der_flex/reservations/backend.py:162-179 | sums what active reservations hold of the offer's resource in its product, over all tenants |
| ReservationService.InMemoryReservationBackend.ListActive | src/der_flex/reservations/backend.py:246-251 | lists the active reservations in order |
| ReservationService.ReservationService.Distribute | src/der_flex/reservations/service.py:149-173 | the loop with its break computes the greedy grant |
| ReservationService.ReservationService.Create | src/der_flex/reservations/service.py:82-202 | the whole creation, with each of its refusals, is the ledger's transaction |
| ReservationService.ReservationService.Get | src/der_flex/reservations/service.py:204-210 | so is reading a reservation |
| ReservationService.ReservationService.Cancel | src/der_flex/reservations/service.py:212-222 | so is cancelling |
| ReservationService.ReservationService.Activate | src/der_flex/reservations/service.py:224-281 | so is the in-memory activation with partial rejection, as `ActivateNowAnswers` describes it |
| ReservationService.ReservationService.ApplyResidualCapacity | src/der_flex/reservations/service.py:385-424 | each aggregate loses what is reserved of its product |
| PooledNumbers.ResidualEnergies | src/der_flex/reservations/service.py:403-422 | each capacity loses the power reserved in its own direction, each energy that power over the interval's hours, floored at zero and rounded; nothing else of an aggregate changes |
| PooledNumbers.ReservationTakes | src/der_flex/reservations/service.py:391-402 | a reservation among others counts its allocated power for its own product and direction, and nowhere else |
| ReservationService.ReservationService.PublicResidualCapacity | src/der_flex/reservations/service.py:426-468 | publishes a residual as first published or suppresses the cell |
| PebcEnergy.SegmentEnergySafety | src/der_flex/adapters/s2/pebc.py:207-263 | for every mixed choice of upward and downward energy within the grants, the energy after each segment stays in the envelope, and within i billionths of a kWh of it against the unclamped baseline |
| PebcEnergy.GrantsAreSafe | src/der_flex/adapters/s2/pebc.py:223-253 | the greedy grants ask for no more than wanted and never exceed any headroom reached |
| PebcEnergy.GreedyIsAhead | src/der_flex/adapters/s2/pebc.py:223-253 | no plan with those properties is ahead of the greedy grants at any point |
| PebcEnergy.EndEnergyClose | src/der_flex/adapters/s2/pebc.py:207-221 | clamping moves the stored energy by at most 1e-9 kWh per segment |
| PebcResampling.KeptSegmentsAre | src/der_flex/adapters/s2/pebc.py:159-202 | kept segments are in order, disjoint, in the horizon and in the power band, with capacities inside it and the ramp |
| PebcResampling.MomentsSafe | src/der_flex/adapters/s2/pebc.py:223-263 | using all the upward, or all the downward, power of the segments is safe at every moment, also inside a segment |
| PebcResampling.EnergyInIsDifference | src/der_flex/adapters/s2/pebc.py:276-311 | a bucket's energy is what its segments pass between its ends |
| PebcGuarantees.EnergySafety | src/der_flex/adapters/s2/pebc.py:265-332 | at every moment, whatever part of the upward and downward energies of the offers that have ended was used, the energy stays in the envelope within 1e-9 kWh per kept segment |
| PebcGuarantees.OfferGuarantees | src/der_flex/adapters/s2/pebc.py:285-331 | every offer is valid and a bucket long; its capacities fit the ramp; its energies lie between capacity over covered time and what the overlapped segments were granted |
| PebcGuarantees.PowerEnvelope | src/der_flex/adapters/s2/pebc.py:148-202 | unless the resolution is coarse, mean baseline less upward capacity is at least the S2 and the physical minimum, and plus downward capacity at most both maxima |
| PebcGuarantees.RampEnvelope | src/der_flex/adapters/s2/pebc.py:161-191 | unless the resolution is coarse, both capacities are at most ramp rate times response time, and holding them for the bucket takes at most the energy offered |
| PebcGuarantees.WhollyCovered | src/der_flex/adapters/s2/pebc.py:281-285 | unless the resolution is coarse, a bucket that is offered is wholly covered |
| PebcGuarantees.GapsAccounted | src/der_flex/adapters/s2/pebc.py:276-285 | what a bucket lacks is at least a millisecond, or reaches across its edge with a millisecond of gap and one of segment beyond |
| PebcGuarantees.CloseExactly | src/der_flex/adapters/s2/pebc.py:285 | which covered times count as close to the resolution: below a thousand seconds, only the resolution itself |
| PebcGuarantees.GrantedEnergy | src/der_flex/adapters/s2/pebc.py:254-263 | a limited segment passes exactly the energy it was granted |
| PebcGuarantees.NormalizedPassed | src/der_flex/adapters/s2/pebc.py:99-204 | offers are returned only for input that passed every check and whose segments satisfy the above |
| PebcPlans.BandExactly | src/der_flex/adapters/s2/pebc.py:121-155 | a power is in the band exactly if the physical envelope allows it, some normal upper limit starts at or below it and some normal lower limit ends at or above it |
| PebcPlans.LimitsNeeded | src/der_flex/adapters/s2/pebc.py:121-136 | constraints yield nothing exactly if they have no end or lack one kind of normal limit |
| PebcPlans.ConfidenceIs | src/der_flex/adapters/s2/pebc.py:48-55 | a forecast without both bounds is trusted by half; another loses the share of its spread in twice the expected power, or in a kilowatt |
| PebcPlans.NoPlanIsAhead | src/der_flex/adapters/s2/pebc.py:205-263 | no choice of powers for the kept segments, within theirs, that keeps the energy after each segment in the envelope moves more energy, up or down, by the end of any segment than the limited segments |
| PebcPlans.LimitedIsPlan | src/der_flex/adapters/s2/pebc.py:205-263 | and the limited segments are such a choice |
| PebcMaximal.KeptExactly | src/der_flex/adapters/s2/pebc.py:159-202 | the kept segments are those of the elements with one supported value in the horizon, one each and in order |
| PebcMaximal.KeptTakeAll | src/der_flex/adapters/s2/pebc.py:161-191 | a kept segment may be moved by exactly what the band and the ramp allow: any other power that fits both is at most its own |
| PebcMaximal.OfferTakesAll | src/der_flex/adapters/s2/pebc.py:285-331 | a power is within an offer's capacity exactly if every limited segment it overlaps can sustain it, in both directions, and its confidence is the least of theirs |
| PebcMaximal.OfferPasses | src/der_flex/adapters/s2/pebc.py:287-311 | an offer's energies, and that of its mean baseline, are what the limited segments pass between its ends |
| PebcMaximal.OffersExactly | src/der_flex/adapters/s2/pebc.py:265-286 | offered are exactly the buckets at multiples of the resolution, between the first segment and the end, that are closely covered |
| PebcMaximal.OffersNameSource | src/der_flex/adapters/s2/pebc.py:312-331 | an offer carries the resource, session and times of its source and constraints |
| PebcMaximal.ChecksExactly | src/der_flex/adapters/s2/pebc.py:77-117 | which clocks and envelopes are accepted, and what each refusal says |
| PebcMaximal.ForwardRefusesExactly | src/der_flex/adapters/s2/pebc.py:207-221 | the forward pass refuses exactly if the baseline leaves the envelope by more than 1e-9 kWh in some segment |
| PebcCoarse.CoarseMissesTheEnvelope | src/der_flex/adapters/s2/pebc.py:281-297 | for every coarse resolution an input whose only offer is not wholly covered, has a mean baseline less capacity below the least power, and less energy than its capacity takes |
| PebcCoarse.CoarseDecides | src/der_flex/adapters/s2/pebc.py:265-332 | the power envelope, the ramp envelope and full coverage hold of every offer of every input at a resolution exactly if it is not coarse |
| PebcNormalizer.KeepSegments | src/der_flex/adapters/s2/pebc.py:159-202 | the cursor loop keeps exactly the specified segments, or refuses at the first baseline out of the band |
| PebcNormalizer.RunForward | src/der_flex/adapters/s2/pebc.py:207-221 | the clamped forward pass, refusing at the first breach |
| PebcNormalizer.RunBackward | src/der_flex/adapters/s2/pebc.py:223-237 | both budget arrays hold, at each index, the least headroom from there on, not below zero |
| PebcNormalizer.Grant | src/der_flex/adapters/s2/pebc.py:239-263 | the forward allocation over the budgets, or a division by zero exactly if a kept segment has no length |
| PebcNormalizer.Resample | src/der_flex/adapters/s2/pebc.py:265-332 | the bucket loop ends and emits exactly the specified offers, which `OffersExactly` and `OfferTakesAll` characterise |
| PebcNormalizer.NormalizePebcOffer | src/der_flex/adapters/s2/pebc.py:58-334 | the whole normaliser computes the specification, refusals and their order included |
| Battery.ForecastInRange | src/der_flex/simulators/battery.py:125-151 | for every valid battery and any number of intervals, energy and power stay in range |
| Battery.LimitsHold | src/der_flex/simulators/battery.py:96-105 | the limits a battery sends, none to discharge an empty or charge a full one, hold in every interval |
| Battery.ForecastFollows | src/der_flex/simulators/battery.py:125-151 | each interval forecasts the power that was set if the battery can keep it up for a quarter of an hour, and else the nearest that it can |
| Battery.RangesExactly | src/der_flex/simulators/battery.py:96-124 | each range sent holds exactly the powers that the battery can keep up for some time |
| Battery.MessagesForecast | src/der_flex/simulators/battery.py:125-158 | the messages forecast that power within 0.2 kW, quarter of an hour by quarter of an hour, for exactly the time they hold |
| Battery.AdvanceStores | src/der_flex/simulators/battery.py:71-77 | time adds power times hours to the stored energy, as far as it stays in the battery's range |
| Battery.AdvanceMeetsForecast | src/der_flex/simulators/battery.py:71-77 | a quarter of an hour at the set power reaches the energy that was forecast |
| Battery.SettingsTake | src/der_flex/simulators/battery.py:44-57 | a setting within the limits is taken over, a restart opens the next session, and nothing else changes |
| Battery.PositionIdentifiesState | src/der_flex/simulators/battery.py:44-77 | along any run source positions never go back, and one position means one state |
| Battery.StaysValid | src/der_flex/simulators/battery.py:44-77 | a battery that was accepted stays valid whatever is asked of it |
| Battery.ProvisionedExactly | src/der_flex/domain/resources.py:44-71 | a valid battery's record is refused exactly if it is out of the record's bounds |
| Battery.BatterySimulator.ChangePower | src/der_flex/simulators/battery.py:44-49 | refuses power out of limits, else sets it and advances the sequence if it changed |
| Battery.BatterySimulator.RestartSession | src/der_flex/simulators/battery.py:51-57 | starts a new epoch, or refuses and changes nothing |
| Battery.BatterySimulator.AdvanceTime | src/der_flex/simulators/battery.py:71-77 | moves the bounded state of charge and keeps the battery valid |
| Battery.BatterySimulator.S2OfferMessages | src/der_flex/simulators/battery.py:79-158 | the loop builds the specified constraints and forecast, for 1 to 96 intervals only |
| BatteryOffers.ForwardAgrees | src/der_flex/simulators/battery.py:125-151 | the normaliser's forward pass finds the energies the simulator forecast |
| BatteryOffers.ForecastIsAccepted | src/der_flex/simulators/provisioning.py:29-43 | within the clock window, the normaliser provisioned from the same state, if its record is within bounds, refuses no valid battery's messages, and yields one contiguous offer per whole quarter of an hour: all if the start is aligned |
| DependencyClosure.ProcessProgress | scripts/verify_release.py:310-335 | processing a package makes something known or leaves fewer pending, so the worklist ends |
| DependencyClosure.MonotoneExactly | scripts/verify_release.py:275-279 | exactly the markers that, holding without extras, hold with any, never stop applying as extras grow |
| DependencyClosure.LeastIsUnique | scripts/verify_release.py:310-335 | there is one least closed resolution at most |
| DependencyInventory.AnyOrderResolves | scripts/verify_release.py:310-335 | taken up in any order, what a finished run leaves is closed under final extras, and least for monotone markers |
| DependencyInventory.OrderIsIrrelevant | scripts/verify_release.py:310-335 | for monotone markers two finished runs agree whatever their orders |
| DependencyOrder.OrderCanMatter | scripts/verify_release.py:275-279 | for every marker that holds without extras but not with some, an inventory whose root lists its two requirements in either order, and first-in first-out closures that differ |
| DependencyOrder.OrderFreeExactly | scripts/verify_release.py:310-335 | the order of requirements is irrelevant to the first-in first-out closure of every inventory built from a marker exactly if the marker, holding without extras, holds with any |
| DependencyInventory.ProcessFirst | scripts/verify_release.py:315-335 | one package off the front, its requirements in order, stopping at a missing distribution |
| DependencyInventory.Resolve | scripts/verify_release.py:301-335 | the worklist ends on any finite, possibly cyclic graph with a closed resolution; for monotone markers it is the least, and giving up means that none exists |
| Gzip.DecodeEncoded | scripts/verify_release.py:79-94 | decoding the output gives the payload and the time back, for every payload |
| Gzip.InflateBlocks | scripts/verify_release.py:85-93 | reading stored blocks gives the payload and meets every block written: exactly the last is final, also when empty |
| Gzip.BlockCountIs | scripts/verify_release.py:85-87 | a nonempty payload is written in as many blocks as its length needs |
| Gzip.ComplementIs | scripts/verify_release.py:90-91 | the second length field is the first's complement |
| Gzip.HeaderBytes | scripts/verify_release.py:82-84 | the header byte by byte, the time with its least significant byte first |
| Gzip.EncodedIsInjective | scripts/verify_release.py:79-94 | different payloads or times never encode alike |
| Gzip.DeterministicGzip | scripts/verify_release.py:79-94 | the encoder's loop writes a member that decodes to the payload, or refuses a time outside 32 bits |
| AdvisoryLocks.LockOrder | src/der_flex/reservations/postgres.py:625 | each key once, in strictly increasing order |
| AdvisoryLocks.OneOrder | src/der_flex/reservations/postgres.py:625 | that order is determined by the set of keys |
| AdvisoryLocks.AcquiredInOrder | src/der_flex/domain/postgres.py:353-367 | in every interleaving each transaction takes its keys, those of a second phase included, in strictly increasing order, and no two hold the same |
| AdvisoryLocks.NeverTogether | src/der_flex/domain/postgres.py:199-209 | in no state of any interleaving are two transactions at work on the same data: offer store, budget, snapshots, product or idempotency key, reservation, residual |
| AdvisoryLocks.CreationHasItsCell | src/der_flex/domain/postgres.py:353-367 | while a creation is at work on a cell, no other transaction holds that cell, in its second phase or not |
| AdvisoryLocks.SomeTransactionMoves | src/der_flex/domain/postgres.py:199-209 | whenever a transaction is unfinished, one can take its next key or has all it wants |

## Left out

- HTTP routing, authentication, audit logging, metrics, reports and the other release scripts: plumbing around the modelled calls.
- Parsing of S2 and OpenADR messages, JSON, UUIDs and hashes: parsed values and injective names take their place.
- Floating-point rounding, infinities and NaN: arithmetic is exact, so no claim is made about the last binary digits of a sum.
- Webhook sending and its signatures: a delivery is an arbitrary outcome; the in-memory notifications are left out with it.
- Crashes of the in-memory service between two dictionary writes, which its lock does not undo.
- Interleaved PostgreSQL reservation transactions: an activation reads the status without a row lock while any other transaction may expire it, so overselling is excluded for transactions one at a time only.
- The PostgreSQL offer store: it reads the published cells once before its loop, so the claims about neighbouring cohorts are about the in-memory store.
- The privacy query budget, zones, the deletion of snapshots after seven days and the registry's version checks: easy members.
- PebcGuarantees.EnergySafety: ranges over the kept segments; forecast elements that are filtered out are not integrated, as in the code.
- LedgerRuns.NoOverselling: offers are those of the cell's exact interval; overlapping intervals of one resource are separate products in the code too.
- Gzip.DecodeEncoded: the checksum is any function of the payload; the polynomial is not modelled.
- AdvisoryLocks.SomeTransactionMoves: covers advisory locks only; row locks apart from the activation row are not modelled.
- DependencyInventory.Resolve: component metadata and the sorted output are left out.
