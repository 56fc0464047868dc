/** Publication end to end: store query, residual capacity, privacy policy, snapshot.

    One request runs these as three separate critical sections, between which other
    requests, upserts, removals, reservations and expiries may happen
    (src/der_flex/api/app.py:289-303). A step of this system is one critical section;
    what a section returned stays available to whoever still holds it, so every
    interleaving of any number of requests is covered. Windows, clocks and the
    reservations active at the time are arbitrary. */
module Publication {
  import opened Domain
  import opened Rounding
  import opened OfferStore

  // ----- Residual capacity

  predicate SameProduct(r: Reservation, cell: Cell, direction: Direction) {
    r.cell == cell && (direction == UPWARD <==> r.direction == UPWARD)
  }

  function ReservedPower(reservations: seq<Reservation>, cell: Cell, direction: Direction): real {
    if reservations == [] then 0.0
    else
      var last := reservations[|reservations| - 1];
      ReservedPower(reservations[..|reservations| - 1], cell, direction) +
      (if SameProduct(last, cell, direction) then last.allocatedPower else 0.0)
  }

  function Hours(cell: Cell): real {
    (cell.end - cell.start) as real / MICROS_PER_HOUR
  }

  function EnergyOver(power: real, hours: real): real { power * hours }

  function Left(amount: real, used: real): real {
    Round6(Max(0.0, amount - used))
  }

  function LessReserved(numbers: Numbers, cell: Cell, upward: real, downward: real): Numbers {
    numbers.(up := Left(numbers.up, upward),
             down := Left(numbers.down, downward),
             upEnergy := Left(numbers.upEnergy, EnergyOver(upward, Hours(cell))),
             downEnergy := Left(numbers.downEnergy, EnergyOver(downward, Hours(cell))))
  }

  function Residual(numbers: Numbers, cell: Cell, reservations: seq<Reservation>): Numbers {
    LessReserved(numbers, cell, ReservedPower(reservations, cell, UPWARD), ReservedPower(reservations, cell, DOWNWARD))
  }

  /** The part of a cell's numbers that is remembered and must not change. */
  datatype Remembered = Remembered(up: real, down: real, upEnergy: real, downEnergy: real)

  function Remember(numbers: Numbers): Remembered {
    Remembered(numbers.up, numbers.down, numbers.upEnergy, numbers.downEnergy)
  }

  datatype Residuals = Residuals(published: map<Cell, Remembered>, suppressed: set<Cell>)

  datatype Adjusted = Adjusted(residuals: Residuals, aggregates: seq<Aggregate>)

  function AdjustOne(state: Residuals, aggregate: Aggregate, reservations: seq<Reservation>): Adjusted {
    var cell := aggregate.cell;
    var numbers := Residual(aggregate.numbers, cell, reservations);
    var suppressed := if cell in state.published && state.published[cell] != Remember(numbers)
                      then state.suppressed + {cell} else state.suppressed;
    if cell in suppressed then Adjusted(state.(suppressed := suppressed), [])
    else
      Adjusted(Residuals(state.published[cell := Remember(numbers)], suppressed),
               [aggregate.(numbers := numbers)])
  }

  function AdjustAll(state: Residuals, aggregates: seq<Aggregate>, reservations: seq<Reservation>): Adjusted {
    if aggregates == [] then Adjusted(state, [])
    else
      var before := AdjustAll(state, aggregates[..|aggregates| - 1], reservations);
      var last := AdjustOne(before.residuals, aggregates[|aggregates| - 1], reservations);
      Adjusted(last.residuals, before.aggregates + last.aggregates)
  }

  // ----- Privacy policy

  datatype Policy = Policy(
    minimumParticipants: nat,
    powerResolution: real,
    energyResolution: real,
    confidenceResolution: real,
    bucketSize: nat)

  /** What the policy's constructor accepts. */
  predicate ValidPolicy(p: Policy) {
    && p.minimumParticipants >= 10
    && p.powerResolution > 0.0 && p.energyResolution > 0.0 && p.confidenceResolution > 0.0
    && p.bucketSize > 0
  }

  function FloorMultiple(value: real, resolution: real): real
    requires resolution > 0.0
  {
    (value / resolution).Floor as real * resolution
  }

  function NearestMultiple(value: real, resolution: real): real
    requires resolution > 0.0
  {
    RoundHalfEven(value / resolution) as real * resolution
  }

  function FloorTo(value: real, resolution: real): real
    requires resolution > 0.0
  {
    Round9(FloorMultiple(value + 0.000000000001, resolution))
  }

  function NearestTo(value: real, resolution: real): real
    requires resolution > 0.0
  {
    Round9(NearestMultiple(value, resolution))
  }

  function Sanitize(p: Policy, aggregate: Aggregate, epoch: Time): Aggregate
    requires ValidPolicy(p)
  {
    var n := aggregate.numbers;
    var bucketed := n.participants / p.bucketSize * p.bucketSize;
    Aggregate(
      aggregate.cell,
      Numbers(
        NearestTo(n.baseline, p.powerResolution),
        FloorTo(n.up, p.powerResolution),
        FloorTo(n.down, p.powerResolution),
        FloorTo(n.upEnergy, p.energyResolution),
        FloorTo(n.downEnergy, p.energyResolution),
        if bucketed < 1 then 1 else bucketed,
        FloorTo(n.confidence, p.confidenceResolution)),
      epoch)
  }

  predicate EligibleToPublish(p: Policy, aggregate: Aggregate) {
    aggregate.numbers.participants >= p.minimumParticipants
  }

  function SanitizeAll(p: Policy, public: seq<Aggregate>, epoch: Time): seq<Aggregate>
    requires ValidPolicy(p)
  {
    if public == [] then []
    else
      var last := public[|public| - 1];
      SanitizeAll(p, public[..|public| - 1], epoch) +
      (if EligibleToPublish(p, last) then [Sanitize(p, last, epoch)] else [])
  }

  // ----- The system

  datatype State = State(
    store: Store,
    residuals: Residuals,
    snapshots: Snapshots,
    queried: set<Aggregate>,      // everything a store query ever returned
    adjusted: set<Aggregate>,     // everything the residual stage ever let through
    responses: set<Aggregate>)    // everything ever answered to a client

  datatype Step =
    | Ingest(offer: Offer)
    | Disconnect(source: ResourceKey)
    | Ask(w: Window, now: Time)
    | Adjust(aggregates: seq<Aggregate>, reservations: seq<Reservation>)
    | Respond(w: Window, epoch: Time, public: seq<Aggregate>)

  ghost function Init(): State {
    State(EMPTY, Residuals(map[], {}), map[], {}, {}, {})
  }

  /** A stage works on what an earlier stage returned for the same request. */
  ghost predicate Enabled(s: State, step: Step) {
    match step
    case Adjust(aggregates, _) => forall x :: x in aggregates ==> x in s.queried
    case Respond(w, _, public) =>
      forall x :: x in public ==> x in s.adjusted && x.cell.tenant == w.tenant && x.cell.zone == w.zone
    case _ => true
  }

  function SetOf(aggregates: seq<Aggregate>): set<Aggregate> {
    set x | x in aggregates
  }

  ghost function Answers(snapshots: Snapshots, w: Window, epoch: Time): set<Aggregate> {
    set key | key in snapshots && key.epoch == epoch && InWindow(key.cell, w) :: snapshots[key]
  }

  ghost function Apply(s: State, step: Step, minimum: nat, p: Policy): State
    requires ValidPolicy(p)
  {
    match step
    case Ingest(offer) => s.(store := Admit(s.store, offer).store)
    case Disconnect(source) => s.(store := OfferStore.Remove(s.store, source))
    case Ask(w, now) =>
      var answer := Query(s.store, w, now, minimum);
      s.(store := answer.store, queried := s.queried + SetOf(answer.aggregates))
    case Adjust(aggregates, reservations) =>
      var after := AdjustAll(s.residuals, aggregates, reservations);
      s.(residuals := after.residuals, adjusted := s.adjusted + SetOf(after.aggregates))
    case Respond(w, epoch, public) =>
      var snapshots := Snap(s.snapshots, epoch, SanitizeAll(p, public, epoch));
      s.(snapshots := snapshots, responses := s.responses + Answers(snapshots, w, epoch))
  }

  // ----- Store queries repeat themselves

  /** While an answered cell is not suppressed, the same participants mean the same numbers. */
  ghost predicate Repeats(s: Store, q: Aggregate) {
    && q.cell in s.cohorts
    && (q.cell !in s.suppressed ==>
          forall now: Time {:trigger LiveIn(s.offers, q.cell, now)} ::
            LiveIn(s.offers, q.cell, now) != [] && CohortOf(LiveIn(s.offers, q.cell, now)) == s.cohorts[q.cell] ==>
              NumbersOf(LiveIn(s.offers, q.cell, now)) == q.numbers)
  }

  ghost predicate SameNumbers(xs: set<Aggregate>) {
    forall x, y :: x in xs && y in xs && x.cell == y.cell ==> x.numbers == y.numbers
  }

  ghost predicate QueriesInv(s: Store, queried: set<Aggregate>) {
    && Valid(s)
    && (forall q :: q in queried ==> Repeats(s, q))
    && SameNumbers(queried)
  }

  lemma {:induction false} LiveMember(offers: seq<Offer>, cell: Cell, now: Time)
    ensures forall o :: o in LiveIn(offers, cell, now) <==> o in offers && CellOf(o) == cell && o.expiresAt >= now
  {
    if offers != [] {
      LiveMember(offers[..|offers| - 1], cell, now);
      assert offers == offers[..|offers| - 1] + [offers[|offers| - 1]];
    }
  }

  /** Within a cell the store has one offer per resource, so the participants determine the offers. */
  lemma {:induction false} SameCohortSameOffers(offers: seq<Offer>, cell: Cell, now: Time, later: Time)
    requires KeysDistinct(offers)
    requires CohortOf(LiveIn(offers, cell, now)) == CohortOf(LiveIn(offers, cell, later))
    ensures LiveIn(offers, cell, now) == LiveIn(offers, cell, later)
  {
    if offers != [] {
      var init, last := offers[..|offers| - 1], offers[|offers| - 1];
      LastKeyIsNew(offers);
      if CellOf(last) == cell {
        OnlyItself(offers, cell, now, last);
        OnlyItself(offers, cell, later, last);
      }
      CohortOfInit(offers, cell, now);
      CohortOfInit(offers, cell, later);
      SameCohortSameOffers(init, cell, now, later);
    }
  }

  /** The last offer's resource takes part exactly if the offer itself does. */
  lemma OnlyItself(offers: seq<Offer>, cell: Cell, now: Time, last: Offer)
    requires KeysDistinct(offers) && offers != [] && last == offers[|offers| - 1] && CellOf(last) == cell
    ensures last.resource in CohortOf(LiveIn(offers, cell, now)) <==> last.expiresAt >= now
  {
    LiveMember(offers, cell, now);
    LastKeyIsNew(offers);
    if last.resource in CohortOf(LiveIn(offers, cell, now)) {
      var o :| o in LiveIn(offers, cell, now) && o.resource == last.resource;
      assert KeyOf(o) == KeyOf(last);
    }
  }

  lemma CohortOfInit(offers: seq<Offer>, cell: Cell, now: Time)
    requires KeysDistinct(offers) && offers != []
    ensures var last := offers[|offers| - 1];
            CohortOf(LiveIn(offers[..|offers| - 1], cell, now)) ==
              if CellOf(last) == cell then CohortOf(LiveIn(offers, cell, now)) - {last.resource}
              else CohortOf(LiveIn(offers, cell, now))
  {
    var init, last := offers[..|offers| - 1], offers[|offers| - 1];
    LastKeyIsNew(offers);
    LiveMember(init, cell, now);
    LiveAppend(init, last, cell, now);
    forall o | o in LiveIn(init, cell, now) && CellOf(last) == cell
      ensures o.resource != last.resource
    {
      assert KeyOf(o) != KeyOf(last);
    }
    CohortAppend(LiveIn(init, cell, now), last);
  }

  lemma CohortAppend(offers: seq<Offer>, offer: Offer)
    ensures CohortOf(offers + [offer]) == CohortOf(offers) + {offer.resource}
  {
    assert offer in offers + [offer];
    forall o | o in offers
      ensures o in offers + [offer]
    {
    }
  }

  // ----- Ingestion never changes an answered cell unnoticed

  lemma {:induction false} DropObsoleteLeaves(
      offers: seq<Offer>, source: ResourceKey, position: Position, cell: Cell, now: Time)
    requires forall o :: o in offers && Obsolete(o, source, position) ==> CellOf(o) != cell
    ensures LiveIn(DropObsolete(offers, source, position), cell, now) == LiveIn(offers, cell, now)
  {
    if offers != [] {
      var init, last := offers[..|offers| - 1], offers[|offers| - 1];
      DropObsoleteLeaves(init, source, position, cell, now);
      LiveAppend(DropObsolete(init, source, position), last, cell, now);
      assert DropObsolete(init, source, position) + [] == DropObsolete(init, source, position);
    }
  }

  lemma {:induction false} DropSourceLeaves(offers: seq<Offer>, source: ResourceKey, cell: Cell, now: Time)
    requires forall o :: o in offers && SourceOf(o) == source ==> CellOf(o) != cell
    ensures LiveIn(DropSource(offers, source), cell, now) == LiveIn(offers, cell, now)
  {
    if offers != [] {
      var init, last := offers[..|offers| - 1], offers[|offers| - 1];
      DropSourceLeaves(init, source, cell, now);
      LiveAppend(DropSource(init, source), last, cell, now);
      assert DropSource(init, source) + [] == DropSource(init, source);
    }
  }

  lemma LiveAppend(offers: seq<Offer>, offer: Offer, cell: Cell, now: Time)
    ensures LiveIn(offers + [offer], cell, now) ==
              LiveIn(offers, cell, now) + (if CellOf(offer) == cell && offer.expiresAt >= now then [offer] else [])
  {
    var longer := offers + [offer];
    assert longer[..|longer| - 1] == offers;
  }

  lemma AdvanceLeavesOthers(s: Store, offer: Offer, cell: Cell, now: Time)
    requires cell in s.cohorts && cell !in Advance(s, offer).suppressed
    ensures LiveIn(Advance(s, offer).offers, cell, now) == LiveIn(s.offers, cell, now)
  {
    var source, position := SourceOf(offer), PositionOf(offer);
    if source in s.positions && Before(s.positions[source], position) {
      forall o | o in s.offers && Obsolete(o, source, position)
        ensures CellOf(o) != cell
      {
        assert CellOf(o) == cell ==> cell in ObsoleteCells(s.offers, source, position, s.cohorts);
      }
      DropObsoleteLeaves(s.offers, source, position, cell, now);
    }
  }

  /** An upsert that changes a published cell's offers, at whatever clock one looks, suppresses it. */
  lemma UpsertSuppressesChanges(s: Store, offer: Offer, cell: Cell, now: Time)
    requires Valid(s) && cell in s.cohorts
    ensures || LiveIn(Admit(s, offer).store.offers, cell, now) == LiveIn(s.offers, cell, now)
            || cell in Admit(s, offer).store.suppressed
  {
    if !IsStale(s, offer) && cell !in Admit(s, offer).store.suppressed {
      AdmitKeeps(s, offer);
      AdvanceLeavesOthers(s, offer, cell, now);
      LiveAppend(Advance(s, offer).offers, offer, cell, now);
    }
  }

  /** So does a removal. */
  lemma RemovalSuppressesChanges(s: Store, source: ResourceKey, cell: Cell, now: Time)
    requires cell in s.cohorts
    ensures || LiveIn(OfferStore.Remove(s, source).offers, cell, now) == LiveIn(s.offers, cell, now)
            || cell in OfferStore.Remove(s, source).suppressed
  {
    if cell !in OfferStore.Remove(s, source).suppressed {
      forall o | o in s.offers && SourceOf(o) == source
        ensures CellOf(o) != cell
      {
        assert CellOf(o) == cell ==> cell in SourceCells(s.offers, source, s.cohorts);
      }
      DropSourceLeaves(s.offers, source, cell, now);
    }
  }

  /** An answer stays repeatable as long as its cell's offers stay or the cell is suppressed. */
  lemma RepeatsStays(s: Store, s': Store, q: Aggregate)
    requires Repeats(s, q)
    requires s'.cohorts == s.cohorts && s.suppressed <= s'.suppressed
    requires forall now: Time :: LiveIn(s'.offers, q.cell, now) == LiveIn(s.offers, q.cell, now) || q.cell in s'.suppressed
    ensures Repeats(s', q)
  {
  }

  lemma IngestKeeps(s: Store, offer: Offer, queried: set<Aggregate>)
    requires QueriesInv(s, queried)
    ensures QueriesInv(Admit(s, offer).store, queried)
  {
    AdmitKeeps(s, offer);
    forall q | q in queried
      ensures Repeats(Admit(s, offer).store, q)
    {
      forall now: Time
        ensures || LiveIn(Admit(s, offer).store.offers, q.cell, now) == LiveIn(s.offers, q.cell, now)
                || q.cell in Admit(s, offer).store.suppressed
      {
        UpsertSuppressesChanges(s, offer, q.cell, now);
      }
      RepeatsStays(s, Admit(s, offer).store, q);
    }
  }

  lemma DisconnectKeeps(s: Store, source: ResourceKey, queried: set<Aggregate>)
    requires QueriesInv(s, queried)
    ensures QueriesInv(OfferStore.Remove(s, source), queried)
  {
    RemoveKeeps(s, source);
    forall q | q in queried
      ensures Repeats(OfferStore.Remove(s, source), q)
    {
      forall now: Time
        ensures || LiveIn(OfferStore.Remove(s, source).offers, q.cell, now) == LiveIn(s.offers, q.cell, now)
                || q.cell in OfferStore.Remove(s, source).suppressed
      {
        RemovalSuppressesChanges(s, source, q.cell, now);
      }
      RepeatsStays(s, OfferStore.Remove(s, source), q);
    }
  }

  lemma PublishedRepeats(s: Store, cell: Cell, now: Time, minimum: nat, x: Aggregate)
    requires Valid(s) && x in Publish(s, cell, now, minimum).aggregates
    ensures Repeats(Publish(s, cell, now, minimum).store, x)
  {
    var s' := Publish(s, cell, now, minimum).store;
    assert x.cell == cell;
    forall later: Time | CohortOf(LiveIn(s'.offers, cell, later)) == s'.cohorts[cell]
      ensures LiveIn(s'.offers, cell, later) == LiveIn(s.offers, cell, now)
    {
      SameCohortSameOffers(s.offers, cell, now, later);
    }
  }

  lemma PublishKeepsRepeats(s: Store, cell: Cell, now: Time, minimum: nat, q: Aggregate)
    requires Valid(s) && Repeats(s, q)
    ensures Repeats(Publish(s, cell, now, minimum).store, q)
    ensures forall x :: x in Publish(s, cell, now, minimum).aggregates && x.cell == q.cell ==> x.numbers == q.numbers
  {
    PublishKeeps(s, cell, now, minimum);
    var live := LiveIn(s.offers, cell, now);
  }

  lemma PublishKeepsQueries(s: Store, cell: Cell, now: Time, minimum: nat, queried: set<Aggregate>)
    requires QueriesInv(s, queried)
    ensures var answer := Publish(s, cell, now, minimum);
            QueriesInv(answer.store, queried + SetOf(answer.aggregates))
  {
    var answer := Publish(s, cell, now, minimum);
    PublishKeeps(s, cell, now, minimum);
    forall q | q in queried
      ensures Repeats(answer.store, q)
      ensures forall x :: x in answer.aggregates && x.cell == q.cell ==> x.numbers == q.numbers
    {
      PublishKeepsRepeats(s, cell, now, minimum, q);
    }
    forall x | x in answer.aggregates
      ensures Repeats(answer.store, x)
    {
      PublishedRepeats(s, cell, now, minimum, x);
    }
    assert forall x, y :: x in answer.aggregates && y in answer.aggregates ==> x == y;
  }

  lemma {:induction false} PublishAllKeepsQueries(
      s: Store, cells: seq<Cell>, now: Time, minimum: nat, queried: set<Aggregate>)
    requires QueriesInv(s, queried)
    ensures var answer := PublishAll(s, cells, now, minimum);
            QueriesInv(answer.store, queried + SetOf(answer.aggregates))
  {
    if cells == [] {
      assert queried + SetOf([]) == queried;
    } else {
      var before := PublishAll(s, cells[..|cells| - 1], now, minimum);
      var last := Publish(before.store, cells[|cells| - 1], now, minimum);
      PublishAllKeepsQueries(s, cells[..|cells| - 1], now, minimum, queried);
      PublishKeepsQueries(before.store, cells[|cells| - 1], now, minimum, queried + SetOf(before.aggregates));
      assert queried + SetOf(before.aggregates + last.aggregates)
          == queried + SetOf(before.aggregates) + SetOf(last.aggregates);
    }
  }

  // ----- The residual stage repeats itself

  ghost predicate SameRest(x: Numbers, y: Numbers) {
    x.baseline == y.baseline && x.participants == y.participants && x.confidence == y.confidence
  }

  ghost predicate FromQuery(queried: set<Aggregate>, x: Aggregate) {
    exists q :: q in queried && q.cell == x.cell && SameRest(q.numbers, x.numbers)
  }

  ghost predicate LetThrough(residuals: Residuals, queried: set<Aggregate>, x: Aggregate) {
    && x.cell in residuals.published
    && Remember(x.numbers) == residuals.published[x.cell]
    && FromQuery(queried, x)
  }

  ghost predicate ResidualsInv(residuals: Residuals, queried: set<Aggregate>, adjusted: set<Aggregate>) {
    forall x :: x in adjusted ==> LetThrough(residuals, queried, x)
  }

  lemma AdjustOneKeeps(
      state: Residuals, aggregate: Aggregate, reservations: seq<Reservation>, queried: set<Aggregate>, adjusted: set<Aggregate>)
    requires ResidualsInv(state, queried, adjusted) && aggregate in queried
    ensures var after := AdjustOne(state, aggregate, reservations);
            && ResidualsInv(after.residuals, queried, adjusted + SetOf(after.aggregates))
            && state.suppressed <= after.residuals.suppressed
            && (forall x :: x in after.aggregates ==> x.cell !in after.residuals.suppressed)
  {
  }

  lemma {:induction false} AdjustAllKeeps(
      state: Residuals, aggregates: seq<Aggregate>, reservations: seq<Reservation>, queried: set<Aggregate>, adjusted: set<Aggregate>)
    requires ResidualsInv(state, queried, adjusted)
    requires forall x :: x in aggregates ==> x in queried
    ensures var after := AdjustAll(state, aggregates, reservations);
            ResidualsInv(after.residuals, queried, adjusted + SetOf(after.aggregates))
  {
    if aggregates == [] {
      assert adjusted + SetOf([]) == adjusted;
    } else {
      var before := AdjustAll(state, aggregates[..|aggregates| - 1], reservations);
      var last := AdjustOne(before.residuals, aggregates[|aggregates| - 1], reservations);
      AdjustAllKeeps(state, aggregates[..|aggregates| - 1], reservations, queried, adjusted);
      AdjustOneKeeps(before.residuals, aggregates[|aggregates| - 1], reservations, queried, adjusted + SetOf(before.aggregates));
      assert adjusted + SetOf(before.aggregates + last.aggregates)
          == adjusted + SetOf(before.aggregates) + SetOf(last.aggregates);
    }
  }

  lemma AdjustedSame(
      residuals: Residuals, queried: set<Aggregate>, adjusted: set<Aggregate>, x: Aggregate, y: Aggregate)
    requires ResidualsInv(residuals, queried, adjusted) && SameNumbers(queried)
    requires x in adjusted && y in adjusted && x.cell == y.cell
    ensures x.numbers == y.numbers
  {
    assert LetThrough(residuals, queried, x) && LetThrough(residuals, queried, y);
    var q :| q in queried && q.cell == x.cell && SameRest(q.numbers, x.numbers);
    var r :| r in queried && r.cell == y.cell && SameRest(r.numbers, y.numbers);
    assert q.numbers == r.numbers;
    assert Remember(x.numbers) == Remember(y.numbers);
  }

  // ----- Snapshots and responses

  ghost predicate FromAdjusted(adjusted: set<Aggregate>, p: Policy, a: Aggregate)
    requires ValidPolicy(p)
  {
    exists x :: x in adjusted && EligibleToPublish(p, x) && a == Sanitize(p, x, a.generatedAt)
  }

  ghost predicate SnapshotsInv(snapshots: Snapshots, adjusted: set<Aggregate>, p: Policy)
    requires ValidPolicy(p)
  {
    forall key :: key in snapshots ==>
      && snapshots[key].cell == key.cell && snapshots[key].generatedAt == key.epoch
      && FromAdjusted(adjusted, p, snapshots[key])
  }

  lemma {:induction false} SanitizeAllFrom(p: Policy, public: seq<Aggregate>, epoch: Time, adjusted: set<Aggregate>)
    requires ValidPolicy(p) && forall x :: x in public ==> x in adjusted
    ensures forall a :: a in SanitizeAll(p, public, epoch) ==> a.generatedAt == epoch && FromAdjusted(adjusted, p, a)
  {
    if public != [] {
      var last := public[|public| - 1];
      SanitizeAllFrom(p, public[..|public| - 1], epoch, adjusted);
      assert EligibleToPublish(p, last) ==> FromAdjusted(adjusted, p, Sanitize(p, last, epoch));
    }
  }

  lemma {:induction false} SnapKeeps(
      snapshots: Snapshots, epoch: Time, candidates: seq<Aggregate>, adjusted: set<Aggregate>, p: Policy)
    requires ValidPolicy(p) && SnapshotsInv(snapshots, adjusted, p)
    requires forall a :: a in candidates ==> a.generatedAt == epoch && FromAdjusted(adjusted, p, a)
    ensures SnapshotsInv(Snap(snapshots, epoch, candidates), adjusted, p)
    ensures forall key :: key in snapshots ==>
              key in Snap(snapshots, epoch, candidates) && Snap(snapshots, epoch, candidates)[key] == snapshots[key]
  {
    if candidates != [] {
      SnapKeeps(snapshots, epoch, candidates[..|candidates| - 1], adjusted, p);
    }
  }

  // ----- Runs

  ghost predicate ResponsesInv(responses: set<Aggregate>, snapshots: Snapshots, adjusted: set<Aggregate>, p: Policy)
    requires ValidPolicy(p)
  {
    forall r :: r in responses ==>
      && FromAdjusted(adjusted, p, r)
      && SnapshotKey(r.generatedAt, r.cell) in snapshots && snapshots[SnapshotKey(r.generatedAt, r.cell)] == r
  }

  ghost predicate Inv(s: State, p: Policy)
    requires ValidPolicy(p)
  {
    && QueriesInv(s.store, s.queried)
    && ResidualsInv(s.residuals, s.queried, s.adjusted)
    && SnapshotsInv(s.snapshots, s.adjusted, p)
    && ResponsesInv(s.responses, s.snapshots, s.adjusted, p)
  }

  lemma FromAdjustedGrows(adjusted: set<Aggregate>, more: set<Aggregate>, p: Policy, a: Aggregate)
    requires ValidPolicy(p) && FromAdjusted(adjusted, p, a)
    ensures FromAdjusted(adjusted + more, p, a)
  {
    var x :| x in adjusted && EligibleToPublish(p, x) && a == Sanitize(p, x, a.generatedAt);
    assert x in adjusted + more;
  }

  lemma QueriedGrows(residuals: Residuals, queried: set<Aggregate>, more: set<Aggregate>, adjusted: set<Aggregate>)
    requires ResidualsInv(residuals, queried, adjusted)
    ensures ResidualsInv(residuals, queried + more, adjusted)
  {
    forall x | x in adjusted
      ensures LetThrough(residuals, queried + more, x)
    {
      assert LetThrough(residuals, queried, x);
      var q :| q in queried && q.cell == x.cell && SameRest(q.numbers, x.numbers);
      assert q in queried + more;
    }
  }

  lemma AdjustKeeps(s: State, aggregates: seq<Aggregate>, reservations: seq<Reservation>, minimum: nat, p: Policy)
    requires ValidPolicy(p) && Inv(s, p)
    requires forall x :: x in aggregates ==> x in s.queried
    ensures Inv(Apply(s, Adjust(aggregates, reservations), minimum, p), p)
  {
    AdjustAllKeeps(s.residuals, aggregates, reservations, s.queried, s.adjusted);
    var more := SetOf(AdjustAll(s.residuals, aggregates, reservations).aggregates);
    forall a | FromAdjusted(s.adjusted, p, a)
      ensures FromAdjusted(s.adjusted + more, p, a)
    {
      FromAdjustedGrows(s.adjusted, more, p, a);
    }
  }

  lemma AnswersKeep(
      responses: set<Aggregate>, before: Snapshots, after: Snapshots, adjusted: set<Aggregate>, p: Policy,
      w: Window, epoch: Time)
    requires ValidPolicy(p) && ResponsesInv(responses, before, adjusted, p) && SnapshotsInv(after, adjusted, p)
    requires forall key :: key in before ==> key in after && after[key] == before[key]
    ensures ResponsesInv(responses + Answers(after, w, epoch), after, adjusted, p)
  {
    forall r | r in Answers(after, w, epoch)
      ensures FromAdjusted(adjusted, p, r)
      ensures SnapshotKey(r.generatedAt, r.cell) in after && after[SnapshotKey(r.generatedAt, r.cell)] == r
    {
      var key :| key in after && key.epoch == epoch && after[key] == r;
      assert key == SnapshotKey(r.generatedAt, r.cell);
    }
  }

  lemma RespondKeeps(s: State, w: Window, epoch: Time, public: seq<Aggregate>, minimum: nat, p: Policy)
    requires ValidPolicy(p) && Inv(s, p)
    requires forall x :: x in public ==> x in s.adjusted
    ensures Inv(Apply(s, Respond(w, epoch, public), minimum, p), p)
  {
    var candidates := SanitizeAll(p, public, epoch);
    SanitizeAllFrom(p, public, epoch, s.adjusted);
    SnapKeeps(s.snapshots, epoch, candidates, s.adjusted, p);
    AnswersKeep(s.responses, s.snapshots, Snap(s.snapshots, epoch, candidates), s.adjusted, p, w, epoch);
  }

  lemma StepKeeps(s: State, step: Step, minimum: nat, p: Policy)
    requires ValidPolicy(p) && Inv(s, p) && Enabled(s, step)
    ensures Inv(Apply(s, step, minimum, p), p)
  {
    match step
    case Ingest(offer) => IngestKeeps(s.store, offer, s.queried);
    case Disconnect(source) => DisconnectKeeps(s.store, source, s.queried);
    case Ask(w, now) =>
      var cells := VisibleCells(s.store.offers, w, now);
      PublishAllKeepsQueries(s.store, cells, now, minimum, s.queried);
      QueriedGrows(s.residuals, s.queried, SetOf(Query(s.store, w, now, minimum).aggregates), s.adjusted);
    case Adjust(aggregates, reservations) => AdjustKeeps(s, aggregates, reservations, minimum, p);
    case Respond(w, epoch, public) => RespondKeeps(s, w, epoch, public, minimum, p);
  }

  ghost predicate Run(states: seq<State>, steps: seq<Step>, minimum: nat, p: Policy)
    requires ValidPolicy(p)
  {
    && |states| == |steps| + 1
    && states[0] == Init()
    && forall k :: 0 <= k < |steps| ==>
         Enabled(states[k], steps[k]) && states[k + 1] == Apply(states[k], steps[k], minimum, p)
  }

  lemma {:induction false} Reachable(states: seq<State>, steps: seq<Step>, minimum: nat, p: Policy, k: nat)
    requires ValidPolicy(p) && Run(states, steps, minimum, p) && k < |states|
    ensures Inv(states[k], p)
  {
    if k > 0 {
      Reachable(states, steps, minimum, p, k - 1);
      StepKeeps(states[k - 1], steps[k - 1], minimum, p);
    }
  }

  /** Responses with one source in the adjusted aggregates' cell carry the same numbers. */
  lemma SameSourceSameNumbers(s: State, p: Policy, r1: Aggregate, r2: Aggregate)
    requires ValidPolicy(p) && ResidualsInv(s.residuals, s.queried, s.adjusted) && SameNumbers(s.queried)
    requires FromAdjusted(s.adjusted, p, r1) && FromAdjusted(s.adjusted, p, r2) && r1.cell == r2.cell
    ensures r1.numbers == r2.numbers
  {
    var x :| x in s.adjusted && EligibleToPublish(p, x) && r1 == Sanitize(p, x, r1.generatedAt);
    var y :| y in s.adjusted && EligibleToPublish(p, y) && r2 == Sanitize(p, y, r2.generatedAt);
    AdjustedSame(s.residuals, s.queried, s.adjusted, x, y);
  }

  /** Sticky publication. Whatever happened in between, two responses about the same cell carry
      the same numbers, and within one epoch they are the same response. */
  lemma StickyPublication(
      states: seq<State>, steps: seq<Step>, minimum: nat, p: Policy, k: nat, r1: Aggregate, r2: Aggregate)
    requires ValidPolicy(p) && Run(states, steps, minimum, p) && k < |states|
    requires r1 in states[k].responses && r2 in states[k].responses && r1.cell == r2.cell
    ensures r1.numbers == r2.numbers
    ensures r1.generatedAt == r2.generatedAt ==> r1 == r2
  {
    Reachable(states, steps, minimum, p, k);
    SameSourceSameNumbers(states[k], p, r1, r2);
  }

  // ----- Suppression is for ever, and a change leads to it

  lemma PublishSuppression(s: Store, cell: Cell, now: Time, minimum: nat)
    ensures var answer := Publish(s, cell, now, minimum);
            && s.suppressed <= answer.store.suppressed
            && (forall a :: a in answer.aggregates ==> a.cell == cell && a.cell !in answer.store.suppressed)
            && (cell in s.cohorts && s.cohorts[cell] != CohortOf(LiveIn(s.offers, cell, now)) ==>
                  cell in answer.store.suppressed)
            && answer.store.offers == s.offers
  {
  }

  lemma {:induction false} PublishAllSuppression(s: Store, cells: seq<Cell>, now: Time, minimum: nat)
    ensures var answer := PublishAll(s, cells, now, minimum);
            && s.suppressed <= answer.store.suppressed
            && (forall a :: a in answer.aggregates ==> a.cell !in s.suppressed)
            && answer.store.offers == s.offers
  {
    if cells != [] {
      PublishAllSuppression(s, cells[..|cells| - 1], now, minimum);
      PublishSuppression(PublishAll(s, cells[..|cells| - 1], now, minimum).store, cells[|cells| - 1], now, minimum);
    }
  }

  lemma {:induction false} AdjustAllSuppression(
      state: Residuals, aggregates: seq<Aggregate>, reservations: seq<Reservation>)
    ensures var after := AdjustAll(state, aggregates, reservations);
            && state.suppressed <= after.residuals.suppressed
            && (forall a :: a in after.aggregates ==> a.cell !in state.suppressed)
  {
    if aggregates != [] {
      AdjustAllSuppression(state, aggregates[..|aggregates| - 1], reservations);
    }
  }

  lemma StepSuppression(s: State, step: Step, minimum: nat, p: Policy)
    requires ValidPolicy(p)
    ensures s.store.suppressed <= Apply(s, step, minimum, p).store.suppressed
    ensures s.residuals.suppressed <= Apply(s, step, minimum, p).residuals.suppressed
  {
    match step
    case Ask(w, now) => PublishAllSuppression(s.store, VisibleCells(s.store.offers, w, now), now, minimum);
    case Adjust(aggregates, reservations) => AdjustAllSuppression(s.residuals, aggregates, reservations);
    case _ =>
  }

  lemma {:induction false} SuppressedForever(
      states: seq<State>, steps: seq<Step>, minimum: nat, p: Policy, j: nat, k: nat)
    requires ValidPolicy(p) && Run(states, steps, minimum, p) && j <= k < |states|
    ensures states[j].store.suppressed <= states[k].store.suppressed
    ensures states[j].residuals.suppressed <= states[k].residuals.suppressed
  {
    if j < k {
      SuppressedForever(states, steps, minimum, p, j, k - 1);
      StepSuppression(states[k - 1], steps[k - 1], minimum, p);
    }
  }

  /** A published cell whose offers were changed by a step is in no later query's answer. */
  lemma ChangedIsNeverQueriedAgain(
      states: seq<State>, steps: seq<Step>, minimum: nat, p: Policy, j: nat, k: nat, cell: Cell, seen: Time, w: Window, now: Time)
    requires ValidPolicy(p) && Run(states, steps, minimum, p) && j < k < |steps|
    requires steps[k] == Ask(w, now)
    requires cell in states[j].store.cohorts
    requires LiveIn(states[j].store.offers, cell, seen) != LiveIn(states[j + 1].store.offers, cell, seen)
    ensures forall a :: a in Query(states[k].store, w, now, minimum).aggregates ==> a.cell != cell
  {
    Reachable(states, steps, minimum, p, j);
    match steps[j] {
      case Ingest(offer) => UpsertSuppressesChanges(states[j].store, offer, cell, seen);
      case Disconnect(source) => RemovalSuppressesChanges(states[j].store, source, cell, seen);
      case Ask(w0, now0) => PublishAllSuppression(states[j].store, VisibleCells(states[j].store.offers, w0, now0), now0, minimum);
      case _ =>
    }
    SuppressedForever(states, steps, minimum, p, j + 1, k);
    PublishAllSuppression(states[k].store, VisibleCells(states[k].store.offers, w, now), now, minimum);
  }

  lemma {:induction false} InsertCellIs(cells: seq<Cell>, cell: Cell)
    ensures forall c :: c in InsertCell(cells, cell) <==> c in cells || c == cell
  {
    if cells != [] && !CellLess(cell, cells[0]) && cells[0] != cell {
      InsertCellIs(cells[1..], cell);
      assert cells == [cells[0]] + cells[1..];
    }
  }

  lemma {:induction false} VisibleCellsAre(offers: seq<Offer>, w: Window, now: Time, cell: Cell)
    ensures cell in VisibleCells(offers, w, now) <==> InWindow(cell, w) && LiveIn(offers, cell, now) != []
  {
    if offers != [] {
      var init, last := offers[..|offers| - 1], offers[|offers| - 1];
      VisibleCellsAre(init, w, now, cell);
      InsertCellIs(VisibleCells(init, w, now), CellOf(last));
    }
  }

  lemma {:induction false} PublishAllNotices(s: Store, cells: seq<Cell>, now: Time, minimum: nat, cell: Cell)
    requires Valid(s) && cell in cells && cell in s.cohorts
    requires s.cohorts[cell] != CohortOf(LiveIn(s.offers, cell, now))
    ensures cell in PublishAll(s, cells, now, minimum).store.suppressed
  {
    var init, last := cells[..|cells| - 1], cells[|cells| - 1];
    var before := PublishAll(s, init, now, minimum).store;
    PublishAllKeeps(s, init, now, minimum);
    PublishAllSuppression(s, init, now, minimum);
    PublishSuppression(before, last, now, minimum);
    if last != cell {
      assert cells == init + [last];
      PublishAllNotices(s, init, now, minimum, cell);
    }
  }

  /** A query that sees other participants than were published suppresses the cell for good. */
  lemma CohortChangeIsNeverQueriedAgain(
      states: seq<State>, steps: seq<Step>, minimum: nat, p: Policy, j: nat, k: nat, cell: Cell,
      w: Window, now: Time, later: Window, clock: Time)
    requires ValidPolicy(p) && Run(states, steps, minimum, p) && j < k < |steps|
    requires steps[j] == Ask(w, now) && steps[k] == Ask(later, clock)
    requires InWindow(cell, w) && cell in states[j].store.cohorts
    requires var live := LiveIn(states[j].store.offers, cell, now);
             live != [] && CohortOf(live) != states[j].store.cohorts[cell]
    ensures forall a :: a in Query(states[k].store, later, clock, minimum).aggregates ==> a.cell != cell
  {
    Reachable(states, steps, minimum, p, j);
    VisibleCellsAre(states[j].store.offers, w, now, cell);
    PublishAllNotices(states[j].store, VisibleCells(states[j].store.offers, w, now), now, minimum, cell);
    SuppressedForever(states, steps, minimum, p, j + 1, k);
    PublishAllSuppression(states[k].store, VisibleCells(states[k].store.offers, later, clock), clock, minimum);
  }

  lemma {:induction false} AdjustAllNotices(
      state: Residuals, aggregates: seq<Aggregate>, reservations: seq<Reservation>, x: Aggregate)
    requires x in aggregates && x.cell in state.published
    requires state.published[x.cell] != Remember(Residual(x.numbers, x.cell, reservations))
    ensures x.cell in AdjustAll(state, aggregates, reservations).residuals.suppressed
  {
    var init, last := aggregates[..|aggregates| - 1], aggregates[|aggregates| - 1];
    AdjustAllPublishedOnce(state, init, reservations, x.cell);
    if last != x {
      assert aggregates == init + [last];
      AdjustAllNotices(state, init, reservations, x);
    }
  }

  lemma {:induction false} AdjustAllPublishedOnce(
      state: Residuals, aggregates: seq<Aggregate>, reservations: seq<Reservation>, cell: Cell)
    requires cell in state.published
    ensures var after := AdjustAll(state, aggregates, reservations).residuals;
            cell in after.published && after.published[cell] == state.published[cell]
  {
    if aggregates != [] {
      AdjustAllPublishedOnce(state, aggregates[..|aggregates| - 1], reservations, cell);
    }
  }

  /** A residual stage sees another residual than the one published of the cell. */
  ghost predicate Notices(state: Residuals, aggregates: seq<Aggregate>, reservations: seq<Reservation>, cell: Cell) {
    && cell in state.published
    && exists x :: x in aggregates && x.cell == cell &&
         state.published[cell] != Remember(Residual(x.numbers, x.cell, reservations))
  }

  predicate Carries(aggregates: seq<Aggregate>, cell: Cell) {
    exists x :: x in aggregates && x.cell == cell
  }

  lemma AdjustOneExactly(state: Residuals, x: Aggregate, reservations: seq<Reservation>, cell: Cell)
    ensures var after, numbers := AdjustOne(state, x, reservations), Residual(x.numbers, x.cell, reservations);
            && (cell in after.residuals.suppressed <==>
                  cell in state.suppressed ||
                  (x.cell == cell && cell in state.published && state.published[cell] != Remember(numbers)))
            && (Carries(after.aggregates, cell) <==> x.cell == cell && cell !in after.residuals.suppressed)
            && after.residuals.published ==
                 if x.cell in after.residuals.suppressed then state.published else state.published[x.cell := Remember(numbers)]
  {
    var after := AdjustOne(state, x, reservations);
    if after.aggregates != [] {
      assert after.aggregates[0].cell == x.cell;
      assert after.aggregates[0] in after.aggregates;
    }
  }

  /** Whether the cell has been looked at, or was published before, its residual is the one on record. */
  ghost predicate OnRecord(state: Residuals, after: Residuals, aggregates: seq<Aggregate>, reservations: seq<Reservation>, cell: Cell) {
    && (cell in state.published ==> cell in after.published && after.published[cell] == state.published[cell])
    && (cell !in state.published && cell in after.published ==>
          exists x :: x in aggregates && x.cell == cell && after.published[cell] == Remember(Residual(x.numbers, x.cell, reservations)))
  }

  lemma CarriesAppend(x: seq<Aggregate>, y: seq<Aggregate>, cell: Cell)
    ensures Carries(x + y, cell) <==> Carries(x, cell) || Carries(y, cell)
  {
  }

  lemma {:induction false} AdjustAllExactly(
      state: Residuals, aggregates: seq<Aggregate>, reservations: seq<Reservation>, cell: Cell)
    requires forall x, y :: x in aggregates && y in aggregates && x.cell == y.cell ==> x.numbers == y.numbers
    ensures var after := AdjustAll(state, aggregates, reservations);
            && (cell in after.residuals.suppressed <==> cell in state.suppressed || Notices(state, aggregates, reservations, cell))
            && (Carries(after.aggregates, cell) <==> Carries(aggregates, cell) && cell !in after.residuals.suppressed)
            && OnRecord(state, after.residuals, aggregates, reservations, cell)
  {
    if aggregates != [] {
      var init, last := aggregates[..|aggregates| - 1], aggregates[|aggregates| - 1];
      assert aggregates == init + [last];
      var before := AdjustAll(state, init, reservations);
      var now := AdjustOne(before.residuals, last, reservations);
      AdjustAllExactly(state, init, reservations, cell);
      AdjustOneExactly(before.residuals, last, reservations, cell);
      CarriesAppend(before.aggregates, now.aggregates, cell);
      CarriesAppend(init, [last], cell);
      assert Carries([last], cell) <==> last.cell == cell by {
        assert last in [last];
      }
      assert last in aggregates;
    }
  }

  /** A cell's public residual is suppressed exactly if some residual stage saw another one than was published. */
  lemma {:induction false} ResidualSuppressedExactly(
      states: seq<State>, steps: seq<Step>, minimum: nat, p: Policy, k: nat, cell: Cell)
    requires ValidPolicy(p) && Run(states, steps, minimum, p) && k < |states|
    ensures cell in states[k].residuals.suppressed <==>
              exists j :: 0 <= j < k && steps[j].Adjust? &&
                Notices(states[j].residuals, steps[j].aggregates, steps[j].reservations, cell)
  {
    if k > 0 {
      ResidualSuppressedExactly(states, steps, minimum, p, k - 1, cell);
      Reachable(states, steps, minimum, p, k - 1);
      StepSuppressedExactly(states[k - 1], steps[k - 1], minimum, p, cell);
    }
  }

  lemma StepSuppressedExactly(s: State, step: Step, minimum: nat, p: Policy, cell: Cell)
    requires ValidPolicy(p) && SameNumbers(s.queried) && Enabled(s, step)
    ensures cell in Apply(s, step, minimum, p).residuals.suppressed <==>
              cell in s.residuals.suppressed || (step.Adjust? && Notices(s.residuals, step.aggregates, step.reservations, cell))
  {
    if step.Adjust? {
      AdjustAllExactly(s.residuals, step.aggregates, step.reservations, cell);
    }
  }

  /** What a residual stage lets through: the cells it is given, but those in which it or an earlier
      stage saw another residual than was published. A change that no stage saw hides nothing. */
  lemma ResidualStagePassesExactly(
      states: seq<State>, steps: seq<Step>, minimum: nat, p: Policy, k: nat, cell: Cell)
    requires ValidPolicy(p) && Run(states, steps, minimum, p) && k < |steps| && steps[k].Adjust?
    ensures Carries(AdjustAll(states[k].residuals, steps[k].aggregates, steps[k].reservations).aggregates, cell) <==>
              && Carries(steps[k].aggregates, cell)
              && forall j :: 0 <= j <= k && steps[j].Adjust? ==>
                   !Notices(states[j].residuals, steps[j].aggregates, steps[j].reservations, cell)
  {
    Reachable(states, steps, minimum, p, k);
    ResidualSuppressedExactly(states, steps, minimum, p, k, cell);
    AdjustAllExactly(states[k].residuals, steps[k].aggregates, steps[k].reservations, cell);
  }

  /** A residual stage that sees another residual than the published one hides the cell from every later one. */
  lemma ResidualChangeIsNeverPublishedAgain(
      states: seq<State>, steps: seq<Step>, minimum: nat, p: Policy, j: nat, k: nat, x: Aggregate,
      aggregates: seq<Aggregate>, reservations: seq<Reservation>, laterAggregates: seq<Aggregate>, laterReservations: seq<Reservation>)
    requires ValidPolicy(p) && Run(states, steps, minimum, p) && j < k < |steps|
    requires steps[j] == Adjust(aggregates, reservations) && steps[k] == Adjust(laterAggregates, laterReservations)
    requires x in aggregates && x.cell in states[j].residuals.published
    requires states[j].residuals.published[x.cell] != Remember(Residual(x.numbers, x.cell, reservations))
    ensures forall a :: a in AdjustAll(states[k].residuals, laterAggregates, laterReservations).aggregates ==> a.cell != x.cell
  {
    AdjustAllNotices(states[j].residuals, aggregates, reservations, x);
    SuppressedForever(states, steps, minimum, p, j + 1, k);
    AdjustAllSuppression(states[k].residuals, laterAggregates, laterReservations);
  }

  // ----- Cohorts

  /** Published cells that touch in time were published for the same participants. */
  lemma AdjacentCohortsAgree(states: seq<State>, steps: seq<Step>, minimum: nat, p: Policy, k: nat, c: Cell, d: Cell)
    requires ValidPolicy(p) && Run(states, steps, minimum, p) && k < |states|
    requires c in states[k].store.cohorts && d in states[k].store.cohorts && Touches(c, d)
    ensures states[k].store.cohorts[c] == states[k].store.cohorts[d]
  {
    Reachable(states, steps, minimum, p, k);
  }

  /** So any contiguous chain of published cells shares one cohort. */
  lemma {:induction false} ChainSharesCohort(
      states: seq<State>, steps: seq<Step>, minimum: nat, p: Policy, k: nat, chain: seq<Cell>)
    requires ValidPolicy(p) && Run(states, steps, minimum, p) && k < |states| && chain != []
    requires forall i :: 0 <= i < |chain| ==> chain[i] in states[k].store.cohorts
    requires forall i :: 0 < i < |chain| ==> Touches(chain[i - 1], chain[i])
    ensures forall i :: 0 <= i < |chain| ==> states[k].store.cohorts[chain[i]] == states[k].store.cohorts[chain[0]]
  {
    if |chain| > 1 {
      var init := chain[..|chain| - 1];
      ChainSharesCohort(states, steps, minimum, p, k, init);
      AdjacentCohortsAgree(states, steps, minimum, p, k, chain[|chain| - 2], chain[|chain| - 1]);
      assert init[0] == chain[0] && init[|chain| - 2] == chain[|chain| - 2];
      assert forall i :: 0 <= i < |init| ==> init[i] == chain[i];
    }
  }

  lemma StepKeepsCohort(s: State, step: Step, minimum: nat, p: Policy, cell: Cell)
    requires ValidPolicy(p) && Valid(s.store) && cell in s.store.cohorts
    ensures cell in Apply(s, step, minimum, p).store.cohorts
    ensures Apply(s, step, minimum, p).store.cohorts[cell] == s.store.cohorts[cell]
  {
    if step.Ask? {
      PublishAllKeeps(s.store, VisibleCells(s.store.offers, step.w, step.now), step.now, minimum);
    }
  }

  lemma CohortStays(states: seq<State>, steps: seq<Step>, minimum: nat, p: Policy, k: nat, cell: Cell)
    requires ValidPolicy(p) && Run(states, steps, minimum, p) && k < |steps| && Valid(states[k].store)
    requires cell in states[k].store.cohorts
    ensures cell in states[k + 1].store.cohorts && states[k + 1].store.cohorts[cell] == states[k].store.cohorts[cell]
  {
    StepKeepsCohort(states[k], steps[k], minimum, p, cell);
  }

  /** A cell's published cohort is written once. */
  lemma {:induction false} CohortWrittenOnce(
      states: seq<State>, steps: seq<Step>, minimum: nat, p: Policy, j: nat, k: nat, cell: Cell)
    requires ValidPolicy(p) && Run(states, steps, minimum, p) && j <= k < |states|
    requires cell in states[j].store.cohorts
    ensures cell in states[k].store.cohorts && states[k].store.cohorts[cell] == states[j].store.cohorts[cell]
  {
    if j < k {
      CohortWrittenOnce(states, steps, minimum, p, j, k - 1, cell);
      Reachable(states, steps, minimum, p, k - 1);
      CohortStays(states, steps, minimum, p, k - 1, cell);
    }
  }

  /** At every moment each stored offer sits at its resource's high-water position, a disconnected
      resource has no offer, and no two offers share a resource, a zone, a start and a consequence. */
  lemma HighWater(states: seq<State>, steps: seq<Step>, minimum: nat, p: Policy, k: nat, o: Offer)
    requires ValidPolicy(p) && Run(states, steps, minimum, p) && k < |states| && o in states[k].store.offers
    ensures var s := states[k].store;
            && SourceOf(o) in s.positions && s.positions[SourceOf(o)] == PositionOf(o)
            && SourceOf(o) !in s.disconnected
            && (forall q :: q in s.offers && KeyOf(q) == KeyOf(o) ==> q == o)
  {
    Reachable(states, steps, minimum, p, k);
  }
}
