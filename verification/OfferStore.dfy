/** The in-memory offer store (src/der_flex/domain/store.py): one offer per key, a
    high-water source position per resource, write-once published cohorts, permanent
    suppression, and snapshots per publication epoch. Python dictionaries iterate in
    insertion order, so the offers are a sequence in that order. */
module OfferStore {
  import opened Domain
  import opened Rounding
  import opened Strings

  datatype Position = Position(epoch: nat, sequence: nat)

  predicate Before(p: Position, q: Position) {
    p.epoch < q.epoch || (p.epoch == q.epoch && p.sequence < q.sequence)
  }

  datatype ResourceKey = ResourceKey(tenant: string, resource: string)

  /** The dictionary key of an offer; the end of its interval is not part of it. */
  datatype OfferKey = OfferKey(tenant: string, resource: string, zone: string, start: Time, consequence: Consequence)

  function PositionOf(o: Offer): Position {
    Position(o.epoch, o.sequence)
  }

  function SourceOf(o: Offer): ResourceKey {
    ResourceKey(o.tenant, o.resource)
  }

  function KeyOf(o: Offer): OfferKey {
    OfferKey(o.tenant, o.resource, o.zone, o.start, o.consequence)
  }

  datatype Store = Store(
    offers: seq<Offer>,
    positions: map<ResourceKey, Position>,
    disconnected: set<ResourceKey>,
    cohorts: map<Cell, set<string>>,
    suppressed: set<Cell>)

  const EMPTY := Store([], map[], {}, map[], {})

  // ----- Ingestion

  function Find(offers: seq<Offer>, key: OfferKey): Option<Offer> {
    if offers == [] then None
    else if KeyOf(offers[|offers| - 1]) == key then Some(offers[|offers| - 1])
    else Find(offers[..|offers| - 1], key)
  }

  /** A dictionary assignment: in place for a known key, at the end for a new one. */
  function Put(offers: seq<Offer>, offer: Offer): seq<Offer> {
    if offers == [] then [offer]
    else if KeyOf(offers[0]) == KeyOf(offer) then [offer] + offers[1..]
    else [offers[0]] + Put(offers[1..], offer)
  }

  predicate Obsolete(o: Offer, source: ResourceKey, position: Position) {
    SourceOf(o) == source && Before(PositionOf(o), position)
  }

  function DropObsolete(offers: seq<Offer>, source: ResourceKey, position: Position): seq<Offer> {
    if offers == [] then []
    else
      var last := offers[|offers| - 1];
      DropObsolete(offers[..|offers| - 1], source, position) + (if Obsolete(last, source, position) then [] else [last])
  }

  function DropSource(offers: seq<Offer>, source: ResourceKey): seq<Offer> {
    if offers == [] then []
    else
      var last := offers[|offers| - 1];
      DropSource(offers[..|offers| - 1], source) + (if SourceOf(last) == source then [] else [last])
  }

  /** The published cells among those of the offers taken away. */
  function ObsoleteCells(
      offers: seq<Offer>, source: ResourceKey, position: Position, cohorts: map<Cell, set<string>>): set<Cell> {
    set o | o in offers && Obsolete(o, source, position) && CellOf(o) in cohorts :: CellOf(o)
  }

  function SourceCells(offers: seq<Offer>, source: ResourceKey, cohorts: map<Cell, set<string>>): set<Cell> {
    set o | o in offers && SourceOf(o) == source && CellOf(o) in cohorts :: CellOf(o)
  }

  datatype Outcome = Stored | Unchanged | Stale | Conflict

  datatype Admission = Admission(store: Store, outcome: Outcome)

  predicate IsStale(s: Store, offer: Offer) {
    var source := SourceOf(offer);
    && source in s.positions
    && var known := s.positions[source];
       || (source in s.disconnected && !Before(known, PositionOf(offer)))
       || Before(PositionOf(offer), known)
  }

  /** The store once the offer's position is accepted: obsolete offers go, their cells are suppressed. */
  function Advance(s: Store, offer: Offer): Store {
    var source, position := SourceOf(offer), PositionOf(offer);
    var moves := source in s.positions && Before(s.positions[source], position);
    s.(offers := if moves then DropObsolete(s.offers, source, position) else s.offers,
       suppressed := if moves then s.suppressed + ObsoleteCells(s.offers, source, position, s.cohorts) else s.suppressed,
       positions := s.positions[source := position],
       disconnected := s.disconnected - {source})
  }

  function Admit(s: Store, offer: Offer): Admission {
    if IsStale(s, offer) then Admission(s, Stale)
    else
      var moved := Advance(s, offer);
      var previous := Find(moved.offers, KeyOf(offer));
      if previous == Some(offer) then Admission(moved, Unchanged)
      else if previous.Some? && PositionOf(previous.value) == PositionOf(offer) then Admission(moved, Conflict)
      else
        Admission(
          moved.(suppressed := if CellOf(offer) in s.cohorts then moved.suppressed + {CellOf(offer)} else moved.suppressed,
                 offers := Put(moved.offers, offer)),
          Stored)
  }

  function Remove(s: Store, source: ResourceKey): Store {
    s.(offers := DropSource(s.offers, source),
       suppressed := s.suppressed + SourceCells(s.offers, source, s.cohorts),
       disconnected := if exists o :: o in s.offers && SourceOf(o) == source
                       then s.disconnected + {source} else s.disconnected)
  }

  // ----- Queries

  function LiveIn(offers: seq<Offer>, cell: Cell, now: Time): seq<Offer> {
    if offers == [] then []
    else
      var last := offers[|offers| - 1];
      LiveIn(offers[..|offers| - 1], cell, now) + (if CellOf(last) == cell && last.expiresAt >= now then [last] else [])
  }

  function CohortOf(offers: seq<Offer>): set<string> {
    set o | o in offers :: o.resource
  }

  datatype Quantity = Baseline | Up | Down | UpEnergy | DownEnergy | Weight | WeightedConfidence

  function Amount(o: Offer, q: Quantity): real {
    match q
    case Baseline => o.baseline
    case Up => o.up
    case Down => o.down
    case UpEnergy => o.upEnergy
    case DownEnergy => o.downEnergy
    case Weight => o.up + o.down
    case WeightedConfidence => o.confidence * (o.up + o.down)
  }

  function Sum(offers: seq<Offer>, q: Quantity): real {
    if offers == [] then 0.0 else Sum(offers[..|offers| - 1], q) + Amount(offers[|offers| - 1], q)
  }

  function LeastConfidence(offers: seq<Offer>): real
    requires offers != []
  {
    var last := offers[|offers| - 1].confidence;
    if |offers| == 1 then last else Min(LeastConfidence(offers[..|offers| - 1]), last)
  }

  function Confidence(offers: seq<Offer>): real
    requires offers != []
  {
    if Sum(offers, Weight) != 0.0 then Sum(offers, WeightedConfidence) / Sum(offers, Weight)
    else LeastConfidence(offers)
  }

  function NumbersOf(offers: seq<Offer>): Numbers
    requires offers != []
  {
    Numbers(
      Round6(Sum(offers, Baseline)), Round6(Sum(offers, Up)), Round6(Sum(offers, Down)),
      Round6(Sum(offers, UpEnergy)), Round6(Sum(offers, DownEnergy)),
      |CohortOf(offers)|, Round6(Confidence(offers)))
  }

  predicate Touches(c: Cell, d: Cell) {
    && c.tenant == d.tenant && c.zone == d.zone && c.consequence == d.consequence
    && (c.end == d.start || d.end == c.start)
  }

  /** Some published cell that touches this one in time was published for other participants. */
  predicate DiffersNextDoor(cohorts: map<Cell, set<string>>, cell: Cell, cohort: set<string>) {
    exists d :: d in cohorts && Touches(d, cell) && cohorts[d] != cohort
  }

  datatype Window = Window(tenant: string, zone: string, start: Time, end: Time)

  predicate Visible(o: Offer, w: Window, now: Time) {
    o.tenant == w.tenant && o.zone == w.zone && o.expiresAt >= now && o.start >= w.start && o.end <= w.end
  }

  predicate CellLess(c: Cell, d: Cell) {
    || c.start < d.start
    || (c.start == d.start && c.end < d.end)
    || (c.start == d.start && c.end == d.end && c.consequence == DEFER && d.consequence == VANISH)
  }

  function InsertCell(cells: seq<Cell>, cell: Cell): seq<Cell> {
    if cells == [] || CellLess(cell, cells[0]) then [cell] + cells
    else if cells[0] == cell then cells
    else [cells[0]] + InsertCell(cells[1..], cell)
  }

  /** The cells with a visible offer, in the order in which a query treats them. */
  function VisibleCells(offers: seq<Offer>, w: Window, now: Time): seq<Cell> {
    if offers == [] then []
    else
      var before := VisibleCells(offers[..|offers| - 1], w, now);
      var last := offers[|offers| - 1];
      if Visible(last, w, now) then InsertCell(before, CellOf(last)) else before
  }

  datatype Answer = Answer(store: Store, aggregates: seq<Aggregate>)

  function SuppressedBy(s: Store, cell: Cell, cohort: set<string>): set<Cell> {
    if (cell in s.cohorts && s.cohorts[cell] != cohort) || DiffersNextDoor(s.cohorts, cell, cohort)
    then s.suppressed + {cell}
    else s.suppressed
  }

  function Publish(s: Store, cell: Cell, now: Time, minimum: nat): Answer {
    var live := LiveIn(s.offers, cell, now);
    var cohort := CohortOf(live);
    var suppressed := SuppressedBy(s, cell, cohort);
    if live == [] || cell in suppressed || |cohort| < minimum then Answer(s.(suppressed := suppressed), [])
    else
      Answer(s.(suppressed := suppressed, cohorts := s.cohorts[cell := cohort]),
             [Aggregate(cell, NumbersOf(live), now)])
  }

  function PublishAll(s: Store, cells: seq<Cell>, now: Time, minimum: nat): Answer {
    if cells == [] then Answer(s, [])
    else
      var before := PublishAll(s, cells[..|cells| - 1], now, minimum);
      var last := Publish(before.store, cells[|cells| - 1], now, minimum);
      Answer(last.store, before.aggregates + last.aggregates)
  }

  function Query(s: Store, w: Window, now: Time, minimum: nat): Answer {
    PublishAll(s, VisibleCells(s.offers, w, now), now, minimum)
  }

  // ----- Eligible offers and snapshots

  function InsertByResource(offers: seq<Offer>, offer: Offer): seq<Offer> {
    if offers == [] then [offer]
    else
      var last := offers[|offers| - 1];
      if Less(offer.resource, last.resource) then InsertByResource(offers[..|offers| - 1], offer) + [last]
      else offers + [offer]
  }

  /** A stable sort by resource identifier. */
  function ByResource(offers: seq<Offer>): seq<Offer> {
    if offers == [] then [] else InsertByResource(ByResource(offers[..|offers| - 1]), offers[|offers| - 1])
  }

  function Eligible(s: Store, cell: Cell, now: Time): seq<Offer> {
    ByResource(LiveIn(s.offers, cell, now))
  }

  datatype SnapshotKey = SnapshotKey(epoch: Time, cell: Cell)

  type Snapshots = map<SnapshotKey, Aggregate>

  /** setdefault: the first candidate of an epoch stays. */
  function Snap(snapshots: Snapshots, epoch: Time, candidates: seq<Aggregate>): Snapshots {
    if candidates == [] then snapshots
    else
      var before := Snap(snapshots, epoch, candidates[..|candidates| - 1]);
      var last := candidates[|candidates| - 1];
      var key := SnapshotKey(epoch, last.cell);
      if key in before then before else before[key := last]
  }

  predicate InWindow(cell: Cell, w: Window) {
    cell.tenant == w.tenant && cell.zone == w.zone && cell.start >= w.start && cell.end <= w.end
  }

  function SnapshotCells(snapshots: Snapshots, w: Window, epoch: Time): set<Cell> {
    set key | key in snapshots && key.epoch == epoch && InWindow(key.cell, w) :: key.cell
  }

  // ----- What every reachable store satisfies

  predicate KeysDistinct(offers: seq<Offer>) {
    forall i, j :: 0 <= i < j < |offers| ==> KeyOf(offers[i]) != KeyOf(offers[j])
  }

  /** Every stored offer sits at its resource's high-water position; a disconnected resource has none. */
  predicate AtHighWater(s: Store) {
    forall o :: o in s.offers ==>
      && SourceOf(o) in s.positions && s.positions[SourceOf(o)] == PositionOf(o)
      && SourceOf(o) !in s.disconnected
  }

  predicate AdjacentAgree(cohorts: map<Cell, set<string>>) {
    forall c, d :: c in cohorts && d in cohorts && Touches(c, d) ==> cohorts[c] == cohorts[d]
  }

  predicate Valid(s: Store) {
    && KeysDistinct(s.offers)
    && AtHighWater(s)
    && s.disconnected <= s.positions.Keys
    && AdjacentAgree(s.cohorts)
  }

  lemma LastKeyIsNew(offers: seq<Offer>)
    requires KeysDistinct(offers) && offers != []
    ensures offers == offers[..|offers| - 1] + [offers[|offers| - 1]]
    ensures KeysDistinct(offers[..|offers| - 1])
    ensures forall o :: o in offers[..|offers| - 1] ==> KeyOf(o) != KeyOf(offers[|offers| - 1])
  {
    var init := offers[..|offers| - 1];
    forall o | o in init
      ensures KeyOf(o) != KeyOf(offers[|offers| - 1])
    {
      var i :| 0 <= i < |init| && init[i] == o;
      assert offers[i] == o;
    }
  }

  lemma AppendKeepsDistinct(offers: seq<Offer>, offer: Offer)
    requires KeysDistinct(offers)
    ensures (forall o :: o in offers ==> KeyOf(o) != KeyOf(offer)) ==> KeysDistinct(offers + [offer])
  {
  }

  lemma {:induction false} DropObsoleteKeeps(offers: seq<Offer>, source: ResourceKey, position: Position)
    requires KeysDistinct(offers)
    ensures var kept := DropObsolete(offers, source, position);
            && KeysDistinct(kept)
            && forall o :: o in kept <==> o in offers && !Obsolete(o, source, position)
  {
    if offers != [] {
      var init, last := offers[..|offers| - 1], offers[|offers| - 1];
      DropObsoleteKeeps(init, source, position);
      LastKeyIsNew(offers);
      AppendKeepsDistinct(DropObsolete(init, source, position), last);
    }
  }

  lemma {:induction false} DropSourceKeeps(offers: seq<Offer>, source: ResourceKey)
    requires KeysDistinct(offers)
    ensures var kept := DropSource(offers, source);
            && KeysDistinct(kept)
            && forall o :: o in kept <==> o in offers && SourceOf(o) != source
  {
    if offers != [] {
      var init, last := offers[..|offers| - 1], offers[|offers| - 1];
      DropSourceKeeps(init, source);
      LastKeyIsNew(offers);
      AppendKeepsDistinct(DropSource(init, source), last);
    }
  }

  lemma {:induction false} FindIs(offers: seq<Offer>, key: OfferKey)
    ensures match Find(offers, key)
            case Some(o) => o in offers && KeyOf(o) == key
            case None => forall o :: o in offers ==> KeyOf(o) != key
  {
    if offers != [] {
      var init, last := offers[..|offers| - 1], offers[|offers| - 1];
      FindIs(init, key);
      assert offers == init + [last];
    }
  }

  lemma {:induction false} PutNew(offers: seq<Offer>, offer: Offer)
    requires forall o :: o in offers ==> KeyOf(o) != KeyOf(offer)
    ensures Put(offers, offer) == offers + [offer]
  {
    if offers != [] {
      PutNew(offers[1..], offer);
      assert offers == [offers[0]] + offers[1..];
    }
  }

  /** Once the position is accepted, an offer of another position under the same key is gone. */
  lemma AdvanceKeeps(s: Store, offer: Offer)
    requires Valid(s) && !IsStale(s, offer)
    ensures var moved := Advance(s, offer);
            && Valid(moved)
            && moved.positions[SourceOf(offer)] == PositionOf(offer)
            && (forall o :: o in moved.offers ==> o in s.offers)
            && (forall o :: o in moved.offers && KeyOf(o) == KeyOf(offer) ==> PositionOf(o) == PositionOf(offer))
            && (forall o :: o in s.offers && o !in moved.offers ==> SourceOf(o) == SourceOf(offer))
  {
    DropObsoleteKeeps(s.offers, SourceOf(offer), PositionOf(offer));
  }

  /** What is stored is new under its key. */
  lemma StoredIsNew(s: Store, offer: Offer)
    requires Valid(s) && Admit(s, offer).outcome == Stored
    ensures forall o :: o in Advance(s, offer).offers ==> KeyOf(o) != KeyOf(offer)
    ensures Admit(s, offer).store.offers == Advance(s, offer).offers + [offer]
  {
    var moved := Advance(s, offer);
    AdvanceKeeps(s, offer);
    FindIs(moved.offers, KeyOf(offer));
    PutNew(moved.offers, offer);
  }

  lemma AdmitKeeps(s: Store, offer: Offer)
    requires Valid(s)
    ensures Valid(Admit(s, offer).store)
    ensures Admit(s, offer).outcome == Stored ==>
              Admit(s, offer).store.offers == Advance(s, offer).offers + [offer]
  {
    if !IsStale(s, offer) {
      AdvanceKeeps(s, offer);
      if Admit(s, offer).outcome == Stored {
        StoredIsNew(s, offer);
        AppendKeepsDistinct(Advance(s, offer).offers, offer);
      }
    }
  }

  /** A rejected upsert changes nothing, neither the offers nor any position. */
  lemma RejectionChangesNothing(s: Store, offer: Offer)
    requires Valid(s) && Admit(s, offer).outcome in {Stale, Conflict}
    ensures Admit(s, offer).store == s
  {
    if !IsStale(s, offer) {
      AdvanceKeeps(s, offer);
      FindIs(Advance(s, offer).offers, KeyOf(offer));
    }
  }

  lemma RemoveKeeps(s: Store, source: ResourceKey)
    requires Valid(s)
    ensures Valid(Remove(s, source))
  {
    DropSourceKeeps(s.offers, source);
  }

  lemma PublishKeeps(s: Store, cell: Cell, now: Time, minimum: nat)
    requires Valid(s)
    ensures Valid(Publish(s, cell, now, minimum).store)
    ensures forall c :: c in s.cohorts ==>
              c in Publish(s, cell, now, minimum).store.cohorts &&
              Publish(s, cell, now, minimum).store.cohorts[c] == s.cohorts[c]
  {
  }

  lemma {:induction false} PublishAllKeeps(s: Store, cells: seq<Cell>, now: Time, minimum: nat)
    requires Valid(s)
    ensures Valid(PublishAll(s, cells, now, minimum).store)
    ensures forall c :: c in s.cohorts ==>
              c in PublishAll(s, cells, now, minimum).store.cohorts &&
              PublishAll(s, cells, now, minimum).store.cohorts[c] == s.cohorts[c]
  {
    if cells != [] {
      PublishAllKeeps(s, cells[..|cells| - 1], now, minimum);
      PublishKeeps(PublishAll(s, cells[..|cells| - 1], now, minimum).store, cells[|cells| - 1], now, minimum);
    }
  }
}
