/** Values exchanged between the offer store, the reservation ledger and publication
    (src/der_flex/domain/models.py), over exact reals and integer microseconds. */
module Domain {
  /** Microseconds since the epoch. */
  type Time = int

  const MICROS_PER_HOUR: real := 3_600_000_000.0

  datatype Option<+T> = None | Some(value: T)

  datatype Consequence = DEFER | VANISH

  datatype Direction = UPWARD | DOWNWARD

  datatype Offer = Offer(
    tenant: string,
    resource: string,
    zone: string,
    start: Time,
    end: Time,
    baseline: real,
    up: real,
    down: real,
    upEnergy: real,
    downEnergy: real,
    confidence: real,
    consequence: Consequence,
    sourceVersion: string,
    epoch: nat,
    sequence: nat,
    observedAt: Time,
    expiresAt: Time)

  /** What the model's validators accept. */
  predicate ValidOffer(o: Offer) {
    && o.up >= 0.0 && o.down >= 0.0 && o.upEnergy >= 0.0 && o.downEnergy >= 0.0
    && 0.0 <= o.confidence <= 1.0
    && o.start < o.end <= o.expiresAt
  }

  /** One publishable product cell. */
  datatype Cell = Cell(tenant: string, zone: string, start: Time, end: Time, consequence: Consequence)

  function CellOf(o: Offer): Cell {
    Cell(o.tenant, o.zone, o.start, o.end, o.consequence)
  }

  function Capacity(o: Offer, direction: Direction): real {
    if direction == UPWARD then o.up else o.down
  }

  /** Everything an aggregate publishes about a cell besides when it was generated. */
  datatype Numbers = Numbers(
    baseline: real,
    up: real,
    down: real,
    upEnergy: real,
    downEnergy: real,
    participants: nat,
    confidence: real)

  datatype Aggregate = Aggregate(cell: Cell, numbers: Numbers, generatedAt: Time)

  datatype ReservationStatus = CONFIRMED | ACTIVATED | COMPLETED | CANCELLED | EXPIRED | FAILED

  datatype ActivationStatus = ActPending | ActCompleted | ActFailed

  datatype Reservation = Reservation(
    id: nat,
    cell: Cell,
    direction: Direction,
    requestedPower: real,
    allocatedPower: real,
    participants: nat,
    status: ReservationStatus,
    createdAt: Time,
    expiresAt: Time)

  predicate Active(status: ReservationStatus) {
    status in {CONFIRMED, ACTIVATED, COMPLETED, FAILED}
  }

  function Max(x: real, y: real): real {
    if x < y then y else x
  }

  function Min(x: real, y: real): real {
    if y < x then y else x
  }
}
