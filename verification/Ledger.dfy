/** The reservation ledger and the operations of the reservation service on it
    (src/der_flex/reservations/service.py, src/der_flex/reservations/backend.py), one
    transaction at a time. Entries are kept in insertion order. Identifiers are fresh
    values chosen by the caller; a request fingerprint is the request itself, which
    assumes the hash injective. */
module Ledger {
  import opened Domain

  datatype Allocation = Allocation(resource: string, power: real, baseline: real, sourceVersion: string)

  datatype Entry = Entry(reservation: Reservation, allocations: seq<Allocation>)

  datatype Payload = Payload(cell: Cell, direction: Direction, power: real, callback: Option<string>)

  datatype Request = Request(key: string, payload: Payload)

  datatype Claim = Claim(payload: Payload, id: nat)

  datatype Activation = Activation(status: ActivationStatus, instructions: nat, accepted: nat, rejected: nat)

  datatype Book = Book(
    entries: seq<Entry>,
    keys: map<string, Claim>,
    activations: map<nat, Activation>)

  const EMPTY_BOOK := Book([], map[], map[])

  const MAX_POWER: real := 1_000_000.0
  const TOLERANCE: real := 0.000000001
  const CONFIRMATION_TIME: int := 300_000_000

  /** How reserved power is counted: SQL filters by tenant, the in-memory backend does not. */
  datatype Scope = ByTenant | AllTenants

  predicate SameCell(c: Cell, d: Cell, scope: Scope) {
    && c.zone == d.zone && c.start == d.start && c.end == d.end && c.consequence == d.consequence
    && (scope == ByTenant ==> c.tenant == d.tenant)
  }

  function JoinedKey(tenant: string, key: string): string {
    tenant + ":" + key
  }

  function TenantKey(request: Request): string {
    JoinedKey(request.payload.cell.tenant, request.key)
  }

  // ----- Sums

  function PowerTo(allocations: seq<Allocation>, resource: string): real {
    if allocations == [] then 0.0
    else
      PowerTo(allocations[..|allocations| - 1], resource) +
      (if allocations[|allocations| - 1].resource == resource then allocations[|allocations| - 1].power else 0.0)
  }

  function Power(allocations: seq<Allocation>): real {
    if allocations == [] then 0.0
    else Power(allocations[..|allocations| - 1]) + allocations[|allocations| - 1].power
  }

  predicate Counts(r: Reservation, cell: Cell, direction: Direction, scope: Scope) {
    Active(r.status) && SameCell(r.cell, cell, scope) && r.direction == direction
  }

  /** reserved_for_offer: what active reservations already hold of a resource in a product. */
  function Reserved(entries: seq<Entry>, resource: string, cell: Cell, direction: Direction, scope: Scope): real {
    if entries == [] then 0.0
    else
      var last := entries[|entries| - 1];
      Reserved(entries[..|entries| - 1], resource, cell, direction, scope) +
      (if Counts(last.reservation, cell, direction, scope) then PowerTo(last.allocations, resource) else 0.0)
  }

  function Free(entries: seq<Entry>, offer: Offer, direction: Direction, scope: Scope): real {
    Max(0.0, Capacity(offer, direction) - Reserved(entries, offer.resource, CellOf(offer), direction, scope))
  }

  // ----- Greedy allocation

  datatype Grant = Grant(allocations: seq<Allocation>, remaining: real)

  function Share(
      entries: seq<Entry>, offer: Offer, direction: Direction, scope: Scope, remaining: real): seq<Allocation> {
    var granted := Min(Free(entries, offer, direction, scope), remaining);
    if granted > 0.0 then [Allocation(offer.resource, granted, offer.baseline, offer.sourceVersion)] else []
  }

  function Allocate(
      entries: seq<Entry>, offers: seq<Offer>, direction: Direction, scope: Scope, remaining: real): Grant {
    if offers == [] then Grant([], remaining)
    else
      var head := Share(entries, offers[0], direction, scope, remaining);
      var rest := remaining - Power(head);
      if rest <= TOLERANCE then Grant(head, rest)
      else
        var tail := Allocate(entries, offers[1..], direction, scope, rest);
        Grant(head + tail.allocations, tail.remaining)
  }

  // ----- The transactions

  function ExpireEntry(e: Entry, now: Time): Entry {
    if e.reservation.status == CONFIRMED && e.reservation.expiresAt <= now
    then e.(reservation := e.reservation.(status := EXPIRED))
    else e
  }

  function ExpireEntries(entries: seq<Entry>, now: Time): seq<Entry> {
    if entries == [] then []
    else ExpireEntries(entries[..|entries| - 1], now) + [ExpireEntry(entries[|entries| - 1], now)]
  }

  function Expire(b: Book, now: Time): Book {
    b.(entries := ExpireEntries(b.entries, now))
  }

  /** The index of a reservation, or the number of entries when it is not there. */
  function IndexOf(entries: seq<Entry>, id: nat): (i: nat)
    ensures i <= |entries|
    ensures i < |entries| ==> entries[i].reservation.id == id
    ensures forall j :: 0 <= j < i ==> entries[j].reservation.id != id
  {
    if entries == [] then 0
    else if entries[0].reservation.id == id then 0
    else 1 + IndexOf(entries[1..], id)
  }

  function ParticipantsOf(offers: seq<Offer>): set<string> {
    set o | o in offers :: o.resource
  }

  datatype Reply =
    | Created(reservation: Reservation)
    | Replayed(reservation: Reservation)
    | InvalidRequest
    | KeyConflict
    | NotFound
    | BelowThreshold
    | NoCapacity(missing: real)
    | WrongState(status: ReservationStatus)
    | Answered(reservation: Reservation)
    | ActivatedAs(activation: Activation)

  datatype Result = Result(book: Book, reply: Reply)

  predicate ValidRequest(payload: Payload) {
    0.0 < payload.power <= MAX_POWER && payload.cell.start < payload.cell.end
  }

  /** A reservation must be activated before its interval starts, and within five minutes. */
  function Deadline(cell: Cell, now: Time): Time {
    if cell.start < now + CONFIRMATION_TIME then cell.start else now + CONFIRMATION_TIME
  }

  function NewReservation(
      payload: Payload, allocations: seq<Allocation>, participants: nat, now: Time, id: nat): Reservation {
    Reservation(id, payload.cell, payload.direction, payload.power, Power(allocations), participants, CONFIRMED, now,
                Deadline(payload.cell, now))
  }

  /** save_reservation: a new entry at the end, and its idempotency key. */
  function Record(
      b: Book, request: Request, allocations: seq<Allocation>, participants: nat, now: Time, id: nat): Result {
    var reservation := NewReservation(request.payload, allocations, participants, now, id);
    Result(b.(entries := b.entries + [Entry(reservation, allocations)],
              keys := b.keys[TenantKey(request) := Claim(request.payload, id)]),
           Created(reservation))
  }

  function Create(
      b: Book, request: Request, offers: seq<Offer>, minimum: nat, scope: Scope, now: Time, id: nat): Result {
    var payload := request.payload;
    if !ValidRequest(payload) then Result(b, InvalidRequest)
    else
      var e := Expire(b, now);
      if TenantKey(request) in e.keys then
        var claim := e.keys[TenantKey(request)];
        if claim.payload != payload then Result(e, KeyConflict)
        else if IndexOf(e.entries, claim.id) == |e.entries| then Result(e, NotFound)
        else Result(e, Replayed(e.entries[IndexOf(e.entries, claim.id)].reservation))
      else if |ParticipantsOf(offers)| < minimum then Result(e, BelowThreshold)
      else
        var grant := Allocate(e.entries, offers, payload.direction, scope, payload.power);
        if grant.remaining > TOLERANCE then Result(e, NoCapacity(grant.remaining))
        else Record(e, request, grant.allocations, |ParticipantsOf(offers)|, now, id)
  }

  function Get(b: Book, id: nat, now: Time): Result {
    var e := Expire(b, now);
    var i := IndexOf(e.entries, id);
    if i == |e.entries| then Result(e, NotFound) else Result(e, Answered(e.entries[i].reservation))
  }

  function Cancel(b: Book, id: nat, now: Time): Result {
    var e := Expire(b, now);
    var i := IndexOf(e.entries, id);
    if i == |e.entries| then Result(e, NotFound)
    else if e.entries[i].reservation.status != CONFIRMED then Result(e, WrongState(e.entries[i].reservation.status))
    else
      var cancelled := e.entries[i].reservation.(status := CANCELLED);
      Result(e.(entries := e.entries[i := e.entries[i].(reservation := cancelled)]), Answered(cancelled))
  }

  /** The allocations whose instruction, by position, was accepted. */
  function AcceptedOf(allocations: seq<Allocation>, accepted: set<nat>): (kept: seq<Allocation>)
    ensures |kept| <= |allocations|
  {
    if allocations == [] then []
    else
      AcceptedOf(allocations[..|allocations| - 1], accepted) +
      (if |allocations| - 1 in accepted then [allocations[|allocations| - 1]] else [])
  }

  /** Keep what was accepted of entry i and close its activation. */
  function Settle(b: Book, i: nat, accepted: set<nat>): Result
    requires i < |b.entries|
  {
    var allocations := b.entries[i].allocations;
    var kept := AcceptedOf(allocations, accepted);
    var rejected := |allocations| - |kept|;
    var reservation := b.entries[i].reservation.(
      status := if rejected != 0 then FAILED else COMPLETED,
      allocatedPower := Power(kept));
    var activation := Activation(if rejected != 0 then ActFailed else ActCompleted, |allocations|, |kept|, rejected);
    Result(b.(entries := b.entries[i := Entry(reservation, kept)],
              activations := b.activations[reservation.id := activation]),
           ActivatedAs(activation))
  }

  /** Mark entry i as activated, with every instruction still to be answered. */
  function Open(b: Book, i: nat): Result
    requires i < |b.entries|
  {
    var reservation := b.entries[i].reservation.(status := ACTIVATED);
    var activation := Activation(ActPending, |b.entries[i].allocations|, 0, 0);
    Result(b.(entries := b.entries[i := b.entries[i].(reservation := reservation)],
              activations := b.activations[reservation.id := activation]),
           ActivatedAs(activation))
  }

  /** The in-memory activation: instruct every resource at once and settle. */
  function Activate(b: Book, id: nat, accepted: set<nat>, now: Time): Result {
    if id in b.activations then Result(b, ActivatedAs(b.activations[id]))
    else
      var e := Expire(b, now);
      var i := IndexOf(e.entries, id);
      if i == |e.entries| then Result(e, NotFound)
      else if e.entries[i].reservation.status != CONFIRMED then Result(e, WrongState(e.entries[i].reservation.status))
      else Settle(e, i, accepted)
  }

  /** The durable activation only opens; the outbox settles it later. */
  function Begin(b: Book, id: nat, now: Time): Result {
    if id in b.activations then Result(b, ActivatedAs(b.activations[id]))
    else
      var e := Expire(b, now);
      var i := IndexOf(e.entries, id);
      if i == |e.entries| then Result(e, NotFound)
      else if e.entries[i].reservation.status != CONFIRMED then Result(e, WrongState(e.entries[i].reservation.status))
      else Open(e, i)
  }

  // ----- What the greedy loop grants

  predicate Positive(allocations: seq<Allocation>) {
    forall k :: 0 <= k < |allocations| ==> allocations[k].power > 0.0
  }

  predicate ResourcesDistinct(offers: seq<Offer>) {
    forall i, j :: 0 <= i < j < |offers| ==> offers[i].resource != offers[j].resource
  }

  function FreeTotal(entries: seq<Entry>, offers: seq<Offer>, direction: Direction, scope: Scope): real {
    if offers == [] then 0.0
    else FreeTotal(entries, offers[..|offers| - 1], direction, scope) + Free(entries, offers[|offers| - 1], direction, scope)
  }

  lemma {:induction false} FreeTotalHead(entries: seq<Entry>, offers: seq<Offer>, direction: Direction, scope: Scope)
    requires offers != []
    ensures FreeTotal(entries, offers, direction, scope)
         == Free(entries, offers[0], direction, scope) + FreeTotal(entries, offers[1..], direction, scope)
  {
    if |offers| > 1 {
      FreeTotalHead(entries, offers[..|offers| - 1], direction, scope);
      assert offers[1..][..|offers| - 2] == offers[..|offers| - 1][1..];
    }
  }

  lemma {:induction false} FreeTotalNonnegative(
      entries: seq<Entry>, offers: seq<Offer>, direction: Direction, scope: Scope)
    ensures FreeTotal(entries, offers, direction, scope) >= 0.0
  {
    if offers != [] {
      FreeTotalNonnegative(entries, offers[..|offers| - 1], direction, scope);
    }
  }

  lemma {:induction false} PowerAppend(x: seq<Allocation>, y: seq<Allocation>)
    ensures Power(x + y) == Power(x) + Power(y)
  {
    if y == [] {
      assert x + y == x;
    } else {
      PowerAppend(x, y[..|y| - 1]);
      assert (x + y)[..|x + y| - 1] == x + y[..|y| - 1];
    }
  }

  lemma {:induction false} PowerToAppend(x: seq<Allocation>, y: seq<Allocation>, resource: string)
    ensures PowerTo(x + y, resource) == PowerTo(x, resource) + PowerTo(y, resource)
  {
    if y == [] {
      assert x + y == x;
    } else {
      PowerToAppend(x, y[..|y| - 1], resource);
      assert (x + y)[..|x + y| - 1] == x + y[..|y| - 1];
    }
  }

  /** What is granted and what is missing add up to the request. */
  lemma {:induction false} AllocateConserves(
      entries: seq<Entry>, offers: seq<Offer>, direction: Direction, scope: Scope, remaining: real)
    requires remaining >= 0.0
    ensures var grant := Allocate(entries, offers, direction, scope, remaining);
            Power(grant.allocations) + grant.remaining == remaining && grant.remaining >= 0.0
  {
    if offers != [] {
      var head := Share(entries, offers[0], direction, scope, remaining);
      ShareIs(entries, offers[0], direction, scope, remaining);
      var rest := remaining - Power(head);
      if rest > TOLERANCE {
        AllocateConserves(entries, offers[1..], direction, scope, rest);
        PowerAppend(head, Allocate(entries, offers[1..], direction, scope, rest).allocations);
      }
    }
  }

  lemma {:induction false} AllocatePositive(
      entries: seq<Entry>, offers: seq<Offer>, direction: Direction, scope: Scope, remaining: real)
    ensures Positive(Allocate(entries, offers, direction, scope, remaining).allocations)
  {
    if offers != [] {
      var head := Share(entries, offers[0], direction, scope, remaining);
      var rest := remaining - Power(head);
      if rest > TOLERANCE {
        AllocatePositive(entries, offers[1..], direction, scope, rest);
      }
    }
  }

  /** The loop fails exactly when all that is free falls short of the request by more than the tolerance. */
  lemma {:induction false} AllocateRefuses(
      entries: seq<Entry>, offers: seq<Offer>, direction: Direction, scope: Scope, remaining: real)
    requires remaining >= 0.0
    ensures Allocate(entries, offers, direction, scope, remaining).remaining > TOLERANCE
       <==> FreeTotal(entries, offers, direction, scope) < remaining - TOLERANCE
  {
    if offers != [] {
      FreeTotalHead(entries, offers, direction, scope);
      FreeTotalNonnegative(entries, offers[1..], direction, scope);
      var head := Share(entries, offers[0], direction, scope, remaining);
      ShareIs(entries, offers[0], direction, scope, remaining);
      var rest := remaining - Power(head);
      if rest > TOLERANCE {
        AllocateRefuses(entries, offers[1..], direction, scope, rest);
      }
    }
  }

  lemma ShareIs(entries: seq<Entry>, offer: Offer, direction: Direction, scope: Scope, remaining: real)
    requires remaining >= 0.0
    ensures Power(Share(entries, offer, direction, scope, remaining)) == Min(Free(entries, offer, direction, scope), remaining)
  {
  }

  lemma ShareTo(
      entries: seq<Entry>, offer: Offer, direction: Direction, scope: Scope, remaining: real, resource: string)
    requires remaining >= 0.0
    ensures PowerTo(Share(entries, offer, direction, scope, remaining), resource)
         == if offer.resource == resource then Min(Free(entries, offer, direction, scope), remaining) else 0.0
  {
  }

  lemma AllocatePowerTo(
      entries: seq<Entry>, offers: seq<Offer>, direction: Direction, scope: Scope, remaining: real, resource: string, rest: real)
    requires remaining >= 0.0 && offers != []
    requires rest == remaining - Power(Share(entries, offers[0], direction, scope, remaining))
    ensures PowerTo(Allocate(entries, offers, direction, scope, remaining).allocations, resource) ==
              PowerTo(Share(entries, offers[0], direction, scope, remaining), resource) +
              (if rest <= TOLERANCE then 0.0
               else PowerTo(Allocate(entries, offers[1..], direction, scope, rest).allocations, resource))
  {
    if rest > TOLERANCE {
      PowerToAppend(Share(entries, offers[0], direction, scope, remaining),
                    Allocate(entries, offers[1..], direction, scope, rest).allocations, resource);
    }
  }

  /** A resource that made no offer gets nothing. */
  lemma {:induction false} AllocateOnlyOffered(
      entries: seq<Entry>, offers: seq<Offer>, direction: Direction, scope: Scope, remaining: real, resource: string)
    requires remaining >= 0.0 && forall i :: 0 <= i < |offers| ==> offers[i].resource != resource
    ensures PowerTo(Allocate(entries, offers, direction, scope, remaining).allocations, resource) == 0.0
  {
    if offers != [] {
      var rest := remaining - Power(Share(entries, offers[0], direction, scope, remaining));
      ShareIs(entries, offers[0], direction, scope, remaining);
      ShareTo(entries, offers[0], direction, scope, remaining, resource);
      AllocatePowerTo(entries, offers, direction, scope, remaining, resource, rest);
      AllocateOnlyOffered(entries, offers[1..], direction, scope, rest, resource);
    }
  }

  /** And one that made an offer gets at most what is free of it. */
  lemma {:induction false} AllocateWithinFree(
      entries: seq<Entry>, offers: seq<Offer>, direction: Direction, scope: Scope, remaining: real, k: nat)
    requires remaining >= 0.0 && ResourcesDistinct(offers) && k < |offers|
    ensures PowerTo(Allocate(entries, offers, direction, scope, remaining).allocations, offers[k].resource)
         <= Free(entries, offers[k], direction, scope)
  {
    var rest := remaining - Power(Share(entries, offers[0], direction, scope, remaining));
    ShareIs(entries, offers[0], direction, scope, remaining);
    ShareTo(entries, offers[0], direction, scope, remaining, offers[k].resource);
    AllocatePowerTo(entries, offers, direction, scope, remaining, offers[k].resource, rest);
    if k == 0 {
      AllocateOnlyOffered(entries, offers[1..], direction, scope, rest, offers[k].resource);
    } else {
      AllocateWithinFree(entries, offers[1..], direction, scope, rest, k - 1);
    }
  }

  /** A reservation of nothing: exactly when the request is within the tolerance and the first
      offer has nothing free. Its activation will have no instruction. */
  lemma EmptyReservationExactly(
      entries: seq<Entry>, offers: seq<Offer>, direction: Direction, scope: Scope, power: real)
    requires power > 0.0 && offers != []
    requires Allocate(entries, offers, direction, scope, power).remaining <= TOLERANCE
    ensures Allocate(entries, offers, direction, scope, power).allocations == [] <==>
              power <= TOLERANCE && Free(entries, offers[0], direction, scope) == 0.0
  {
    AllocateConserves(entries, offers, direction, scope, power);
    ShareIs(entries, offers[0], direction, scope, power);
  }
}
