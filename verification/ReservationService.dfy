/** The reservation service over the in-memory backend, as objects updated in place. Each
    operation is one transaction under the backend's lock; clocks, fresh identifiers and what
    the resources answer are parameters. */
module ReservationService {
  import opened Domain
  import opened Ledger
  import opened LedgerRuns
  import opened ResidualCapacity
  import opened Sequences
  import opened InMemoryOfferStore
  import OS = OfferStore
  import P = Publication

  type Offer = Domain.Offer

  class InMemoryReservationBackend {
    var entries: seq<Entry>
    var keys: map<string, Claim>
    var activations: map<nat, Activation>
    var publishedResiduals: map<Cell, P.Remembered>
    var suppressedPublicCells: set<Cell>

    ghost function Model(): Book
      reads this
    {
      Book(entries, keys, activations)
    }

    ghost function Residuals(): P.Residuals
      reads this
    {
      P.Residuals(publishedResiduals, suppressedPublicCells)
    }

    constructor ()
      ensures Model() == EMPTY_BOOK && Residuals() == P.Residuals(map[], {})
    {
      entries, keys, activations, publishedResiduals, suppressedPublicCells := [], map[], map[], map[], {};
    }

    method Expire(now: Time)
      modifies this`entries
      ensures Model() == Ledger.Expire(old(Model()), now)
    {
      ghost var before := entries;
      for i := 0 to |entries|
        invariant |entries| == |before|
        invariant forall k :: 0 <= k < i ==> entries[k] == ExpireEntry(before[k], now)
        invariant forall k :: i <= k < |before| ==> entries[k] == before[k]
      {
        if entries[i].reservation.status == CONFIRMED && entries[i].reservation.expiresAt <= now {
          entries := entries[i := entries[i].(reservation := entries[i].reservation.(status := EXPIRED))];
        }
      }
      ExpireEntriesAre(before, now);
      assert entries == ExpireEntries(before, now);
    }

    method ReservedForOffer(offer: Offer, direction: Direction) returns (total: real)
      ensures total == Reserved(entries, offer.resource, CellOf(offer), direction, AllTenants)
    {
      total := 0.0;
      for i := 0 to |entries|
        invariant total == Reserved(entries[..i], offer.resource, CellOf(offer), direction, AllTenants)
      {
        InitOf(entries, i);
        var reservation := entries[i].reservation;
        if Active(reservation.status) {
          if SameCell(reservation.cell, CellOf(offer), AllTenants) && reservation.direction == direction {
            var allocations, sum := entries[i].allocations, 0.0;
            for j := 0 to |allocations|
              invariant sum == PowerTo(allocations[..j], offer.resource)
            {
              InitOf(allocations, j);
              if allocations[j].resource == offer.resource {
                sum := sum + allocations[j].power;
              }
            }
            assert allocations[..|allocations|] == allocations;
            total := total + sum;
          }
        }
      }
      assert entries[..|entries|] == entries;
    }

    method ListActive() returns (reservations: seq<Reservation>)
      ensures reservations == ActiveReservations(entries)
    {
      reservations := [];
      for i := 0 to |entries|
        invariant reservations == ActiveReservations(entries[..i])
      {
        InitOf(entries, i);
        if Active(entries[i].reservation.status) {
          reservations := reservations + [entries[i].reservation];
        }
      }
      assert entries[..|entries|] == entries;
    }
  }

  /** What the loop has granted so far and what it would still grant make up the whole grant. */
  ghost predicate Granting(
      entries: seq<Entry>, offers: seq<Offer>, direction: Direction, power: real,
      k: nat, allocations: seq<Allocation>, remaining: real)
    requires k <= |offers|
  {
    var rest := Allocate(entries, offers[k..], direction, AllTenants, remaining);
    Allocate(entries, offers, direction, AllTenants, power) == Grant(allocations + rest.allocations, rest.remaining)
  }

  lemma AllocateUnfolds(
      entries: seq<Entry>, offers: seq<Offer>, direction: Direction, k: nat, remaining: real,
      share: seq<Allocation>, left: real)
    requires k < |offers| && share == Share(entries, offers[k], direction, AllTenants, remaining)
    requires left == remaining - Power(share)
    ensures Allocate(entries, offers[k..], direction, AllTenants, remaining) ==
              if left <= TOLERANCE then Grant(share, left)
              else
                var rest := Allocate(entries, offers[k + 1..], direction, AllTenants, left);
                Grant(share + rest.allocations, rest.remaining)
  {
    assert offers[k..][0] == offers[k] && offers[k..][1..] == offers[k + 1..];
  }

  lemma GrantLast(
      entries: seq<Entry>, offers: seq<Offer>, direction: Direction, power: real,
      k: nat, allocations: seq<Allocation>, remaining: real, share: seq<Allocation>, left: real)
    requires k < |offers| && Granting(entries, offers, direction, power, k, allocations, remaining)
    requires share == Share(entries, offers[k], direction, AllTenants, remaining) && left == remaining - Power(share)
    requires left <= TOLERANCE
    ensures Allocate(entries, offers, direction, AllTenants, power) == Grant(allocations + share, left)
  {
    AllocateUnfolds(entries, offers, direction, k, remaining, share, left);
  }

  lemma GrantNext(
      entries: seq<Entry>, offers: seq<Offer>, direction: Direction, power: real,
      k: nat, allocations: seq<Allocation>, remaining: real, share: seq<Allocation>, left: real)
    requires k < |offers| && Granting(entries, offers, direction, power, k, allocations, remaining)
    requires share == Share(entries, offers[k], direction, AllTenants, remaining) && left == remaining - Power(share)
    requires left > TOLERANCE
    ensures Granting(entries, offers, direction, power, k + 1, allocations + share, left)
  {
    AllocateUnfolds(entries, offers, direction, k, remaining, share, left);
    var rest := Allocate(entries, offers[k + 1..], direction, AllTenants, left).allocations;
    assert allocations + (share + rest) == allocations + share + rest;
  }

  lemma PowerOfOne(allocation: Allocation)
    ensures Power([allocation]) == allocation.power && Power([]) == 0.0
  {
    assert [allocation][..0] == [];
  }

  lemma PowerOfShare(
      entries: seq<Entry>, offer: Offer, direction: Direction, remaining: real, reserved: real, granted: real)
    requires reserved == Reserved(entries, offer.resource, CellOf(offer), direction, AllTenants)
    requires granted == Min(Max(0.0, Capacity(offer, direction) - reserved), remaining)
    ensures Share(entries, offer, direction, AllTenants, remaining) ==
              if granted > 0.0 then [Allocation(offer.resource, granted, offer.baseline, offer.sourceVersion)] else []
    ensures Power(Share(entries, offer, direction, AllTenants, remaining)) == if granted > 0.0 then granted else 0.0
  {
    PowerOfOne(Allocation(offer.resource, granted, offer.baseline, offer.sourceVersion));
  }

  /** A creation that passes every check records what the loop granted. */
  lemma RecordedIs(
      b: Book, request: Request, offers: seq<Offer>, minimum: nat, now: Time, id: nat,
      allocations: seq<Allocation>, remaining: real)
    requires ValidRequest(request.payload) && TenantKey(request) !in b.keys && |ParticipantsOf(offers)| >= minimum
    requires Grant(allocations, remaining) ==
               Allocate(Ledger.Expire(b, now).entries, offers, request.payload.direction, AllTenants, request.payload.power)
    requires remaining <= TOLERANCE
    ensures Ledger.Create(b, request, offers, minimum, AllTenants, now, id) ==
              Record(Ledger.Expire(b, now), request, allocations, |ParticipantsOf(offers)|, now, id)
  {
  }

  class ReservationService {
    const store: InMemoryOfferStore
    const backend: InMemoryReservationBackend

    constructor (store: InMemoryOfferStore, backend: InMemoryReservationBackend)
      ensures this.store == store && this.backend == backend
    {
      this.store, this.backend := store, backend;
    }

    /** The greedy loop: offers in the order of their resource identifiers until the request is met. */
    method Distribute(offers: seq<Offer>, direction: Direction, power: real)
        returns (allocations: seq<Allocation>, remaining: real)
      ensures Grant(allocations, remaining) == Allocate(backend.entries, offers, direction, AllTenants, power)
    {
      allocations, remaining := [], power;
      assert offers[0..] == offers;
      for i := 0 to |offers|
        invariant Granting(backend.entries, offers, direction, power, i, allocations, remaining)
      {
        var reserved := backend.ReservedForOffer(offers[i], direction);
        var granted := Min(Max(0.0, Capacity(offers[i], direction) - reserved), remaining);
        ghost var share := Share(backend.entries, offers[i], direction, AllTenants, remaining);
        PowerOfShare(backend.entries, offers[i], direction, remaining, reserved, granted);
        ghost var left := remaining - Power(share);
        if left <= TOLERANCE {
          GrantLast(backend.entries, offers, direction, power, i, allocations, remaining, share, left);
        } else {
          GrantNext(backend.entries, offers, direction, power, i, allocations, remaining, share, left);
        }
        if granted > 0.0 {
          allocations := allocations + [Allocation(offers[i].resource, granted, offers[i].baseline, offers[i].sourceVersion)];
          remaining := remaining - granted;
        } else {
          assert allocations + [] == allocations;
        }
        if remaining <= TOLERANCE {
          return;
        }
      }
      assert offers[|offers|..] == [];
    }

    method Create(request: Request, now: Time, id: nat) returns (reply: Reply)
      modifies backend
      ensures Result(backend.Model(), reply)
           == Ledger.Create(old(backend.Model()), request, OS.Eligible(store.Model(), request.payload.cell, now),
                            store.minimumParticipants, AllTenants, now, id)
      ensures backend.Residuals() == old(backend.Residuals())
    {
      var payload, key := request.payload, TenantKey(request);
      if !ValidRequest(payload) {
        return InvalidRequest;
      }
      backend.Expire(now);
      if key in backend.keys {
        var claim := backend.keys[key];
        if claim.payload != payload {
          return KeyConflict;
        }
        var i := IndexOf(backend.entries, claim.id);
        if i == |backend.entries| {
          return NotFound;
        }
        return Replayed(backend.entries[i].reservation);
      }
      var offers := store.EligibleOffers(payload.cell, now);
      if |ParticipantsOf(offers)| < store.minimumParticipants {
        return BelowThreshold;
      }
      var allocations, remaining := Distribute(offers, payload.direction, payload.power);
      if remaining > TOLERANCE {
        return NoCapacity(remaining);
      }
      var reservation := NewReservation(payload, allocations, |ParticipantsOf(offers)|, now, id);
      backend.entries := backend.entries + [Entry(reservation, allocations)];
      backend.keys := backend.keys[key := Claim(payload, id)];
      RecordedIs(old(backend.Model()), request, offers, store.minimumParticipants, now, id, allocations, remaining);
      return Created(reservation);
    }

    method Get(id: nat, now: Time) returns (reply: Reply)
      modifies backend
      ensures Result(backend.Model(), reply) == Ledger.Get(old(backend.Model()), id, now)
      ensures backend.Residuals() == old(backend.Residuals())
    {
      backend.Expire(now);
      var i := IndexOf(backend.entries, id);
      if i == |backend.entries| {
        return NotFound;
      }
      return Answered(backend.entries[i].reservation);
    }

    method Cancel(id: nat, now: Time) returns (reply: Reply)
      modifies backend
      ensures Result(backend.Model(), reply) == Ledger.Cancel(old(backend.Model()), id, now)
      ensures backend.Residuals() == old(backend.Residuals())
    {
      backend.Expire(now);
      var i := IndexOf(backend.entries, id);
      if i == |backend.entries| {
        return NotFound;
      }
      var reservation := backend.entries[i].reservation;
      if reservation.status != CONFIRMED {
        return WrongState(reservation.status);
      }
      var cancelled := reservation.(status := CANCELLED);
      backend.entries := backend.entries[i := backend.entries[i].(reservation := cancelled)];
      return Answered(cancelled);
    }

    /** Instruct the resources of a reservation one after the other and keep what was accepted. */
    method Activate(id: nat, accepted: set<nat>, now: Time) returns (reply: Reply)
      modifies backend
      ensures Result(backend.Model(), reply) == Ledger.Activate(old(backend.Model()), id, accepted, now)
      ensures backend.Residuals() == old(backend.Residuals())
    {
      if id in backend.activations {
        return ActivatedAs(backend.activations[id]);
      }
      backend.Expire(now);
      var i := IndexOf(backend.entries, id);
      if i == |backend.entries| {
        return NotFound;
      }
      var reservation, allocations := backend.entries[i].reservation, backend.entries[i].allocations;
      if reservation.status != CONFIRMED {
        return WrongState(reservation.status);
      }
      ghost var before := backend.Model();
      ghost var residuals := backend.Residuals();
      var kept, sum := [], 0.0;
      for k := 0 to |allocations|
        invariant backend.Model() == before && backend.Residuals() == residuals
        invariant kept == AcceptedOf(allocations[..k], accepted) && sum == Power(kept)
      {
        InitOf(allocations, k);
        if k in accepted {
          PowerAppend(kept, [allocations[k]]);
          PowerOfOne(allocations[k]);
          kept, sum := kept + [allocations[k]], sum + allocations[k].power;
        }
      }
      assert allocations[..|allocations|] == allocations;
      var rejected := |allocations| - |kept|;
      var activation := Activation(if rejected != 0 then ActFailed else ActCompleted, |allocations|, |kept|, rejected);
      var updated := reservation.(status := if rejected != 0 then FAILED else COMPLETED, allocatedPower := sum);
      backend.entries := backend.entries[i := Entry(updated, kept)];
      backend.activations := backend.activations[id := activation];
      return ActivatedAs(activation);
    }

    /** One aggregate's numbers, less what is reserved of its product. */
    method ResidualNumbers(aggregate: Aggregate, reservations: seq<Reservation>) returns (numbers: Numbers)
      ensures numbers == P.Residual(aggregate.numbers, aggregate.cell, reservations)
    {
      var cell, upward, downward := aggregate.cell, 0.0, 0.0;
      for j := 0 to |reservations|
        invariant upward == P.ReservedPower(reservations[..j], cell, UPWARD)
        invariant downward == P.ReservedPower(reservations[..j], cell, DOWNWARD)
      {
        InitOf(reservations, j);
        if reservations[j].cell == cell {
          if reservations[j].direction == UPWARD {
            upward := upward + reservations[j].allocatedPower;
          } else {
            downward := downward + reservations[j].allocatedPower;
          }
        }
      }
      assert reservations[..|reservations|] == reservations;
      numbers := P.LessReserved(aggregate.numbers, cell, upward, downward);
    }

    method ApplyResidualCapacity(aggregates: seq<Aggregate>, reservations: seq<Reservation>)
        returns (adjusted: seq<Aggregate>)
      ensures |adjusted| == |aggregates|
      ensures forall i :: 0 <= i < |aggregates| ==>
                adjusted[i] == aggregates[i].(numbers := P.Residual(aggregates[i].numbers, aggregates[i].cell, reservations))
    {
      adjusted := [];
      for i := 0 to |aggregates|
        invariant |adjusted| == i
        invariant forall k :: 0 <= k < i ==>
                    adjusted[k] == aggregates[k].(numbers := P.Residual(aggregates[k].numbers, aggregates[k].cell, reservations))
      {
        var numbers := ResidualNumbers(aggregates[i], reservations);
        adjusted := adjusted + [aggregates[i].(numbers := numbers)];
      }
    }

    /** Publish what a residual was first published as, or suppress the cell for ever. */
    method PublicResidualCapacity(aggregates: seq<Aggregate>, now: Time) returns (published: seq<Aggregate>)
      modifies backend
      ensures backend.Model() == Ledger.Expire(old(backend.Model()), now)
      ensures P.Adjusted(backend.Residuals(), published)
           == P.AdjustAll(old(backend.Residuals()), aggregates, ActiveReservations(backend.entries))
    {
      backend.Expire(now);
      ghost var book, start := backend.Model(), backend.Residuals();
      var reservations := backend.ListActive();
      var adjusted := ApplyResidualCapacity(aggregates, reservations);
      published := [];
      for i := 0 to |adjusted|
        invariant backend.Model() == book
        invariant P.Adjusted(backend.Residuals(), published) == P.AdjustAll(start, aggregates[..i], reservations)
      {
        InitOf(aggregates, i);
        var cell, residual := adjusted[i].cell, P.Remember(adjusted[i].numbers);
        if cell in backend.publishedResiduals && backend.publishedResiduals[cell] != residual {
          backend.suppressedPublicCells := backend.suppressedPublicCells + {cell};
        }
        if cell !in backend.suppressedPublicCells {
          backend.publishedResiduals := backend.publishedResiduals[cell := residual];
          published := published + [adjusted[i]];
        }
      }
      assert aggregates[..|aggregates|] == aggregates;
    }
  }
}
