/** The advertised residual against what a reservation can get: publication subtracts the
    reservations of a product from the aggregate, while a reservation draws on what is free
    of each offer (src/der_flex/reservations/service.py:152-175 and 385-424). */
module ResidualCapacity {
  import opened Domain
  import opened Rounding
  import opened Ledger
  import opened LedgerRuns
  import OS = OfferStore
  import P = Publication
  import PublishedNumbers
  import SF = SampleFleet
  import opened LedgerExamples

  type Offer = Domain.Offer

  function ActiveReservations(entries: seq<Entry>): seq<Reservation> {
    if entries == [] then []
    else
      var last := entries[|entries| - 1].reservation;
      ActiveReservations(entries[..|entries| - 1]) + (if Active(last.status) then [last] else [])
  }

  function CapacityTotal(offers: seq<Offer>, direction: Direction): real {
    if offers == [] then 0.0
    else CapacityTotal(offers[..|offers| - 1], direction) + Capacity(offers[|offers| - 1], direction)
  }

  /** What publication leaves of an aggregate, before it rounds. */
  function AggregateResidual(entries: seq<Entry>, offers: seq<Offer>, cell: Cell, direction: Direction): real {
    Max(0.0, CapacityTotal(offers, direction) - P.ReservedPower(ActiveReservations(entries), cell, direction))
  }

  // ----- Sums over reservations against sums over resources

  function PowerToOffers(allocations: seq<Allocation>, offers: seq<Offer>): real {
    if offers == [] then 0.0
    else PowerToOffers(allocations, offers[..|offers| - 1]) + PowerTo(allocations, offers[|offers| - 1].resource)
  }

  function ReservedOfOffers(
      entries: seq<Entry>, offers: seq<Offer>, cell: Cell, direction: Direction, scope: Scope): real {
    if offers == [] then 0.0
    else
      ReservedOfOffers(entries, offers[..|offers| - 1], cell, direction, scope) +
      Reserved(entries, offers[|offers| - 1].resource, cell, direction, scope)
  }

  predicate Offered(offers: seq<Offer>, resource: string) {
    exists k :: 0 <= k < |offers| && offers[k].resource == resource
  }

  /** Of distinct resources, at most one takes a given allocation. */
  lemma {:induction false} LastAllocation(allocations: seq<Allocation>, offers: seq<Offer>)
    requires allocations != [] && ResourcesDistinct(offers)
    ensures var last := allocations[|allocations| - 1];
            PowerToOffers(allocations, offers) ==
              PowerToOffers(allocations[..|allocations| - 1], offers) +
              (if Offered(offers, last.resource) then last.power else 0.0)
  {
    if offers != [] {
      var init, last := offers[..|offers| - 1], offers[|offers| - 1];
      LastAllocation(allocations, init);
      var resource := allocations[|allocations| - 1].resource;
      assert Offered(offers, resource) <==> Offered(init, resource) || last.resource == resource by {
        if Offered(offers, resource) && last.resource != resource {
          var k :| 0 <= k < |offers| && offers[k].resource == resource;
          assert init[k].resource == resource;
        }
        if Offered(init, resource) {
          var k :| 0 <= k < |init| && init[k].resource == resource;
          assert offers[k].resource == resource;
        }
        assert offers[|offers| - 1] == last;
      }
    }
  }

  lemma {:induction false} NoAllocations(offers: seq<Offer>)
    ensures PowerToOffers([], offers) == 0.0
  {
    if offers != [] {
      NoAllocations(offers[..|offers| - 1]);
    }
  }

  lemma {:induction false} OffersTakeAtMostAll(allocations: seq<Allocation>, offers: seq<Offer>)
    requires Positive(allocations) && ResourcesDistinct(offers)
    ensures PowerToOffers(allocations, offers) <= Power(allocations)
  {
    if allocations == [] {
      NoAllocations(offers);
    } else {
      LastAllocation(allocations, offers);
      OffersTakeAtMostAll(allocations[..|allocations| - 1], offers);
    }
  }

  lemma {:induction false} LastEntry(
      entries: seq<Entry>, offers: seq<Offer>, cell: Cell, direction: Direction, scope: Scope)
    requires entries != []
    ensures var last := entries[|entries| - 1];
            ReservedOfOffers(entries, offers, cell, direction, scope) ==
              ReservedOfOffers(entries[..|entries| - 1], offers, cell, direction, scope) +
              (if Counts(last.reservation, cell, direction, scope) then PowerToOffers(last.allocations, offers) else 0.0)
  {
    if offers != [] {
      LastEntry(entries, offers[..|offers| - 1], cell, direction, scope);
    }
  }

  lemma {:induction false} NoEntries(offers: seq<Offer>, cell: Cell, direction: Direction, scope: Scope)
    ensures ReservedOfOffers([], offers, cell, direction, scope) == 0.0
  {
    if offers != [] {
      NoEntries(offers[..|offers| - 1], cell, direction, scope);
    }
  }

  lemma ActiveAppend(entries: seq<Entry>, cell: Cell, direction: Direction)
    requires entries != []
    ensures var last := entries[|entries| - 1].reservation;
            P.ReservedPower(ActiveReservations(entries), cell, direction) ==
              P.ReservedPower(ActiveReservations(entries[..|entries| - 1]), cell, direction) +
              (if Counts(last, cell, direction, ByTenant) then last.allocatedPower else 0.0)
  {
    var init, last := ActiveReservations(entries[..|entries| - 1]), entries[|entries| - 1].reservation;
    if Active(last.status) {
      assert (init + [last])[..|init|] == init;
    } else {
      assert init + [] == init;
    }
  }

  predicate PowersAgree(entries: seq<Entry>) {
    forall i :: 0 <= i < |entries| ==>
      Positive(entries[i].allocations) && entries[i].reservation.allocatedPower == Power(entries[i].allocations)
  }

  /** The offers' resources hold no more than the reservations of the product were allocated. */
  lemma {:induction false} ReservedOfOffersAtMostAll(
      entries: seq<Entry>, offers: seq<Offer>, cell: Cell, direction: Direction)
    requires PowersAgree(entries) && ResourcesDistinct(offers)
    ensures ReservedOfOffers(entries, offers, cell, direction, ByTenant)
         <= P.ReservedPower(ActiveReservations(entries), cell, direction)
  {
    if entries == [] {
      NoEntries(offers, cell, direction, ByTenant);
    } else {
      ReservedOfOffersAtMostAll(entries[..|entries| - 1], offers, cell, direction);
      LastEntry(entries, offers, cell, direction, ByTenant);
      ActiveAppend(entries, cell, direction);
      OffersTakeAtMostAll(entries[|entries| - 1].allocations, offers);
    }
  }

  lemma {:induction false} FreeAtLeastLeft(
      entries: seq<Entry>, offers: seq<Offer>, cell: Cell, direction: Direction, scope: Scope)
    requires forall i :: 0 <= i < |offers| ==> CellOf(offers[i]) == cell
    ensures FreeTotal(entries, offers, direction, scope)
         >= CapacityTotal(offers, direction) - ReservedOfOffers(entries, offers, cell, direction, scope)
  {
    if offers != [] {
      FreeAtLeastLeft(entries, offers[..|offers| - 1], cell, direction, scope);
    }
  }

  /** The aggregate residual never exceeds what is free of the offers one by one. */
  lemma ResidualIsFree(entries: seq<Entry>, offers: seq<Offer>, cell: Cell, direction: Direction)
    requires PowersAgree(entries) && ResourcesDistinct(offers)
    requires forall i :: 0 <= i < |offers| ==> CellOf(offers[i]) == cell
    ensures AggregateResidual(entries, offers, cell, direction) <= FreeTotal(entries, offers, direction, ByTenant)
  {
    ReservedOfOffersAtMostAll(entries, offers, cell, direction);
    FreeAtLeastLeft(entries, offers, cell, direction, ByTenant);
    FreeTotalNonnegative(entries, offers, direction, ByTenant);
  }

  // ----- Refusal

  /** A creation that gets as far as the offers is refused for capacity exactly when all that is
      free of them falls short of the request by more than the tolerance. */
  lemma CreateRefusesExactly(
      b: Book, request: Request, offers: seq<Offer>, minimum: nat, scope: Scope, now: Time, id: nat)
    requires ValidRequest(request.payload) && TenantKey(request) !in b.keys && |ParticipantsOf(offers)| >= minimum
    ensures var free := FreeTotal(Expire(b, now).entries, offers, request.payload.direction, scope);
            var reply := Create(b, request, offers, minimum, scope, now, id).reply;
            && (reply.NoCapacity? <==> free < request.payload.power - TOLERANCE)
            && (reply.Created? <==> free >= request.payload.power - TOLERANCE)
  {
    AllocateRefuses(Expire(b, now).entries, offers, request.payload.direction, scope, request.payload.power);
  }

  // ----- From the store's query to the reservation

  lemma {:induction false} InsertAddsCapacity(offers: seq<Offer>, offer: Offer, direction: Direction)
    ensures CapacityTotal(OS.InsertByResource(offers, offer), direction) == CapacityTotal(offers, direction) + Capacity(offer, direction)
  {
    var after := OS.InsertByResource(offers, offer);
    if offers == [] {
      assert after[..0] == [];
    } else {
      var init := offers[..|offers| - 1];
      InsertAddsCapacity(init, offer, direction);
      assert after[..|after| - 1] == offers || after[..|after| - 1] == OS.InsertByResource(init, offer);
      if after == offers + [offer] {
        assert after[..|after| - 1] == offers;
      } else {
        assert after[..|after| - 1] == OS.InsertByResource(init, offer);
      }
    }
  }

  lemma {:induction false} SortKeepsCapacity(offers: seq<Offer>, direction: Direction)
    ensures CapacityTotal(OS.ByResource(offers), direction) == CapacityTotal(offers, direction)
  {
    if offers != [] {
      var init := offers[..|offers| - 1];
      SortKeepsCapacity(init, direction);
      InsertAddsCapacity(OS.ByResource(init), offers[|offers| - 1], direction);
    }
  }

  function QuantityOf(direction: Direction): OS.Quantity {
    if direction == UPWARD then OS.Up else OS.Down
  }

  lemma {:induction false} SumIsCapacity(offers: seq<Offer>, direction: Direction)
    ensures OS.Sum(offers, QuantityOf(direction)) == CapacityTotal(offers, direction)
  {
    if offers != [] {
      SumIsCapacity(offers[..|offers| - 1], direction);
    }
  }

  function Published(numbers: Numbers, direction: Direction): real {
    if direction == UPWARD then numbers.up else numbers.down
  }

  /** The numbers a cell would be published with: query, residual stage, privacy policy. */
  function PublicNumbers(s: OS.Store, entries: seq<Entry>, cell: Cell, now: Time, policy: P.Policy): Numbers
    requires P.ValidPolicy(policy) && OS.LiveIn(s.offers, cell, now) != []
  {
    var numbers := OS.NumbersOf(OS.LiveIn(s.offers, cell, now));
    var residual := P.Residual(numbers, cell, ActiveReservations(entries));
    P.Sanitize(policy, Aggregate(cell, residual, now), now).numbers
  }

  /** Rounding and flooring publish at most a millionth, and half a billionth, too much. */
  lemma PublishedAtMostResidual(
      s: OS.Store, entries: seq<Entry>, cell: Cell, now: Time, policy: P.Policy, direction: Direction)
    requires P.ValidPolicy(policy) && OS.LiveIn(s.offers, cell, now) != []
    ensures Published(PublicNumbers(s, entries, cell, now, policy), direction)
         <= AggregateResidual(entries, OS.Eligible(s, cell, now), cell, direction) + 0.000001 + 0.000000000501
  {
    var live := OS.LiveIn(s.offers, cell, now);
    var reserved := P.ReservedPower(ActiveReservations(entries), cell, direction);
    var total := OS.Sum(live, QuantityOf(direction));
    SumIsCapacity(live, direction);
    SortKeepsCapacity(live, direction);
    Round6Error(total);
    Round6Error(Max(0.0, Round6(total) - reserved));
    PublishedNumbers.FloorToBounds(P.Left(Round6(total), reserved), policy.powerResolution);
  }

  lemma BookPowersAgree(b: Book)
    requires BookInv(b)
    ensures PowersAgree(b.entries)
  {
    forall i | 0 <= i < |b.entries|
      ensures Positive(b.entries[i].allocations) && b.entries[i].reservation.allocatedPower == Power(b.entries[i].allocations)
    {
      assert EntryValid(b.entries[i]);
    }
  }

  lemma EligibleParticipants(s: OS.Store, cell: Cell, now: Time)
    requires OS.Valid(s)
    ensures ParticipantsOf(OS.Eligible(s, cell, now)) == OS.CohortOf(OS.LiveIn(s.offers, cell, now))
  {
    LiveResourcesDistinct(s.offers, cell, now);
    SortKeepsDistinct(OS.LiveIn(s.offers, cell, now));
  }

  /** No other tenant reserved in a product that is the cell's but for the tenant. */
  predicate OneTenant(entries: seq<Entry>, cell: Cell, direction: Direction) {
    forall i :: 0 <= i < |entries| && Counts(entries[i].reservation, cell, direction, AllTenants) ==>
      entries[i].reservation.cell.tenant == cell.tenant
  }

  lemma {:induction false} ScopesAgree(entries: seq<Entry>, resource: string, cell: Cell, direction: Direction)
    requires OneTenant(entries, cell, direction)
    ensures Reserved(entries, resource, cell, direction, AllTenants) == Reserved(entries, resource, cell, direction, ByTenant)
  {
    if entries != [] {
      ScopesAgree(entries[..|entries| - 1], resource, cell, direction);
    }
  }

  lemma {:induction false} FreeScopesAgree(entries: seq<Entry>, offers: seq<Offer>, cell: Cell, direction: Direction)
    requires OneTenant(entries, cell, direction)
    requires forall i :: 0 <= i < |offers| ==> CellOf(offers[i]) == cell
    ensures FreeTotal(entries, offers, direction, AllTenants) == FreeTotal(entries, offers, direction, ByTenant)
  {
    if offers != [] {
      FreeScopesAgree(entries, offers[..|offers| - 1], cell, direction);
      ScopesAgree(entries, offers[|offers| - 1].resource, cell, direction);
    }
  }

  /** The advertised residual is reservable: a first request for up to a millionth of a kilowatt
      less than the published number is never refused, provided the backend counts reserved power
      by tenant as publication does, or no other tenant reserved. */
  lemma AdvertisedIsReservable(
      b: Book, s: OS.Store, request: Request, minimum: nat, now: Time, id: nat, policy: P.Policy, scope: Scope)
    requires BookInv(b) && OS.Valid(s) && P.ValidPolicy(policy)
    requires ValidRequest(request.payload) && TenantKey(request) !in b.keys
    requires var live := OS.LiveIn(s.offers, request.payload.cell, now);
             live != [] && |OS.CohortOf(live)| >= minimum
    requires var payload := request.payload;
             payload.power <=
               Published(PublicNumbers(s, Expire(b, now).entries, payload.cell, now, policy), payload.direction) - 0.000001
    requires scope == ByTenant || OneTenant(Expire(b, now).entries, request.payload.cell, request.payload.direction)
    ensures Create(b, request, OS.Eligible(s, request.payload.cell, now), minimum, scope, now, id).reply.Created?
  {
    var payload, e := request.payload, Expire(b, now);
    var offers := OS.Eligible(s, payload.cell, now);
    ExpireKeeps(b, now);
    BookPowersAgree(e);
    EligibleOnePerResource(s, payload.cell, now);
    EligibleParticipants(s, payload.cell, now);
    forall i | 0 <= i < |offers|
      ensures CellOf(offers[i]) == payload.cell
    {
      assert offers[i] in offers;
    }
    ResidualIsFree(e.entries, offers, payload.cell, payload.direction);
    PublishedAtMostResidual(s, e.entries, payload.cell, now, policy, payload.direction);
    if scope == AllTenants {
      FreeScopesAgree(e.entries, offers, payload.cell, payload.direction);
    }
    CreateRefusesExactly(b, request, offers, minimum, scope, now, id);
  }

  // ----- Where the published number is not reservable

  /** The policy's default values. */
  const DEFAULT := P.Policy(10, 1.0, 0.25, 0.05, 5)

  function Times(n: nat, x: real): real {
    if n == 0 then 0.0 else Times(n - 1, x) + x
  }

  lemma TenTimes(x: real)
    ensures Times(10, x) == 10.0 * x
  {
    var two := Times(0, x) + x + x;
    assert two == Times(1, x) + x == Times(2, x);
    var four := Times(2, x) + x + x;
    assert four == Times(3, x) + x == Times(4, x);
    var six := Times(4, x) + x + x;
    assert six == Times(5, x) + x == Times(6, x);
    var eight := Times(6, x) + x + x;
    assert eight == Times(7, x) + x == Times(8, x);
    assert eight + x + x == Times(9, x) + x == Times(10, x);
  }

  lemma {:induction false} FleetSum(tenant: string, n: nat, up: real)
    ensures CapacityTotal(SF.Fleet(tenant, n, up), UPWARD) == Times(n, up)
  {
    if n > 0 {
      FleetSum(tenant, n - 1, up);
      SF.FleetIs(tenant, n, up);
      assert SF.Fleet(tenant, n, up)[..n - 1] == SF.Fleet(tenant, n - 1, up);
    }
  }

  /** What no reservation holds is free. */
  lemma {:induction false} UnreservedIsFree(entries: seq<Entry>, tenant: string, n: nat, up: real, scope: Scope)
    requires up >= 0.0
    requires forall i :: 1 <= i <= n ==> Reserved(entries, SF.Name(i), SF.CellAt(tenant), UPWARD, scope) == 0.0
    ensures FreeTotal(entries, SF.Fleet(tenant, n, up), UPWARD, scope) == Times(n, up)
  {
    if n > 0 {
      UnreservedIsFree(entries, tenant, n - 1, up, scope);
      SF.FleetIs(tenant, n, up);
      assert SF.Fleet(tenant, n, up)[..n - 1] == SF.Fleet(tenant, n - 1, up);
    }
  }

  /** Ten tenths of a sum that rounds to ten, of which nothing is reserved, are published as ten. */
  lemma TenArePublished(s: OS.Store, entries: seq<Entry>, tenant: string, up: real)
    requires up == 1.0 || up == 0.99999996
    requires OS.LiveIn(s.offers, SF.CellAt(tenant), 0) == SF.Fleet(tenant, 10, up)
    requires P.ReservedPower(ActiveReservations(entries), SF.CellAt(tenant), UPWARD) == 0.0
    ensures SF.Fleet(tenant, 10, up) != []
    ensures P.EligibleToPublish(DEFAULT, Aggregate(SF.CellAt(tenant), OS.NumbersOf(SF.Fleet(tenant, 10, up)), 0))
    ensures Published(PublicNumbers(s, entries, SF.CellAt(tenant), 0, DEFAULT), UPWARD) == 10.0
  {
    var fleet := SF.Fleet(tenant, 10, up);
    SF.FleetIs(tenant, 10, up);
    SF.FleetCohort(tenant, 10, up);
    FleetSum(tenant, 10, up);
    TenTimes(up);
    SumIsCapacity(fleet, UPWARD);
    TenIsTen(OS.Sum(fleet, OS.Up));
  }

  lemma TenIsTen(total: real)
    requires total == 10.0 || total == 9.9999996
    ensures P.FloorTo(P.Left(Round6(total), 0.0), 1.0) == 10.0
  {
    assert RoundHalfEven(total * 1000000.0) == 10000000;
    assert Round6(total) == 10.0;
    assert RoundHalfEven(10000000.0) == 10000000;
    assert P.Left(10.0, 0.0) == 10.0;
    assert (10.000000000001).Floor == 10;
    assert P.FloorMultiple(10.0 + 0.000000000001, 1.0) == 10.0;
    assert RoundHalfEven(10000000000.0) == 10000000000;
  }

  /** Rounding can publish more than there is: of ten offers that add up to 9.9999996 kW, 10 kW is
      published under the default policy, and a first request for it is refused. */
  lemma RoundedUpIsRefused(scope: Scope)
    ensures var s, cell := SF.FleetStore("a", 10, 0.99999996), SF.CellAt("a");
            var live := OS.LiveIn(s.offers, cell, 0);
            && OS.Valid(s) && live == SF.Fleet("a", 10, 0.99999996) && live != []
            && P.EligibleToPublish(DEFAULT, Aggregate(cell, OS.NumbersOf(live), 0))
            && Published(PublicNumbers(s, [], cell, 0, DEFAULT), UPWARD) == 10.0
            && Create(EMPTY_BOOK, FleetRequest("a", "key", 10.0), OS.Eligible(s, cell, 0), 10, scope, 0, 1).reply.NoCapacity?
  {
    var s, fleet := SF.FleetStore("a", 10, 0.99999996), SF.Fleet("a", 10, 0.99999996);
    SF.FleetStored("a", 10, 0.99999996, 0);
    TenArePublished(s, [], "a", 0.99999996);
    UnreservedIsFree([], "a", 10, 0.99999996, scope);
    TenTimes(0.99999996);
    FleetParticipants("a", 10, 0.99999996);
    CreateRefusesExactly(EMPTY_BOOK, FleetRequest("a", "key", 10.0), fleet, 10, scope, 0, 1);
  }

  // ----- Another tenant's reservation

  /** Tenant b reserves one kilowatt of ten, an hour before the interval. */
  function BlockingStep(): Step {
    FirstStep("b", "key", SF.TwoFleetStore("a", "b", 10, 1.0), 0)
  }

  function BlockedBook(): Book {
    FirstBook("b", "key", 0)
  }

  function BlockingEntry(): Entry {
    FirstEntry("b", "key", 0)
  }

  lemma BlockedIs(s: OS.Store, scope: Scope)
    requires Supplied(s, "b", 0)
    ensures Run([EMPTY_BOOK, BlockedBook()], [FirstStep("b", "key", s, 0)], scope)
    ensures Answer(EMPTY_BOOK, FirstStep("b", "key", s, 0), scope).reply.Created?
    ensures BlockedBook().entries == [BlockingEntry()]
  {
    FirstReserves("b", "key", s, scope, 0);
    FirstRuns("b", "key", s, scope, 0);
  }

  lemma BlockingSupplied()
    ensures Supplied(SF.TwoFleetStore("a", "b", 10, 1.0), "b", 0)
  {
    SF.TwoFleetsStored("a", "b", 10, 1.0, 0);
    SF.FleetIs("b", 10, 1.0);
    FleetParticipants("b", 10, 1.0);
  }

  lemma BlockedReserved(scope: Scope, i: nat)
    requires i >= 1
    ensures Reserved([BlockingEntry()], SF.Name(i), SF.CellAt("a"), UPWARD, scope) ==
              if scope == AllTenants && i == 1 then 1.0 else 0.0
  {
    var e := BlockingEntry();
    assert [e][..0] == [] && e.allocations == FIRST && FIRST[..0] == [];
    assert Reserved([], SF.Name(i), SF.CellAt("a"), UPWARD, scope) == 0.0;
    SF.NamesOrdered(1, i);
    SF.NamesOrdered(i, 1);
    assert "a"[0] != "b"[0];
    assert Counts(e.reservation, SF.CellAt("a"), UPWARD, scope) <==> scope == AllTenants;
    assert PowerTo([], SF.Name(i)) == 0.0;
    assert PowerTo(e.allocations, SF.Name(i)) == if i == 1 then 1.0 else 0.0;
  }

  lemma BlockedFree(scope: Scope, n: nat)
    requires n >= 1
    ensures FreeTotal([BlockingEntry()], SF.Fleet("a", n, 1.0), UPWARD, scope) ==
              if scope == AllTenants then (n - 1) as real else n as real
  {
    SF.FleetIs("a", n, 1.0);
    assert SF.Fleet("a", n, 1.0)[..n - 1] == SF.Fleet("a", n - 1, 1.0);
    BlockedReserved(scope, n);
    if n > 1 {
      BlockedFree(scope, n - 1);
    }
  }

  lemma BlockedUncounted()
    ensures P.ReservedPower(ActiveReservations([BlockingEntry()]), SF.CellAt("a"), UPWARD) == 0.0
    ensures ExpireEntries([BlockingEntry()], 0) == [BlockingEntry()]
  {
    var e := BlockingEntry();
    ActiveAppend([e], SF.CellAt("a"), UPWARD);
    assert [e][..0] == [];
    assert ExpireEntries([], 0) == [];
    assert P.ReservedPower(ActiveReservations([]), SF.CellAt("a"), UPWARD) == 0.0;
  }

  lemma BlockedReply(fleet: seq<Offer>, scope: Scope)
    requires |ParticipantsOf(fleet)| == 10
    requires FreeTotal([BlockingEntry()], fleet, UPWARD, scope) == if scope == AllTenants then 9.0 else 10.0
    ensures var reply := Create(BlockedBook(), FleetRequest("a", "key", 10.0), fleet, 10, scope, 0, 2).reply;
            (reply.NoCapacity? <==> scope == AllTenants) && (reply.Created? <==> scope == ByTenant)
  {
    BlockedUncounted();
    assert JoinedKey("a", "key")[0] == 'a' && JoinedKey("b", "key")[0] == 'b';
    CreateRefusesExactly(BlockedBook(), FleetRequest("a", "key", 10.0), fleet, 10, scope, 0, 2);
  }

  lemma BlockedPublishes(s: OS.Store)
    requires OS.LiveIn(s.offers, SF.CellAt("a"), 0) == SF.Fleet("a", 10, 1.0)
    ensures var live := OS.LiveIn(s.offers, SF.CellAt("a"), 0);
            && live != [] && P.EligibleToPublish(DEFAULT, Aggregate(SF.CellAt("a"), OS.NumbersOf(live), 0))
            && Published(PublicNumbers(s, Expire(BlockedBook(), 0).entries, SF.CellAt("a"), 0, DEFAULT), UPWARD) == 10.0
  {
    BlockedUncounted();
    TenArePublished(s, Expire(BlockedBook(), 0).entries, "a", 1.0);
  }

  /** Counting every tenant's reservations, as in memory, refuses what is advertised to one tenant
      once another has reserved from a resource of the same name; counting by tenant creates it. */
  lemma OtherTenantBlocks(scope: Scope)
    ensures var b, s, cell := BlockedBook(), SF.TwoFleetStore("a", "b", 10, 1.0), SF.CellAt("a");
            var live := OS.LiveIn(s.offers, cell, 0);
            var reply := Create(b, FleetRequest("a", "key", 10.0), OS.Eligible(s, cell, 0), 10, scope, 0, 2).reply;
            && Run([EMPTY_BOOK, b], [BlockingStep()], scope) && Answer(EMPTY_BOOK, BlockingStep(), scope).reply.Created?
            && live != [] && P.EligibleToPublish(DEFAULT, Aggregate(cell, OS.NumbersOf(live), 0))
            && Published(PublicNumbers(s, Expire(b, 0).entries, cell, 0, DEFAULT), UPWARD) == 10.0
            && (reply.NoCapacity? <==> scope == AllTenants)
            && (reply.Created? <==> scope == ByTenant)
  {
    var b, s := BlockedBook(), SF.TwoFleetStore("a", "b", 10, 1.0);
    SF.TwoFleetsStored("a", "b", 10, 1.0, 0);
    BlockingSupplied();
    BlockedIs(s, scope);
    BlockedPublishes(s);
    BlockedFree(scope, 10);
    FleetParticipants("a", 10, 1.0);
    BlockedReply(SF.Fleet("a", 10, 1.0), scope);
  }
}
