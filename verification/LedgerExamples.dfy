/** Runs of the ledger that reach what a reader would not expect. */
module LedgerExamples {
  import opened Domain
  import opened Ledger
  import opened LedgerRuns
  import OS = OfferStore
  import SF = SampleFleet

  type Offer = Domain.Offer

  function FleetRequest(tenant: string, key: string, power: real): Request {
    Request(key, Payload(SF.CellAt(tenant), UPWARD, power, None))
  }

  // ----- A first reservation of one kilowatt from a fleet of ten

  const FIRST := [Allocation(SF.Name(1), 1.0, 0.0, "v")]

  function FirstStep(tenant: string, key: string, store: OS.Store, now: Time): Step {
    Reserve(FleetRequest(tenant, key, 1.0), store, 10, now, 1)
  }

  function FirstEntry(tenant: string, key: string, now: Time): Entry {
    Entry(NewReservation(FleetRequest(tenant, key, 1.0).payload, FIRST, 10, now, 1), FIRST)
  }

  function FirstBook(tenant: string, key: string, now: Time): Book {
    Record(EMPTY_BOOK, FleetRequest(tenant, key, 1.0), FIRST, 10, now, 1).book
  }

  lemma FleetParticipants(tenant: string, n: nat, up: real)
    ensures |ParticipantsOf(SF.Fleet(tenant, n, up))| == n
  {
    SF.FleetCohort(tenant, n, up);
    assert ParticipantsOf(SF.Fleet(tenant, n, up)) == OS.CohortOf(SF.Fleet(tenant, n, up));
  }

  lemma OneTaken(fleet: seq<Offer>, tenant: string, scope: Scope)
    requires fleet != [] && fleet[0] == SF.FleetOffer(tenant, 1, 1.0)
    ensures Allocate([], fleet, UPWARD, scope, 1.0) == Grant(FIRST, 0.0)
  {
    assert Share([], fleet[0], UPWARD, scope, 1.0) == FIRST;
    assert FIRST[..0] == [];
    assert Power(FIRST) == 1.0;
  }

  /** A first reservation takes what the greedy loop grants. */
  lemma FirstRecorded(request: Request, fleet: seq<Offer>, minimum: nat, scope: Scope, now: Time, id: nat, grant: Grant)
    requires ValidRequest(request.payload) && |ParticipantsOf(fleet)| >= minimum
    requires Allocate([], fleet, request.payload.direction, scope, request.payload.power) == grant && grant.remaining == 0.0
    ensures Create(EMPTY_BOOK, request, fleet, minimum, scope, now, id) ==
              Record(EMPTY_BOOK, request, grant.allocations, |ParticipantsOf(fleet)|, now, id)
  {
    assert ExpireEntries([], now) == [];
  }

  /** A store whose offers for the tenant are ten or more participants', the first of one kilowatt. */
  predicate Supplied(s: OS.Store, tenant: string, now: Time) {
    && OS.Valid(s)
    && var fleet := OS.Eligible(s, SF.CellAt(tenant), now);
       |ParticipantsOf(fleet)| == 10 && fleet != [] && fleet[0] == SF.FleetOffer(tenant, 1, 1.0)
  }

  /** As a fleet of ten that was delivered to an empty store. */
  lemma FleetSupplies(tenant: string, now: Time)
    requires now <= SF.END
    ensures Supplied(SF.FleetStore(tenant, 10, 1.0), tenant, now)
  {
    SF.FleetStored(tenant, 10, 1.0, now);
    SF.FleetIs(tenant, 10, 1.0);
    FleetParticipants(tenant, 10, 1.0);
  }

  lemma FirstReserves(tenant: string, key: string, s: OS.Store, scope: Scope, now: Time)
    requires Supplied(s, tenant, now)
    ensures Answer(EMPTY_BOOK, FirstStep(tenant, key, s, now), scope) ==
              Record(EMPTY_BOOK, FleetRequest(tenant, key, 1.0), FIRST, 10, now, 1)
    ensures Enabled(EMPTY_BOOK, FirstStep(tenant, key, s, now))
    ensures FirstBook(tenant, key, now).entries == [FirstEntry(tenant, key, now)]
  {
    var fleet := OS.Eligible(s, SF.CellAt(tenant), now);
    OneTaken(fleet, tenant, scope);
    FirstRecorded(FleetRequest(tenant, key, 1.0), fleet, 10, scope, now, 1, Grant(FIRST, 0.0));
  }

  lemma {:induction false} RunExtends(books: seq<Book>, steps: seq<Step>, step: Step, after: Book, scope: Scope)
    requires Run(books, steps, scope) && Enabled(books[|steps|], step)
    requires Answer(books[|steps|], step, scope).book == after
    ensures Run(books + [after], steps + [step], scope)
  {
    var longer, all := books + [after], steps + [step];
    forall k | 0 <= k < |all|
      ensures Enabled(longer[k], all[k]) && longer[k + 1] == Answer(longer[k], all[k], scope).book
    {
      if k < |steps| {
        assert longer[k] == books[k] && longer[k + 1] == books[k + 1] && all[k] == steps[k];
      }
    }
  }

  lemma FirstRuns(tenant: string, key: string, s: OS.Store, scope: Scope, now: Time)
    requires Supplied(s, tenant, now)
    ensures Run([EMPTY_BOOK, FirstBook(tenant, key, now)], [FirstStep(tenant, key, s, now)], scope)
  {
    FirstReserves(tenant, key, s, scope, now);
    RunExtends([EMPTY_BOOK], [], FirstStep(tenant, key, s, now), FirstBook(tenant, key, now), scope);
    assert [EMPTY_BOOK] + [FirstBook(tenant, key, now)] == [EMPTY_BOOK, FirstBook(tenant, key, now)];
    assert [] + [FirstStep(tenant, key, s, now)] == [FirstStep(tenant, key, s, now)];
  }

  lemma NotExpiredYet(tenant: string, key: string)
    ensures ExpireEntries([FirstEntry(tenant, key, 0)], 0) == [FirstEntry(tenant, key, 0)]
  {
    assert [FirstEntry(tenant, key, 0)][..0] == [];
    assert ExpireEntries([], 0) == [];
  }

  // ----- Two tenants, one key

  function SecondTenantStep(t: OS.Store): Step {
    Reserve(FleetRequest("a:b", "k", 1.0), t, 10, 0, 2)
  }

  /** Tenant a uses key b:k, and tenant a:b is refused its own key k. */
  lemma TenantsCollide(s: OS.Store, t: OS.Store, scope: Scope)
    requires Supplied(s, "a", 0) && OS.Valid(t)
    ensures var first, b := FirstStep("a", "b:k", s, 0), FirstBook("a", "b:k", 0);
            && Run([EMPTY_BOOK, b, Answer(b, SecondTenantStep(t), scope).book], [first, SecondTenantStep(t)], scope)
            && Answer(EMPTY_BOOK, first, scope).reply.Created?
            && Answer(b, SecondTenantStep(t), scope).reply == KeyConflict
  {
    var first, b, second := FirstStep("a", "b:k", s, 0), FirstBook("a", "b:k", 0), SecondTenantStep(t);
    FirstReserves("a", "b:k", s, scope, 0);
    FirstRuns("a", "b:k", s, scope, 0);
    TwoSteps(first, b, second, scope);
    assert JoinedKey("a", "b:k") == "a:b:k" == JoinedKey("a:b", "k");
    assert |"a"| != |"a:b"|;
    SharedKeyConflicts([EMPTY_BOOK, b, Answer(b, second, scope).book], [first, second], scope, 0, 1);
  }

  lemma TwoSteps(first: Step, b: Book, second: Step, scope: Scope)
    requires Run([EMPTY_BOOK, b], [first], scope) && Enabled(b, second)
    ensures Run([EMPTY_BOOK, b, Answer(b, second, scope).book], [first, second], scope)
  {
    RunExtends([EMPTY_BOOK, b], [first], second, Answer(b, second, scope).book, scope);
    assert [EMPTY_BOOK, b] + [Answer(b, second, scope).book] == [EMPTY_BOOK, b, Answer(b, second, scope).book];
    assert [first] + [second] == [first, second];
  }

  // ----- A reservation of an interval that has begun

  /** Created as the interval begins, confirmed, and past its deadline at once. */
  lemma LateReservation(s: OS.Store, scope: Scope)
    requires Supplied(s, "a", SF.START)
    ensures var first, b := FirstStep("a", "key", s, SF.START), FirstBook("a", "key", SF.START);
            && Run([EMPTY_BOOK, b], [first], scope)
            && Answer(EMPTY_BOOK, first, scope).reply.Created?
            && b.entries[0].reservation.status == CONFIRMED
            && b.entries[0].reservation.expiresAt == SF.START
            && Activate(b, 1, {0}, SF.START).reply == WrongState(EXPIRED)
  {
    FirstReserves("a", "key", s, scope, SF.START);
    FirstRuns("a", "key", s, scope, SF.START);
    LateIsRefused([EMPTY_BOOK, FirstBook("a", "key", SF.START)], [FirstStep("a", "key", s, SF.START)], scope, 0, 1, {0}, SF.START);
  }

  // ----- An activation without instructions

  const CRUMB: real := 0.0000000005

  function CrumbStep(s: OS.Store): Step {
    Reserve(FleetRequest("a", "more", CRUMB), s, 10, 0, 2)
  }

  function CrumbBook(): Book {
    Record(FirstBook("a", "key", 0), FleetRequest("a", "more", CRUMB), [], 10, 0, 2).book
  }

  function StuckBook(): Book {
    Open(CrumbBook(), 1).book
  }

  lemma FirstOfferUsedUp(offer: Offer, scope: Scope)
    requires offer == SF.FleetOffer("a", 1, 1.0)
    ensures Free([FirstEntry("a", "key", 0)], offer, UPWARD, scope) == 0.0
  {
    var e := FirstEntry("a", "key", 0);
    assert [e][..0] == [] && FIRST[..0] == [];
    assert PowerTo([], SF.Name(1)) == 0.0;
    assert PowerTo(FIRST, SF.Name(1)) == 1.0;
    assert Reserved([], SF.Name(1), SF.CellAt("a"), UPWARD, scope) == 0.0;
  }

  lemma CrumbGranted(entries: seq<Entry>, fleet: seq<Offer>, scope: Scope)
    requires fleet != [] && Free(entries, fleet[0], UPWARD, scope) == 0.0
    ensures Allocate(entries, fleet, UPWARD, scope, CRUMB) == Grant([], CRUMB)
  {
  }

  lemma CrumbRecorded(b: Book, request: Request, fleet: seq<Offer>, scope: Scope, id: nat)
    requires ValidRequest(request.payload) && |ParticipantsOf(fleet)| >= 10 && TenantKey(request) !in b.keys
    requires ExpireEntries(b.entries, 0) == b.entries
    requires Allocate(b.entries, fleet, request.payload.direction, scope, request.payload.power) == Grant([], CRUMB)
    ensures Create(b, request, fleet, 10, scope, 0, id) == Record(b, request, [], |ParticipantsOf(fleet)|, 0, id)
  {
    assert Expire(b, 0) == b;
  }

  lemma CrumbIs(s: OS.Store, scope: Scope)
    requires Supplied(s, "a", 0)
    ensures Answer(FirstBook("a", "key", 0), CrumbStep(s), scope) ==
              Record(FirstBook("a", "key", 0), FleetRequest("a", "more", CRUMB), [], 10, 0, 2)
    ensures Enabled(FirstBook("a", "key", 0), CrumbStep(s))
  {
    var b, fleet := FirstBook("a", "key", 0), OS.Eligible(s, SF.CellAt("a"), 0);
    FirstReserves("a", "key", s, scope, 0);
    NotExpiredYet("a", "key");
    FirstOfferUsedUp(fleet[0], scope);
    CrumbGranted(b.entries, fleet, scope);
    KeysDiffer();
    CrumbRecorded(b, FleetRequest("a", "more", CRUMB), fleet, scope, 2);
  }

  lemma KeysDiffer()
    ensures JoinedKey("a", "key") != JoinedKey("a", "more")
  {
    assert JoinedKey("a", "key")[2] == 'k' && JoinedKey("a", "more")[2] == 'm';
  }

  lemma StuckIs(scope: Scope)
    ensures Answer(CrumbBook(), BeginActivation(2, 0), scope) == Open(CrumbBook(), 1)
    ensures StuckBook().activations == map[2 := Activation(ActPending, 0, 0, 0)]
  {
    var first, last := FirstEntry("a", "key", 0), CrumbBook().entries[1];
    assert CrumbBook().entries == [first, last];
    assert [first, last][..1] == [first];
    NotExpiredYet("a", "key");
    assert ExpireEntries([first, last], 0) == [first, last];
    assert Expire(CrumbBook(), 0) == CrumbBook();
    assert [first, last][1..] == [last];
    assert IndexOf([last], 2) == 0;
  }

  /** Once the first offer is used up, a request within the tolerance is created and activated
      without an instruction, and its activation is pending for good. */
  lemma ActivationStuck(s: OS.Store, scope: Scope)
    requires Supplied(s, "a", 0)
    ensures var steps := [FirstStep("a", "key", s, 0), CrumbStep(s), BeginActivation(2, 0)];
            Run([EMPTY_BOOK, FirstBook("a", "key", 0), CrumbBook(), StuckBook()], steps, scope)
    ensures Answer(FirstBook("a", "key", 0), CrumbStep(s), scope).reply.Created?
    ensures CrumbBook().entries[1].allocations == []
    ensures StuckBook().activations == map[2 := Activation(ActPending, 0, 0, 0)]
  {
    FirstRuns("a", "key", s, scope, 0);
    CrumbIs(s, scope);
    StuckIs(scope);
    TwoSteps(FirstStep("a", "key", s, 0), FirstBook("a", "key", 0), CrumbStep(s), scope);
    ThirdStep(FirstStep("a", "key", s, 0), CrumbStep(s), BeginActivation(2, 0), FirstBook("a", "key", 0), CrumbBook(), StuckBook(), scope);
  }

  lemma ThirdStep(first: Step, second: Step, third: Step, b: Book, c: Book, d: Book, scope: Scope)
    requires Run([EMPTY_BOOK, b, c], [first, second], scope) && Enabled(c, third) && Answer(c, third, scope).book == d
    ensures Run([EMPTY_BOOK, b, c, d], [first, second, third], scope)
  {
    RunExtends([EMPTY_BOOK, b, c], [first, second], third, d, scope);
    assert [EMPTY_BOOK, b, c] + [d] == [EMPTY_BOOK, b, c, d];
    assert [first, second] + [third] == [first, second, third];
  }
}
