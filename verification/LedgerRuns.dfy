/** Whole runs of the reservation ledger, each transaction one atomic step as under the
    in-memory backend's lock. A transaction that raises after expiring is an expiry there;
    with SQL it is rolled back and is no step at all. */
module LedgerRuns {
  import opened Domain
  import opened Ledger
  import OS = OfferStore
  import Publication

  type Offer = Domain.Offer

  datatype Step =
    | Reserve(request: Request, store: OS.Store, minimum: nat, now: Time, id: nat)
    | Look(id: nat, now: Time)
    | CallOff(id: nat, now: Time)
    | ActivateNow(id: nat, accepted: set<nat>, now: Time)
    | BeginActivation(id: nat, now: Time)
    | SettleActivation(id: nat, accepted: set<nat>)
    | Sweep(now: Time)

  function OffersFor(step: Step): seq<Offer>
    requires step.Reserve?
  {
    OS.Eligible(step.store, step.request.payload.cell, step.now)
  }

  ghost predicate Enabled(b: Book, step: Step) {
    match step
    case Reserve(_, store, _, _, id) => OS.Valid(store) && IndexOf(b.entries, id) == |b.entries|
    case SettleActivation(id, _) =>
      id in b.activations && b.activations[id].status == ActPending && b.activations[id].instructions > 0
    case _ => true
  }

  function Answer(b: Book, step: Step, scope: Scope): Result {
    match step
    case Reserve(request, store, minimum, now, id) => Create(b, request, OffersFor(step), minimum, scope, now, id)
    case Look(id, now) => Get(b, id, now)
    case CallOff(id, now) => Cancel(b, id, now)
    case ActivateNow(id, accepted, now) => Activate(b, id, accepted, now)
    case BeginActivation(id, now) => Begin(b, id, now)
    case SettleActivation(id, accepted) =>
      if IndexOf(b.entries, id) == |b.entries| then Result(b, NotFound)
      else Settle(b, IndexOf(b.entries, id), accepted)
    case Sweep(now) => Result(Expire(b, now), NotFound)
  }

  // ----- How an entry may change

  predicate Moves(before: ReservationStatus, after: ReservationStatus) {
    || before == after
    || (before == CONFIRMED && after != CONFIRMED)
    || (before == ACTIVATED && after in {COMPLETED, FAILED})
  }

  ghost predicate Fades(e: Entry, e': Entry) {
    && e'.reservation == e.reservation.(status := e'.reservation.status, allocatedPower := e'.reservation.allocatedPower)
    && Moves(e.reservation.status, e'.reservation.status)
    && (forall r :: PowerTo(e'.allocations, r) <= PowerTo(e.allocations, r))
  }

  /** No entry disappears, changes its request or grows. */
  ghost predicate Fade(entries: seq<Entry>, entries': seq<Entry>) {
    |entries| <= |entries'| && forall i :: 0 <= i < |entries| ==> Fades(entries[i], entries'[i])
  }

  // ----- What every book satisfies

  ghost predicate EntryValid(e: Entry) {
    && Positive(e.allocations)
    && e.reservation.allocatedPower == Power(e.allocations)
    && e.reservation.allocatedPower <= e.reservation.requestedPower
    && e.reservation.expiresAt == Deadline(e.reservation.cell, e.reservation.createdAt)
    && (e.reservation.status != FAILED ==> e.reservation.requestedPower - TOLERANCE <= e.reservation.allocatedPower)
  }

  ghost predicate ActivationFits(e: Entry, activations: map<nat, Activation>) {
    var status := e.reservation.status;
    if e.reservation.id !in activations then status !in {ACTIVATED, COMPLETED, FAILED}
    else
      var a := activations[e.reservation.id];
      && (a.status == ActPending <==> status == ACTIVATED)
      && (a.status == ActCompleted <==> status == COMPLETED)
      && (a.status == ActFailed <==> status == FAILED)
      && (if a.status == ActPending then a.accepted == 0 == a.rejected && |e.allocations| == a.instructions
          else a.accepted + a.rejected == a.instructions && |e.allocations| == a.accepted)
      && (a.status == ActFailed <==> a.rejected != 0)
  }

  ghost predicate IdsDistinct(entries: seq<Entry>) {
    forall i, j :: 0 <= i < j < |entries| ==> entries[i].reservation.id != entries[j].reservation.id
  }

  ghost predicate Serves(r: Reservation, payload: Payload) {
    r.cell == payload.cell && r.direction == payload.direction && r.requestedPower == payload.power
  }

  ghost predicate KeyFits(entries: seq<Entry>, claim: Claim) {
    && ValidRequest(claim.payload)
    && exists i :: 0 <= i < |entries| && entries[i].reservation.id == claim.id && Serves(entries[i].reservation, claim.payload)
  }

  ghost predicate EntriesInv(entries: seq<Entry>, activations: map<nat, Activation>) {
    && IdsDistinct(entries)
    && (forall i :: 0 <= i < |entries| ==> EntryValid(entries[i]) && ActivationFits(entries[i], activations))
    && (forall id :: id in activations ==> exists i :: 0 <= i < |entries| && entries[i].reservation.id == id)
  }

  ghost predicate KeysInv(entries: seq<Entry>, keys: map<string, Claim>) {
    forall key :: key in keys ==> KeyFits(entries, keys[key])
  }

  ghost predicate BookInv(b: Book) {
    EntriesInv(b.entries, b.activations) && KeysInv(b.entries, b.keys)
  }

  /** The book stays sound, and no entry disappears, changes its request or grows. */
  ghost predicate Keeps(b: Book, b': Book) {
    (BookInv(b') && Fade(b.entries, b'.entries)) || !BookInv(b)
  }

  // ----- Sums over kept allocations

  lemma {:induction false} PowerNonnegative(allocations: seq<Allocation>)
    requires Positive(allocations)
    ensures Power(allocations) >= 0.0
    ensures forall r :: PowerTo(allocations, r) >= 0.0
  {
    if allocations != [] {
      PowerNonnegative(allocations[..|allocations| - 1]);
    }
  }

  lemma {:induction false} AcceptedPositive(allocations: seq<Allocation>, accepted: set<nat>)
    requires Positive(allocations)
    ensures Positive(AcceptedOf(allocations, accepted))
  {
    if allocations != [] {
      AcceptedPositive(allocations[..|allocations| - 1], accepted);
    }
  }

  /** What is kept is part of what was allocated. */
  lemma {:induction false} AcceptedPower(allocations: seq<Allocation>, accepted: set<nat>)
    requires Positive(allocations)
    ensures Power(AcceptedOf(allocations, accepted)) <= Power(allocations)
  {
    if allocations != [] {
      var init, last := allocations[..|allocations| - 1], allocations[|allocations| - 1];
      AcceptedPower(init, accepted);
      PowerAppend(AcceptedOf(init, accepted), [last]);
      assert AcceptedOf(init, accepted) + [] == AcceptedOf(init, accepted);
    }
  }

  lemma {:induction false} AcceptedPowerTo(allocations: seq<Allocation>, accepted: set<nat>, resource: string)
    requires Positive(allocations)
    ensures PowerTo(AcceptedOf(allocations, accepted), resource) <= PowerTo(allocations, resource)
  {
    if allocations != [] {
      var init, last := allocations[..|allocations| - 1], allocations[|allocations| - 1];
      AcceptedPowerTo(init, accepted, resource);
      PowerToAppend(AcceptedOf(init, accepted), [last], resource);
      assert AcceptedOf(init, accepted) + [] == AcceptedOf(init, accepted);
    }
  }

  lemma {:induction false} AllAccepted(allocations: seq<Allocation>, accepted: set<nat>)
    requires |AcceptedOf(allocations, accepted)| == |allocations|
    ensures AcceptedOf(allocations, accepted) == allocations
  {
    if allocations != [] {
      AllAccepted(allocations[..|allocations| - 1], accepted);
      assert allocations == allocations[..|allocations| - 1] + [allocations[|allocations| - 1]];
    }
  }

  // ----- Entries that fade hold no more than before

  lemma {:induction false} ExpireEntriesAre(entries: seq<Entry>, now: Time)
    ensures |ExpireEntries(entries, now)| == |entries|
    ensures forall i :: 0 <= i < |entries| ==> ExpireEntries(entries, now)[i] == ExpireEntry(entries[i], now)
  {
    if entries != [] {
      ExpireEntriesAre(entries[..|entries| - 1], now);
    }
  }

  lemma ExpireFades(entries: seq<Entry>, now: Time)
    ensures |ExpireEntries(entries, now)| == |entries| && Fade(entries, ExpireEntries(entries, now))
  {
    ExpireEntriesAre(entries, now);
  }

  lemma FadeTransitive(a: seq<Entry>, b: seq<Entry>, c: seq<Entry>)
    requires Fade(a, b) && Fade(b, c)
    ensures Fade(a, c)
  {
    forall i | 0 <= i < |a|
      ensures Fades(a[i], c[i])
    {
      assert Fades(a[i], b[i]) && Fades(b[i], c[i]);
      forall r
        ensures PowerTo(c[i].allocations, r) <= PowerTo(a[i].allocations, r)
      {
        assert PowerTo(c[i].allocations, r) <= PowerTo(b[i].allocations, r);
      }
    }
  }

  lemma {:induction false} ReservedFades(
      entries: seq<Entry>, entries': seq<Entry>, resource: string, cell: Cell, direction: Direction, scope: Scope)
    requires |entries| == |entries'| && Fade(entries, entries')
    requires forall i :: 0 <= i < |entries| ==> Positive(entries[i].allocations)
    ensures Reserved(entries', resource, cell, direction, scope) <= Reserved(entries, resource, cell, direction, scope)
  {
    if entries != [] {
      var k := |entries| - 1;
      ReservedFades(entries[..k], entries'[..k], resource, cell, direction, scope);
      assert Fades(entries[k], entries'[k]);
      PowerNonnegative(entries[k].allocations);
    }
  }

  // ----- Each kind of change keeps the book

  lemma KeysSurvive(entries: seq<Entry>, entries': seq<Entry>, keys: map<string, Claim>)
    requires KeysInv(entries, keys) && Fade(entries, entries')
    ensures KeysInv(entries', keys)
  {
    forall key | key in keys
      ensures KeyFits(entries', keys[key])
    {
      var claim := keys[key];
      var i :| 0 <= i < |entries| && entries[i].reservation.id == claim.id && Serves(entries[i].reservation, claim.payload);
      assert Fades(entries[i], entries'[i]);
      assert Serves(entries'[i].reservation, claim.payload);
    }
  }

  lemma ExpireKeeps(b: Book, now: Time)
    requires BookInv(b)
    ensures BookInv(Expire(b, now)) && |Expire(b, now).entries| == |b.entries| && Fade(b.entries, Expire(b, now).entries)
  {
    ExpireEntriesAre(b.entries, now);
    ExpireFades(b.entries, now);
    var entries := Expire(b, now).entries;
    KeysSurvive(b.entries, entries, b.keys);
    forall i | 0 <= i < |entries|
      ensures EntryValid(entries[i]) && ActivationFits(entries[i], b.activations)
    {
      assert EntryValid(b.entries[i]) && ActivationFits(b.entries[i], b.activations);
    }
    forall id | id in b.activations
      ensures exists i :: 0 <= i < |entries| && entries[i].reservation.id == id
    {
      var i :| 0 <= i < |b.entries| && b.entries[i].reservation.id == id;
      assert entries[i].reservation.id == id;
    }
  }

  lemma ReplaceFades(entries: seq<Entry>, i: nat, e: Entry)
    requires i < |entries| && Fades(entries[i], e)
    ensures Fade(entries, entries[i := e])
  {
  }

  lemma ReplaceKeeps(b: Book, i: nat, e: Entry, activations: map<nat, Activation>)
    requires BookInv(b) && i < |b.entries| && Fades(b.entries[i], e)
    requires EntryValid(e) && ActivationFits(e, activations)
    requires b.activations.Keys <= activations.Keys <= b.activations.Keys + {e.reservation.id}
    requires forall id :: id in activations && id != e.reservation.id ==> activations[id] == b.activations[id]
    ensures BookInv(b.(entries := b.entries[i := e], activations := activations))
  {
    var entries := b.entries[i := e];
    ReplaceFades(b.entries, i, e);
    KeysSurvive(b.entries, entries, b.keys);
    forall j | 0 <= j < |entries| && j != i
      ensures EntryValid(entries[j]) && ActivationFits(entries[j], activations)
    {
      assert EntryValid(b.entries[j]) && ActivationFits(b.entries[j], b.activations);
      assert b.entries[j].reservation.id != b.entries[i].reservation.id;
    }
    forall id | id in activations
      ensures exists j :: 0 <= j < |entries| && entries[j].reservation.id == id
    {
      if id == e.reservation.id {
        assert entries[i].reservation.id == id;
      } else {
        var j :| 0 <= j < |b.entries| && b.entries[j].reservation.id == id;
        assert entries[j].reservation.id == id;
      }
    }
  }

  lemma CancelKeeps(b: Book, id: nat, now: Time)
    requires BookInv(b)
    ensures |Cancel(b, id, now).book.entries| == |b.entries| && Keeps(b, Cancel(b, id, now).book)
  {
    ExpireKeeps(b, now);
    var e := Expire(b, now);
    var i := IndexOf(e.entries, id);
    if i < |e.entries| && e.entries[i].reservation.status == CONFIRMED {
      var cancelled := e.entries[i].(reservation := e.entries[i].reservation.(status := CANCELLED));
      assert EntryValid(e.entries[i]) && ActivationFits(e.entries[i], e.activations);
      ReplaceKeeps(e, i, cancelled, e.activations);
      ReplaceFades(e.entries, i, cancelled);
      FadeTransitive(b.entries, e.entries, Cancel(b, id, now).book.entries);
    }
  }

  lemma SettleKeeps(b: Book, i: nat, accepted: set<nat>)
    requires BookInv(b) && i < |b.entries| && b.entries[i].reservation.status in {CONFIRMED, ACTIVATED}
    ensures BookInv(Settle(b, i, accepted).book) && |Settle(b, i, accepted).book.entries| == |b.entries|
    ensures Fade(b.entries, Settle(b, i, accepted).book.entries)
  {
    var before := b.entries[i];
    var after := Settle(b, i, accepted).book;
    assert EntryValid(before);
    AcceptedPositive(before.allocations, accepted);
    AcceptedPower(before.allocations, accepted);
    forall r
      ensures PowerTo(after.entries[i].allocations, r) <= PowerTo(before.allocations, r)
    {
      AcceptedPowerTo(before.allocations, accepted, r);
    }
    if |after.entries[i].allocations| == |before.allocations| {
      AllAccepted(before.allocations, accepted);
    }
    ReplaceFades(b.entries, i, after.entries[i]);
    ReplaceKeeps(b, i, after.entries[i], after.activations);
  }

  lemma OpenKeeps(b: Book, i: nat)
    requires BookInv(b) && i < |b.entries| && b.entries[i].reservation.status == CONFIRMED
    ensures BookInv(Open(b, i).book) && |Open(b, i).book.entries| == |b.entries|
    ensures Fade(b.entries, Open(b, i).book.entries)
  {
    var after := Open(b, i).book;
    assert EntryValid(b.entries[i]);
    ReplaceFades(b.entries, i, after.entries[i]);
    ReplaceKeeps(b, i, after.entries[i], after.activations);
  }

  lemma ActivateKeeps(b: Book, id: nat, accepted: set<nat>, now: Time)
    requires BookInv(b)
    ensures |Activate(b, id, accepted, now).book.entries| == |b.entries| && Keeps(b, Activate(b, id, accepted, now).book)
  {
    ExpireKeeps(b, now);
    var e := Expire(b, now);
    var i := IndexOf(e.entries, id);
    if id !in b.activations && i < |e.entries| && e.entries[i].reservation.status == CONFIRMED {
      SettleKeeps(e, i, accepted);
      FadeTransitive(b.entries, e.entries, Activate(b, id, accepted, now).book.entries);
    }
  }

  lemma BeginKeeps(b: Book, id: nat, now: Time)
    requires BookInv(b)
    ensures |Begin(b, id, now).book.entries| == |b.entries| && Keeps(b, Begin(b, id, now).book)
  {
    ExpireKeeps(b, now);
    var e := Expire(b, now);
    var i := IndexOf(e.entries, id);
    if id !in b.activations && i < |e.entries| && e.entries[i].reservation.status == CONFIRMED {
      OpenKeeps(e, i);
      FadeTransitive(b.entries, e.entries, Begin(b, id, now).book.entries);
    }
  }

  lemma AppendKeeps(b: Book, e: Entry, key: string, claim: Claim)
    requires BookInv(b) && EntryValid(e) && e.reservation.status == CONFIRMED
    requires forall i :: 0 <= i < |b.entries| ==> b.entries[i].reservation.id != e.reservation.id
    requires ValidRequest(claim.payload) && claim.id == e.reservation.id && Serves(e.reservation, claim.payload)
    ensures BookInv(b.(entries := b.entries + [e], keys := b.keys[key := claim]))
    ensures Fade(b.entries, b.entries + [e])
  {
    var entries := b.entries + [e];
    KeysSurvive(b.entries, entries, b.keys);
    assert entries[|b.entries|] == e;
    assert e.reservation.id !in b.activations;
    forall id | id in b.activations
      ensures exists i :: 0 <= i < |entries| && entries[i].reservation.id == id
    {
      var i :| 0 <= i < |b.entries| && b.entries[i].reservation.id == id;
      assert entries[i].reservation.id == id;
    }
  }

  lemma ExpireKeepsIndex(entries: seq<Entry>, now: Time, id: nat)
    ensures IndexOf(ExpireEntries(entries, now), id) == IndexOf(entries, id)
  {
    ExpireEntriesAre(entries, now);
  }

  lemma RecordKeeps(b: Book, request: Request, allocations: seq<Allocation>, participants: nat, now: Time, id: nat)
    requires BookInv(b) && IndexOf(b.entries, id) == |b.entries| && ValidRequest(request.payload)
    requires Positive(allocations) && request.payload.power - TOLERANCE <= Power(allocations) <= request.payload.power
    ensures BookInv(Record(b, request, allocations, participants, now, id).book)
    ensures Fade(b.entries, Record(b, request, allocations, participants, now, id).book.entries)
  {
    var e := Entry(NewReservation(request.payload, allocations, participants, now, id), allocations);
    AppendKeeps(b, e, TenantKey(request), Claim(request.payload, id));
  }

  /** What the greedy loop granted, if it is enough, is a sound entry. */
  lemma GrantKeeps(b: Book, request: Request, offers: seq<Offer>, scope: Scope, now: Time, id: nat)
    requires BookInv(b) && IndexOf(b.entries, id) == |b.entries| && ValidRequest(request.payload)
    requires Allocate(b.entries, offers, request.payload.direction, scope, request.payload.power).remaining <= TOLERANCE
    ensures var payload := request.payload;
            var grant := Allocate(b.entries, offers, payload.direction, scope, payload.power);
            Keeps(b, Record(b, request, grant.allocations, |ParticipantsOf(offers)|, now, id).book)
  {
    var payload := request.payload;
    AllocatePositive(b.entries, offers, payload.direction, scope, payload.power);
    AllocateConserves(b.entries, offers, payload.direction, scope, payload.power);
    RecordKeeps(b, request, Allocate(b.entries, offers, payload.direction, scope, payload.power).allocations,
                |ParticipantsOf(offers)|, now, id);
  }

  lemma KeepsTransitive(a: Book, b: Book, c: Book)
    requires Keeps(a, b) && Keeps(b, c)
    ensures Keeps(a, c)
  {
    if BookInv(a) {
      FadeTransitive(a.entries, b.entries, c.entries);
    }
  }

  /** A creation either records what the greedy loop granted, or at most expires. */
  lemma CreateIs(b: Book, request: Request, offers: seq<Offer>, minimum: nat, scope: Scope, now: Time, id: nat)
    ensures var e, payload := Expire(b, now), request.payload;
            var result := Create(b, request, offers, minimum, scope, now, id);
            var grant := Allocate(e.entries, offers, payload.direction, scope, payload.power);
            if result.reply.Created? then
              && ValidRequest(payload) && TenantKey(request) !in b.keys && grant.remaining <= TOLERANCE
              && result == Record(e, request, grant.allocations, |ParticipantsOf(offers)|, now, id)
            else result.book == b || result.book == e
  {
  }

  lemma CreateKeeps(b: Book, request: Request, offers: seq<Offer>, minimum: nat, scope: Scope, now: Time, id: nat)
    requires BookInv(b) && IndexOf(b.entries, id) == |b.entries|
    ensures Keeps(b, Create(b, request, offers, minimum, scope, now, id).book)
  {
    var e, after := Expire(b, now), Create(b, request, offers, minimum, scope, now, id).book;
    CreateIs(b, request, offers, minimum, scope, now, id);
    ExpireKeeps(b, now);
    ExpireKeepsIndex(b.entries, now, id);
    FadeReflexive(b.entries);
    if after != b && after != e {
      GrantKeeps(e, request, offers, scope, now, id);
      KeepsTransitive(b, e, after);
    }
  }

  lemma FadeReflexive(entries: seq<Entry>)
    ensures Fade(entries, entries)
  {
  }

  // ----- Runs

  lemma SettlementKeeps(b: Book, id: nat, accepted: set<nat>)
    requires BookInv(b) && id in b.activations && b.activations[id].status == ActPending
    ensures var i := IndexOf(b.entries, id);
            && i < |b.entries| && b.entries[i].reservation.status == ACTIVATED
            && |Settle(b, i, accepted).book.entries| == |b.entries|
            && Keeps(b, Settle(b, i, accepted).book)
  {
    var j :| 0 <= j < |b.entries| && b.entries[j].reservation.id == id;
    var i := IndexOf(b.entries, id);
    assert ActivationFits(b.entries[i], b.activations);
    SettleKeeps(b, i, accepted);
  }

  lemma StepKeeps(b: Book, step: Step, scope: Scope)
    requires BookInv(b) && Enabled(b, step)
    ensures Keeps(b, Answer(b, step, scope).book)
    ensures !step.Reserve? ==> |Answer(b, step, scope).book.entries| == |b.entries|
  {
    match step
    case Reserve(request, store, minimum, now, id) => CreateKeeps(b, request, OffersFor(step), minimum, scope, now, id);
    case Look(id, now) => ExpireKeeps(b, now);
    case CallOff(id, now) => CancelKeeps(b, id, now);
    case ActivateNow(id, accepted, now) => ActivateKeeps(b, id, accepted, now);
    case BeginActivation(id, now) => BeginKeeps(b, id, now);
    case SettleActivation(id, accepted) => SettlementKeeps(b, id, accepted);
    case Sweep(now) => ExpireKeeps(b, now);
  }

  ghost predicate Run(books: seq<Book>, steps: seq<Step>, scope: Scope) {
    && |books| == |steps| + 1
    && books[0] == EMPTY_BOOK
    && forall k {:trigger steps[k]} :: 0 <= k < |steps| ==> Enabled(books[k], steps[k]) && books[k + 1] == Answer(books[k], steps[k], scope).book
  }

  lemma {:induction false} Reachable(books: seq<Book>, steps: seq<Step>, scope: Scope, k: nat)
    requires Run(books, steps, scope) && k < |books|
    ensures BookInv(books[k])
  {
    if k > 0 {
      Reachable(books, steps, scope, k - 1);
      StepKeeps(books[k - 1], steps[k - 1], scope);
    }
  }

  // ----- No overselling

  lemma {:induction false} LiveResourcesDistinct(offers: seq<Offer>, cell: Cell, now: Time)
    requires OS.KeysDistinct(offers)
    ensures ResourcesDistinct(OS.LiveIn(offers, cell, now))
  {
    if offers != [] {
      var init, last := offers[..|offers| - 1], offers[|offers| - 1];
      OS.LastKeyIsNew(offers);
      LiveResourcesDistinct(init, cell, now);
      Publication.LiveMember(init, cell, now);
      var before := OS.LiveIn(init, cell, now);
      forall i | 0 <= i < |before| && CellOf(last) == cell
        ensures before[i].resource != last.resource
      {
        assert before[i] in before;
        assert OS.KeyOf(before[i]) != OS.KeyOf(last);
      }
    }
  }

  lemma {:induction false} InsertDistinct(offers: seq<Offer>, offer: Offer)
    requires ResourcesDistinct(offers) && forall o :: o in offers ==> o.resource != offer.resource
    ensures ResourcesDistinct(OS.InsertByResource(offers, offer))
    ensures forall o :: o in OS.InsertByResource(offers, offer) <==> o in offers || o == offer
  {
    if offers != [] {
      var init, last := offers[..|offers| - 1], offers[|offers| - 1];
      assert offers == init + [last];
      InsertDistinct(init, offer);
      var inner := OS.InsertByResource(init, offer);
      forall i | 0 <= i < |inner|
        ensures inner[i].resource != last.resource
      {
        assert inner[i] in inner;
        if inner[i] != offer {
          var k :| 0 <= k < |init| && init[k] == inner[i];
          assert offers[k] == inner[i] && offers[|init|] == last;
        }
      }
    }
  }

  lemma {:induction false} SortKeepsDistinct(offers: seq<Offer>)
    requires ResourcesDistinct(offers)
    ensures ResourcesDistinct(OS.ByResource(offers))
    ensures forall o :: o in OS.ByResource(offers) <==> o in offers
  {
    if offers != [] {
      var init, last := offers[..|offers| - 1], offers[|offers| - 1];
      assert offers == init + [last];
      SortKeepsDistinct(init);
      forall o | o in init
        ensures o.resource != last.resource
      {
        var k :| 0 <= k < |init| && init[k] == o;
        assert offers[k] == o && offers[|init|] == last;
      }
      InsertDistinct(OS.ByResource(init), last);
    }
  }

  /** The store keeps one offer per resource and cell, and the query asks for one cell. */
  lemma EligibleOnePerResource(s: OS.Store, cell: Cell, now: Time)
    requires OS.Valid(s)
    ensures ResourcesDistinct(OS.Eligible(s, cell, now))
    ensures forall o :: o in OS.Eligible(s, cell, now) <==> o in s.offers && CellOf(o) == cell && o.expiresAt >= now
  {
    LiveResourcesDistinct(s.offers, cell, now);
    Publication.LiveMember(s.offers, cell, now);
    SortKeepsDistinct(OS.LiveIn(s.offers, cell, now));
  }

  lemma {:induction false} ReservedSameCell(
      entries: seq<Entry>, resource: string, cell: Cell, other: Cell, direction: Direction, scope: Scope)
    requires SameCell(cell, other, scope)
    ensures Reserved(entries, resource, cell, direction, scope) == Reserved(entries, resource, other, direction, scope)
  {
    if entries != [] {
      ReservedSameCell(entries[..|entries| - 1], resource, cell, other, direction, scope);
    }
  }

  /** Every offer this step may draw on for the resource and product has at most this capacity. */
  ghost predicate OffersWithin(
      step: Step, resource: string, cell: Cell, direction: Direction, scope: Scope, bound: real) {
    step.Reserve? && step.request.payload.direction == direction && SameCell(step.request.payload.cell, cell, scope) ==>
      forall o :: o in OffersFor(step) && o.resource == resource ==> Capacity(o, direction) <= bound
  }

  lemma RecordAdds(
      b: Book, request: Request, allocations: seq<Allocation>, participants: nat, now: Time, id: nat,
      resource: string, cell: Cell, direction: Direction, scope: Scope)
    ensures Reserved(Record(b, request, allocations, participants, now, id).book.entries, resource, cell, direction, scope)
         == Reserved(b.entries, resource, cell, direction, scope) +
            (if SameCell(request.payload.cell, cell, scope) && request.payload.direction == direction
             then PowerTo(allocations, resource) else 0.0)
  {
    var entries := Record(b, request, allocations, participants, now, id).book.entries;
    assert entries[..|entries| - 1] == b.entries;
  }

  lemma GrantWithin(
      entries: seq<Entry>, offers: seq<Offer>, cell: Cell, payload: Payload, scope: Scope, resource: string, bound: real)
    requires ResourcesDistinct(offers) && payload.power > 0.0 && SameCell(payload.cell, cell, scope)
    requires forall o :: o in offers ==> CellOf(o) == payload.cell
    requires forall o :: o in offers && o.resource == resource ==> Capacity(o, payload.direction) <= bound
    requires 0.0 <= bound && Reserved(entries, resource, cell, payload.direction, scope) <= bound
    ensures var grant := Allocate(entries, offers, payload.direction, scope, payload.power);
            Reserved(entries, resource, cell, payload.direction, scope) + PowerTo(grant.allocations, resource) <= bound
  {
    if k :| 0 <= k < |offers| && offers[k].resource == resource {
      assert offers[k] in offers;
      AllocateWithinFree(entries, offers, payload.direction, scope, payload.power, k);
    } else {
      AllocateOnlyOffered(entries, offers, payload.direction, scope, payload.power, resource);
    }
    ReservedSameCell(entries, resource, payload.cell, cell, payload.direction, scope);
  }

  lemma CreateWithin(b: Book, step: Step, resource: string, cell: Cell, direction: Direction, scope: Scope, bound: real)
    requires BookInv(b) && step.Reserve? && Enabled(b, step)
    requires OffersWithin(step, resource, cell, direction, scope, bound)
    requires 0.0 <= bound && Reserved(b.entries, resource, cell, direction, scope) <= bound
    ensures Reserved(Answer(b, step, scope).book.entries, resource, cell, direction, scope) <= bound
  {
    var payload, offers := step.request.payload, OffersFor(step);
    var e, after := Expire(b, step.now), Answer(b, step, scope).book;
    CreateIs(b, step.request, offers, step.minimum, scope, step.now, step.id);
    ExpireFades(b.entries, step.now);
    ReservedFades(b.entries, e.entries, resource, cell, direction, scope);
    if after != b && after != e {
      var allocations := Allocate(e.entries, offers, payload.direction, scope, payload.power).allocations;
      RecordAdds(e, step.request, allocations, |ParticipantsOf(offers)|, step.now, step.id, resource, cell, direction, scope);
      if SameCell(payload.cell, cell, scope) && payload.direction == direction {
        EligibleOnePerResource(step.store, payload.cell, step.now);
        GrantWithin(e.entries, offers, cell, payload, scope, resource, bound);
      }
    }
  }

  /** No overselling. Whatever was offered for a resource in a product at the reservations of a
      run is an upper bound of what the active reservations hold of it, at every moment. With
      offers that do not change, the bound is the offered capacity itself. */
  lemma {:induction false} NoOverselling(
      books: seq<Book>, steps: seq<Step>, scope: Scope, k: nat,
      resource: string, cell: Cell, direction: Direction, bound: real)
    requires Run(books, steps, scope) && k < |books| && 0.0 <= bound
    requires forall j :: 0 <= j < k ==> OffersWithin(steps[j], resource, cell, direction, scope, bound)
    ensures Reserved(books[k].entries, resource, cell, direction, scope) <= bound
  {
    if k > 0 {
      NoOverselling(books, steps, scope, k - 1, resource, cell, direction, bound);
      Reachable(books, steps, scope, k - 1);
      var b, step := books[k - 1], steps[k - 1];
      if step.Reserve? {
        CreateWithin(b, step, resource, cell, direction, scope, bound);
      } else {
        StepKeeps(b, step, scope);
        ReservedFades(b.entries, books[k].entries, resource, cell, direction, scope);
      }
    }
  }

  // ----- Idempotency and statuses over a run

  lemma {:induction false} FadeForever(books: seq<Book>, steps: seq<Step>, scope: Scope, j: nat, k: nat)
    requires Run(books, steps, scope) && j <= k < |books|
    ensures Fade(books[j].entries, books[k].entries)
  {
    if j < k {
      FadeForever(books, steps, scope, j, k - 1);
      Reachable(books, steps, scope, k - 1);
      StepKeeps(books[k - 1], steps[k - 1], scope);
      FadeTransitive(books[j].entries, books[k - 1].entries, books[k].entries);
    } else {
      FadeReflexive(books[j].entries);
    }
  }

  /** An entry never leaves a final status, and never changes its request. */
  lemma FinalForever(books: seq<Book>, steps: seq<Step>, scope: Scope, j: nat, k: nat, i: nat)
    requires Run(books, steps, scope) && j <= k < |books| && i < |books[j].entries|
    ensures i < |books[k].entries|
    ensures var before, after := books[j].entries[i].reservation, books[k].entries[i].reservation;
            && after == before.(status := after.status, allocatedPower := after.allocatedPower)
            && (before.status in {CANCELLED, EXPIRED, COMPLETED, FAILED} ==> after.status == before.status)
            && (after.status == CONFIRMED ==> before.status == CONFIRMED)
  {
    FadeForever(books, steps, scope, j, k);
    assert Fades(books[j].entries[i], books[k].entries[i]);
  }

  /** What the reservation, its allocations and its activation say agree in every reachable book. */
  lemma EntryAgrees(books: seq<Book>, steps: seq<Step>, scope: Scope, k: nat, i: nat)
    requires Run(books, steps, scope) && k < |books| && i < |books[k].entries|
    ensures var e, activations := books[k].entries[i], books[k].activations;
            var r := e.reservation;
            && r.allocatedPower == Power(e.allocations) <= r.requestedPower
            && (r.status != FAILED ==> r.requestedPower - TOLERANCE <= r.allocatedPower)
            && (r.status in {ACTIVATED, COMPLETED, FAILED} <==> r.id in activations)
            && (r.id in activations ==>
                  var a := activations[r.id];
                  && (r.status == ACTIVATED <==> a.status == ActPending)
                  && (r.status == COMPLETED <==> a.status == ActCompleted)
                  && (r.status == FAILED <==> a.status == ActFailed)
                  && (a.status != ActPending ==>
                        a.accepted + a.rejected == a.instructions && a.accepted == |e.allocations|)
                  && (a.status == ActFailed <==> a.rejected > 0))
    ensures forall j :: 0 <= j < |books[k].entries| && j != i ==>
              books[k].entries[j].reservation.id != books[k].entries[i].reservation.id
  {
    Reachable(books, steps, scope, k);
    assert EntryValid(books[k].entries[i]) && ActivationFits(books[k].entries[i], books[k].activations);
  }

  predicate Expires(step: Step) {
    step.Reserve? || step.Look? || step.CallOff? || step.ActivateNow? || step.BeginActivation? || step.Sweep?
  }

  /** Whether a transaction gets as far as expiring. */
  predicate Runs(b: Book, step: Step) {
    && Expires(step)
    && (step.ActivateNow? || step.BeginActivation? ==> step.id !in b.activations)
    && (step.Reserve? ==> ValidRequest(step.request.payload))
  }

  /** Once it has expired, a transaction leaves each entry or ends its confirmation. */
  ghost predicate LeavesOrEnds(entries: seq<Entry>, after: seq<Entry>) {
    |entries| <= |after| &&
    forall i :: 0 <= i < |entries| ==>
      || after[i].reservation == entries[i].reservation
      || (entries[i].reservation.status == CONFIRMED && after[i].reservation.status != CONFIRMED)
  }

  lemma StepLeavesOrEnds(b: Book, step: Step, scope: Scope)
    requires Runs(b, step)
    ensures LeavesOrEnds(Expire(b, step.now).entries, Answer(b, step, scope).book.entries)
  {
    if step.Reserve? {
      CreateExpires(b, step.request, OffersFor(step), step.minimum, scope, step.now, step.id);
    }
  }

  /** What it leaves confirmed of the earlier reservations was confirmed before, and is unexpired. */
  lemma StepExpires(b: Book, step: Step, scope: Scope, i: nat)
    requires Runs(b, step) && i < |b.entries|
    ensures i < |Answer(b, step, scope).book.entries|
    ensures var r := Answer(b, step, scope).book.entries[i].reservation;
            r.status == CONFIRMED ==> r == b.entries[i].reservation && step.now < r.expiresAt
  {
    ExpireEntriesAre(b.entries, step.now);
    StepLeavesOrEnds(b, step, scope);
  }

  lemma CreateExpires(b: Book, request: Request, offers: seq<Offer>, minimum: nat, scope: Scope, now: Time, id: nat)
    requires ValidRequest(request.payload)
    ensures Expire(b, now).entries <= Create(b, request, offers, minimum, scope, now, id).book.entries
  {
  }

  /** After such a transaction no earlier reservation is confirmed past its interval's start, or
      for longer than five minutes; the one it creates is past its deadline already exactly if its
      interval has begun. */
  lemma ConfirmedHasTime(books: seq<Book>, steps: seq<Step>, scope: Scope, k: nat, i: nat)
    requires Run(books, steps, scope) && k < |steps| && Runs(books[k], steps[k]) && i < |books[k + 1].entries|
    ensures var r := books[k + 1].entries[i].reservation;
            if i < |books[k].entries| then
              r.status == CONFIRMED ==>
                steps[k].now < r.cell.start && steps[k].now < r.createdAt + CONFIRMATION_TIME
            else
              && Answer(books[k], steps[k], scope).reply == Created(r)
              && r.status == CONFIRMED
              && (r.expiresAt <= steps[k].now <==> r.cell.start <= steps[k].now)
  {
    Reachable(books, steps, scope, k);
    if i < |books[k].entries| {
      StepExpires(books[k], steps[k], scope, i);
      assert EntryValid(books[k].entries[i]);
    } else {
      OnlyCreationAdds(books[k], steps[k], scope);
    }
  }

  lemma OnlyCreationAdds(b: Book, step: Step, scope: Scope)
    requires BookInv(b) && Enabled(b, step)
    ensures var after := Answer(b, step, scope);
            if step.Reserve? && after.reply.Created? then
              && |after.book.entries| == |b.entries| + 1
              && var r := after.book.entries[|b.entries|].reservation;
                 && after.reply == Created(r) && r.id == step.id
                 && r.status == CONFIRMED && r.cell == step.request.payload.cell
                 && r.expiresAt == Deadline(r.cell, step.now)
            else |after.book.entries| == |b.entries|
  {
    if step.Reserve? {
      CreateIs(b, step.request, OffersFor(step), step.minimum, scope, step.now, step.id);
      ExpireEntriesAre(b.entries, step.now);
    } else {
      StepKeeps(b, step, scope);
    }
  }

  /** An entry past its deadline under clocks that do not go back is ended by the first transaction
      that expires, and left alone by the others. */
  lemma LateStep(b: Book, step: Step, scope: Scope, i: nat)
    requires BookInv(b) && Enabled(b, step) && i < |b.entries|
    requires b.entries[i].reservation.status == CONFIRMED
    requires Expires(step) ==> b.entries[i].reservation.expiresAt <= step.now
    ensures i < |Answer(b, step, scope).book.entries|
    ensures Answer(b, step, scope).book.entries[i].reservation.status == if Runs(b, step) then EXPIRED else CONFIRMED
  {
    if Runs(b, step) {
      ExpireEntriesAre(b.entries, step.now);
      StepLeavesOrEnds(b, step, scope);
    } else if step.SettleActivation? {
      SettlementKeeps(b, step.id, step.accepted);
    }
  }

  ghost predicate SomeRan(books: seq<Book>, steps: seq<Step>, j: nat, k: nat)
    requires k <= |steps| && |books| == |steps| + 1
  {
    exists m :: j < m < k && Runs(books[m], steps[m])
  }

  /** The entry that step j created: confirmed until a transaction ran the clock, expired from then on. */
  ghost predicate LateEntry(books: seq<Book>, steps: seq<Step>, j: nat, k: nat)
    requires j < k < |books| == |steps| + 1 && steps[j].Reserve?
  {
    && |books[j].entries| < |books[k].entries|
    && var r := books[k].entries[|books[j].entries|].reservation;
       && r.id == steps[j].id && r.expiresAt <= steps[j].now
       && r.status == if SomeRan(books, steps, j, k) then EXPIRED else CONFIRMED
  }

  /** A creation for an interval that has begun. */
  predicate CreatesLate(b: Book, step: Step, scope: Scope) {
    && step.Reserve? && step.request.payload.cell.start <= step.now
    && Answer(b, step, scope).reply.Created?
  }

  lemma LateStarts(books: seq<Book>, steps: seq<Step>, scope: Scope, j: nat, next: nat)
    requires Run(books, steps, scope) && next == j + 1 <= |steps|
    requires CreatesLate(books[j], steps[j], scope)
    ensures LateEntry(books, steps, j, next)
  {
    Reachable(books, steps, scope, j);
    OnlyCreationAdds(books[j], steps[j], scope);
  }

  /** A reservation created for an interval that has begun is never activated, if clocks do not go
      back: it stays confirmed until the next transaction that expires, and is expired from then on. */
  lemma {:induction false} LateIsNeverActivated(books: seq<Book>, steps: seq<Step>, scope: Scope, j: nat, k: nat)
    requires Run(books, steps, scope) && j < k < |books|
    requires CreatesLate(books[j], steps[j], scope)
    requires forall m :: j < m < k && Expires(steps[m]) ==> steps[j].now <= steps[m].now
    ensures LateEntry(books, steps, j, k)
  {
    if k == j + 1 {
      LateStarts(books, steps, scope, j, k);
    } else {
      LateIsNeverActivated(books, steps, scope, j, k - 1);
      LateContinues(books, steps, scope, j, k - 1, k);
    }
  }

  lemma SomeRanNext(books: seq<Book>, steps: seq<Step>, j: nat, k: nat)
    requires j < k < |steps| && |books| == |steps| + 1
    ensures SomeRan(books, steps, j, k + 1) <==> SomeRan(books, steps, j, k) || Runs(books[k], steps[k])
  {
    if SomeRan(books, steps, j, k) {
      var m :| j < m < k && Runs(books[m], steps[m]);
      assert j < m < k + 1 && Runs(books[m], steps[m]);
    }
  }

  lemma LateContinues(books: seq<Book>, steps: seq<Step>, scope: Scope, j: nat, k: nat, next: nat)
    requires Run(books, steps, scope) && j < k < next == k + 1 <= |steps|
    requires steps[j].Reserve? && (Expires(steps[k]) ==> steps[j].now <= steps[k].now)
    requires LateEntry(books, steps, j, k)
    ensures LateEntry(books, steps, j, next)
  {
    Reachable(books, steps, scope, k);
    SomeRanNext(books, steps, j, k);
    LateNext(books[k], steps[k], scope, |books[j].entries|, steps[j].now);
  }

  /** Confirmed past its deadline, or expired. */
  predicate Late(r: Reservation, now: Time) {
    r.expiresAt <= now && (r.status == CONFIRMED || r.status == EXPIRED)
  }

  lemma LateNext(b: Book, step: Step, scope: Scope, i: nat, now: Time)
    requires BookInv(b) && Enabled(b, step) && i < |b.entries| && Late(b.entries[i].reservation, now)
    requires Expires(step) ==> now <= step.now
    ensures i < |Answer(b, step, scope).book.entries|
    ensures var before, after := b.entries[i].reservation, Answer(b, step, scope).book.entries[i].reservation;
            && after.id == before.id && after.expiresAt == before.expiresAt
            && after.status == if before.status == EXPIRED || Runs(b, step) then EXPIRED else CONFIRMED
  {
    StepKeeps(b, step, scope);
    assert Fades(b.entries[i], Answer(b, step, scope).book.entries[i]);
    if b.entries[i].reservation.status == CONFIRMED {
      LateStep(b, step, scope, i);
    }
  }

  /** Asking to activate it answers that it has expired, however soon. */
  lemma LateIsRefused(
      books: seq<Book>, steps: seq<Step>, scope: Scope, j: nat, k: nat, accepted: set<nat>, now: Time)
    requires Run(books, steps, scope) && j < k < |books|
    requires CreatesLate(books[j], steps[j], scope) && steps[j].now <= now
    requires forall m :: j < m < k && Expires(steps[m]) ==> steps[j].now <= steps[m].now
    ensures Activate(books[k], steps[j].id, accepted, now).reply == WrongState(EXPIRED)
    ensures Begin(books[k], steps[j].id, now).reply == WrongState(EXPIRED)
  {
    LateIsNeverActivated(books, steps, scope, j, k);
    Reachable(books, steps, scope, k);
    ExpiredIsRefused(books[k], |books[j].entries|, accepted, now);
  }

  lemma ExpiredIsRefused(b: Book, i: nat, accepted: set<nat>, now: Time)
    requires BookInv(b) && i < |b.entries|
    requires var r := b.entries[i].reservation;
             r.status == EXPIRED || (r.status == CONFIRMED && r.expiresAt <= now)
    ensures Activate(b, b.entries[i].reservation.id, accepted, now).reply == WrongState(EXPIRED)
    ensures Begin(b, b.entries[i].reservation.id, now).reply == WrongState(EXPIRED)
  {
    var id := b.entries[i].reservation.id;
    assert ActivationFits(b.entries[i], b.activations);
    ExpireEntriesAre(b.entries, now);
    ExpireKeepsIndex(b.entries, now, id);
    assert IndexOf(b.entries, id) == i;
  }

  lemma StepKeepsKeys(b: Book, step: Step, scope: Scope, key: string)
    requires key in b.keys
    ensures key in Answer(b, step, scope).book.keys && Answer(b, step, scope).book.keys[key] == b.keys[key]
  {
    if step.Reserve? {
      CreateIs(b, step.request, OffersFor(step), step.minimum, scope, step.now, step.id);
    }
  }

  lemma {:induction false} KeysForever(books: seq<Book>, steps: seq<Step>, scope: Scope, j: nat, k: nat, key: string)
    requires Run(books, steps, scope) && j <= k < |books| && key in books[j].keys
    ensures key in books[k].keys && books[k].keys[key] == books[j].keys[key]
  {
    if j < k {
      KeysForever(books, steps, scope, j, k - 1, key);
      StepKeepsKeys(books[k - 1], steps[k - 1], scope, key);
    }
  }

  lemma KnownKey(b: Book, step: Step, scope: Scope)
    requires BookInv(b) && step.Reserve? && TenantKey(step.request) in b.keys
    ensures var claim, reply := b.keys[TenantKey(step.request)], Answer(b, step, scope).reply;
            if claim.payload == step.request.payload then reply.Replayed? && reply.reservation.id == claim.id
            else reply == KeyConflict || reply == InvalidRequest
    ensures |Answer(b, step, scope).book.entries| == |b.entries|
  {
    var claim := b.keys[TenantKey(step.request)];
    assert KeyFits(b.entries, claim);
    ExpireEntriesAre(b.entries, step.now);
    ExpireKeepsIndex(b.entries, step.now, claim.id);
  }

  /** Idempotency. Once a key was used for a reservation, using it again in any later state
      answers with that very reservation, or with a conflict if the request differs. */
  lemma ReplayOrConflict(books: seq<Book>, steps: seq<Step>, scope: Scope, j: nat, k: nat)
    requires Run(books, steps, scope) && j < k < |steps|
    requires steps[j].Reserve? && Answer(books[j], steps[j], scope).reply.Created?
    requires steps[k].Reserve? && TenantKey(steps[k].request) == TenantKey(steps[j].request)
    ensures var reply := Answer(books[k], steps[k], scope).reply;
            if steps[k].request.payload == steps[j].request.payload
            then reply.Replayed? && reply.reservation.id == steps[j].id
            else reply == KeyConflict || reply == InvalidRequest
    ensures |books[k + 1].entries| == |books[k].entries|
  {
    var key := TenantKey(steps[j].request);
    CreateIs(books[j], steps[j].request, OffersFor(steps[j]), steps[j].minimum, scope, steps[j].now, steps[j].id);
    assert books[j + 1].keys[key] == Claim(steps[j].request.payload, steps[j].id);
    KeysForever(books, steps, scope, j + 1, k, key);
    Reachable(books, steps, scope, k);
    KnownKey(books[k], steps[k], scope);
  }

  /** Tenant and key are joined by a colon, so two tenants can share a key exactly if one is the
      other up to a colon in it. */
  lemma TenantsShareKeysExactly(t: string, u: string)
    requires t != u
    ensures (exists j, k :: j != "" && k != "" && JoinedKey(t, j) == JoinedKey(u, k)) <==>
              t + ":" <= u || u + ":" <= t
  {
    if j, k :| j != "" && k != "" && JoinedKey(t, j) == JoinedKey(u, k) {
      SharedKeyHasPrefix(t, j, u, k);
    }
    if t + ":" <= u {
      PrefixSharesKey(t, u, "k");
    }
    if u + ":" <= t {
      PrefixSharesKey(u, t, "k");
    }
  }

  lemma SharedKeyHasPrefix(t: string, j: string, u: string, k: string)
    requires t != u && JoinedKey(t, j) == JoinedKey(u, k)
    ensures t + ":" <= u || u + ":" <= t
  {
    var joined := JoinedKey(t, j);
    assert joined[|t|] == ':' == joined[|u|];
    assert t == joined[..|t|] && u == joined[..|u|];
    if |t| < |u| {
      assert t + ":" == joined[..|t| + 1] == u[..|t| + 1];
    } else if |u| < |t| {
      assert u + ":" == joined[..|u| + 1] == t[..|u| + 1];
    }
  }

  lemma PrefixSharesKey(t: string, u: string, k: string)
    requires t + ":" <= u
    ensures JoinedKey(t, u[|t| + 1..] + ":" + k) == JoinedKey(u, k)
  {
    assert u == t + ":" + u[|t| + 1..];
  }

  /** A tenant that comes second with a shared key gets a conflict in any later state. */
  lemma SharedKeyConflicts(books: seq<Book>, steps: seq<Step>, scope: Scope, j: nat, k: nat)
    requires Run(books, steps, scope) && j < k < |steps|
    requires steps[j].Reserve? && Answer(books[j], steps[j], scope).reply.Created?
    requires steps[k].Reserve? && TenantKey(steps[k].request) == TenantKey(steps[j].request)
    requires ValidRequest(steps[k].request.payload)
    requires steps[k].request.payload.cell.tenant != steps[j].request.payload.cell.tenant
    ensures Answer(books[k], steps[k], scope).reply == KeyConflict
  {
    ReplayOrConflict(books, steps, scope, j, k);
    ValidIsNotInvalid(books[k], steps[k], scope);
  }

  lemma ValidIsNotInvalid(b: Book, step: Step, scope: Scope)
    requires step.Reserve? && ValidRequest(step.request.payload)
    ensures Answer(b, step, scope).reply != InvalidRequest
  {
  }

  lemma SettlementKeepsActivation(b: Book, other: nat, accepted: set<nat>, id: nat)
    requires BookInv(b) && other in b.activations && b.activations[other].status == ActPending
    requires id in b.activations && id != other
    ensures var i := IndexOf(b.entries, other);
            && i < |b.entries|
            && id in Settle(b, i, accepted).book.activations
            && Settle(b, i, accepted).book.activations[id] == b.activations[id]
  {
    SettlementKeeps(b, other, accepted);
  }

  lemma StepKeepsActivation(b: Book, step: Step, scope: Scope, id: nat)
    requires BookInv(b) && Enabled(b, step) && id in b.activations
    requires b.activations[id].status != ActPending || b.activations[id].instructions == 0
    ensures id in Answer(b, step, scope).book.activations
    ensures Answer(b, step, scope).book.activations[id] == b.activations[id]
  {
    if step.Reserve? {
      CreateIs(b, step.request, OffersFor(step), step.minimum, scope, step.now, step.id);
    } else if step.SettleActivation? {
      SettlementKeepsActivation(b, step.id, step.accepted, id);
    } else {
      OthersKeepActivation(b, step, scope, id);
    }
  }

  lemma OthersKeepActivation(b: Book, step: Step, scope: Scope, id: nat)
    requires !step.Reserve? && !step.SettleActivation? && id in b.activations
    ensures id in Answer(b, step, scope).book.activations
    ensures Answer(b, step, scope).book.activations[id] == b.activations[id]
  {
  }

  lemma ActivationStays(books: seq<Book>, steps: seq<Step>, scope: Scope, k: nat, id: nat)
    requires Run(books, steps, scope) && k < |steps| && BookInv(books[k])
    requires id in books[k].activations
    requires books[k].activations[id].status != ActPending || books[k].activations[id].instructions == 0
    ensures id in books[k + 1].activations && books[k + 1].activations[id] == books[k].activations[id]
  {
    StepKeepsActivation(books[k], steps[k], scope, id);
  }

  /** An activation without instructions has no outcome that could settle it: it stays pending. */
  lemma {:induction false} EmptyStaysPending(books: seq<Book>, steps: seq<Step>, scope: Scope, j: nat, k: nat, id: nat)
    requires Run(books, steps, scope) && j <= k < |books|
    requires id in books[j].activations && books[j].activations[id] == Activation(ActPending, 0, 0, 0)
    ensures id in books[k].activations && books[k].activations[id] == Activation(ActPending, 0, 0, 0)
  {
    if j < k {
      EmptyStaysPending(books, steps, scope, j, k - 1, id);
      Reachable(books, steps, scope, k - 1);
      ActivationStays(books, steps, scope, k - 1, id);
    }
  }

  /** A settled activation is final. */
  lemma {:induction false} SettledForever(books: seq<Book>, steps: seq<Step>, scope: Scope, j: nat, k: nat, id: nat)
    requires Run(books, steps, scope) && j <= k < |books|
    requires id in books[j].activations && books[j].activations[id].status != ActPending
    ensures id in books[k].activations && books[k].activations[id] == books[j].activations[id]
  {
    if j < k {
      SettledForever(books, steps, scope, j, k - 1, id);
      Reachable(books, steps, scope, k - 1);
      ActivationStays(books, steps, scope, k - 1, id);
    }
  }

  /** Asking for it again, at any later time, answers the same and changes nothing. */
  lemma ActivationIsIdempotent(
      books: seq<Book>, steps: seq<Step>, scope: Scope, j: nat, k: nat, id: nat, accepted: set<nat>, now: Time)
    requires Run(books, steps, scope) && j <= k < |books|
    requires id in books[j].activations && books[j].activations[id].status != ActPending
    ensures Activate(books[k], id, accepted, now) == Result(books[k], ActivatedAs(books[j].activations[id]))
    ensures Begin(books[k], id, now) == Result(books[k], ActivatedAs(books[j].activations[id]))
  {
    SettledForever(books, steps, scope, j, k, id);
  }
}
