/** What each transaction of the ledger answers, and what it does to the reservation it names: over
    every run, in terms of the books before and after. */
module LedgerAnswers {
  import opened Domain
  import opened Ledger
  import opened LedgerRuns

  type Offer = Domain.Offer

  // ----- What is kept of an activation

  /** The positions in p, in order, are those accepted, and what is kept is what stood there. */
  ghost predicate Picks(kept: seq<Allocation>, allocations: seq<Allocation>, accepted: set<nat>, p: seq<nat>) {
    && |p| == |kept|
    && (forall i, j :: 0 <= i < j < |p| ==> p[i] < p[j])
    && (forall i :: 0 <= i < |p| ==> p[i] < |allocations| && p[i] in accepted && kept[i] == allocations[p[i]])
    && (forall k :: 0 <= k < |allocations| && k in accepted ==> k in p)
  }

  /** The kept allocations are, in order, exactly those whose instruction was accepted. */
  lemma {:induction false} AcceptedExactly(allocations: seq<Allocation>, accepted: set<nat>) returns (p: seq<nat>)
    ensures Picks(AcceptedOf(allocations, accepted), allocations, accepted, p)
  {
    p := [];
    if allocations != [] {
      var init, last := allocations[..|allocations| - 1], allocations[|allocations| - 1];
      p := AcceptedExactly(init, accepted);
      assert allocations == init + [last];
      PicksNext(AcceptedOf(init, accepted), init, accepted, p, last);
      if |init| in accepted {
        p := p + [|init|];
      } else {
        assert AcceptedOf(allocations, accepted) == AcceptedOf(init, accepted);
      }
    }
  }

  lemma PicksNext(kept: seq<Allocation>, allocations: seq<Allocation>, accepted: set<nat>, p: seq<nat>, next: Allocation)
    requires Picks(kept, allocations, accepted, p)
    ensures if |allocations| in accepted then Picks(kept + [next], allocations + [next], accepted, p + [|allocations|])
            else Picks(kept, allocations + [next], accepted, p)
  {
    var n := |allocations|;
    assert (allocations + [next])[..n] == allocations;
    if n in accepted {
      var longer := p + [n];
      assert longer[|p|] == n;
      forall k | 0 <= k <= n && k in accepted
        ensures k in longer
      {
        if k < n {
          assert k in p;
        }
      }
    }
  }

  function AcceptedBelow(accepted: set<nat>, n: nat): set<nat> {
    set k | k in accepted && k < n
  }

  lemma {:induction false} AcceptedCount(allocations: seq<Allocation>, accepted: set<nat>)
    ensures |AcceptedOf(allocations, accepted)| == |AcceptedBelow(accepted, |allocations|)|
    ensures |AcceptedOf(allocations, accepted)| == |allocations| <==>
              forall k :: 0 <= k < |allocations| ==> k in accepted
  {
    if allocations != [] {
      var n := |allocations| - 1;
      AcceptedCount(allocations[..n], accepted);
      assert AcceptedBelow(accepted, n + 1) == AcceptedBelow(accepted, n) + (if n in accepted then {n} else {});
    } else {
      assert AcceptedBelow(accepted, 0) == {};
    }
  }

  /** The book's account of an activation whose accepted instructions are these. */
  ghost predicate SettledAs(e: Entry, e': Entry, activation: Activation, accepted: set<nat>, p: seq<nat>) {
    var n := |e.allocations|;
    && Picks(e'.allocations, e.allocations, accepted, p)
    && activation.instructions == n
    && activation.accepted == |AcceptedBelow(accepted, n)|
    && activation.accepted + activation.rejected == n
    && (activation.status == ActCompleted <==> forall k :: 0 <= k < n ==> k in accepted)
    && (activation.status == ActFailed <==> exists k :: 0 <= k < n && k !in accepted)
    && e'.reservation.allocatedPower == Power(e'.allocations)
    && e'.reservation.status == (if activation.status == ActCompleted then COMPLETED else FAILED)
  }

  lemma SettleIs(b: Book, i: nat, accepted: set<nat>) returns (p: seq<nat>)
    requires i < |b.entries|
    ensures var id, after := b.entries[i].reservation.id, Settle(b, i, accepted);
            && |after.book.entries| == |b.entries|
            && id in after.book.activations && after.reply == ActivatedAs(after.book.activations[id])
            && SettledAs(b.entries[i], after.book.entries[i], after.book.activations[id], accepted, p)
            && (forall j :: 0 <= j < |b.entries| && j != i ==> after.book.entries[j] == b.entries[j])
            && after.book.entries[i].reservation.id == id
  {
    p := AcceptedExactly(b.entries[i].allocations, accepted);
    AcceptedCount(b.entries[i].allocations, accepted);
  }

  // ----- Reservations by identifier

  predicate Lapsed(r: Reservation, now: Time) {
    r.status == CONFIRMED && r.expiresAt <= now
  }

  /** The entry as a transaction at this clock finds it. */
  function Found(e: Entry, now: Time): Entry {
    if Lapsed(e.reservation, now) then e.(reservation := e.reservation.(status := EXPIRED)) else e
  }

  /** All entries but one are only expired. */
  ghost predicate OthersFound(before: seq<Entry>, after: seq<Entry>, i: nat, now: Time) {
    && |after| == |before|
    && forall j :: 0 <= j < |before| && j != i ==> after[j] == Found(before[j], now)
  }

  predicate Unknown(entries: seq<Entry>, id: nat) {
    forall j :: 0 <= j < |entries| ==> entries[j].reservation.id != id
  }

  lemma IndexIs(entries: seq<Entry>, i: nat)
    requires IdsDistinct(entries) && i < |entries|
    ensures IndexOf(entries, entries[i].reservation.id) == i
  {
  }

  lemma UnknownIs(entries: seq<Entry>, id: nat)
    ensures Unknown(entries, id) <==> IndexOf(entries, id) == |entries|
  {
  }

  lemma ExpiredIs(b: Book, now: Time, id: nat)
    ensures var e := Expire(b, now);
            && OthersFound(b.entries, e.entries, |b.entries|, now)
            && IndexOf(e.entries, id) == IndexOf(b.entries, id)
            && e.keys == b.keys && e.activations == b.activations
  {
    ExpireEntriesAre(b.entries, now);
    ExpireKeepsIndex(b.entries, now, id);
  }

  /** A look answers with the reservation as it is found, and only for an identifier in the book. */
  lemma LookAnswers(books: seq<Book>, steps: seq<Step>, scope: Scope, k: nat, i: nat)
    requires Run(books, steps, scope) && k < |steps| && steps[k].Look?
    ensures Answer(books[k], steps[k], scope).reply == NotFound <==> Unknown(books[k].entries, steps[k].id)
    ensures i < |books[k].entries| && books[k].entries[i].reservation.id == steps[k].id ==>
              && i < |books[k + 1].entries|
              && Answer(books[k], steps[k], scope).reply == Answered(books[k + 1].entries[i].reservation)
              && books[k + 1].entries[i] == Found(books[k].entries[i], steps[k].now)
  {
    Reachable(books, steps, scope, k);
    ExpiredIs(books[k], steps[k].now, steps[k].id);
    UnknownIs(books[k].entries, steps[k].id);
    if i < |books[k].entries| && books[k].entries[i].reservation.id == steps[k].id {
      IndexIs(books[k].entries, i);
    }
  }

  /** A cancellation ends the reservation it names if it is found confirmed, and is refused with its
      status otherwise; nothing else but expiry happens. */
  lemma CallOffAnswers(books: seq<Book>, steps: seq<Step>, scope: Scope, k: nat, i: nat)
    requires Run(books, steps, scope) && k < |steps| && steps[k].CallOff?
    ensures Answer(books[k], steps[k], scope).reply == NotFound <==> Unknown(books[k].entries, steps[k].id)
    ensures i < |books[k].entries| && books[k].entries[i].reservation.id == steps[k].id ==>
              var found, now := Found(books[k].entries[i], steps[k].now), steps[k].now;
              && OthersFound(books[k].entries, books[k + 1].entries, i, now)
              && var after := books[k + 1].entries[i];
                 if found.reservation.status == CONFIRMED then
                   && after == found.(reservation := found.reservation.(status := CANCELLED))
                   && Answer(books[k], steps[k], scope).reply == Answered(after.reservation)
                 else after == found && Answer(books[k], steps[k], scope).reply == WrongState(found.reservation.status)
  {
    Reachable(books, steps, scope, k);
    ExpiredIs(books[k], steps[k].now, steps[k].id);
    UnknownIs(books[k].entries, steps[k].id);
    if i < |books[k].entries| && books[k].entries[i].reservation.id == steps[k].id {
      IndexIs(books[k].entries, i);
    }
  }

  /** An activation in memory settles the reservation it names if it is found confirmed: what is kept
      are exactly the allocations accepted, and it is completed exactly if all of them were. */
  lemma ActivateNowAnswers(books: seq<Book>, steps: seq<Step>, scope: Scope, k: nat, i: nat) returns (p: seq<nat>)
    requires Run(books, steps, scope) && k < |steps| && steps[k].ActivateNow? && steps[k].id !in books[k].activations
    ensures Answer(books[k], steps[k], scope).reply == NotFound <==> Unknown(books[k].entries, steps[k].id)
    ensures i < |books[k].entries| && books[k].entries[i].reservation.id == steps[k].id ==>
              var found, id := Found(books[k].entries[i], steps[k].now), steps[k].id;
              && OthersFound(books[k].entries, books[k + 1].entries, i, steps[k].now)
              && var after := books[k + 1].entries[i];
                 if found.reservation.status == CONFIRMED then
                   && id in books[k + 1].activations
                   && SettledAs(found, after, books[k + 1].activations[id], steps[k].accepted, p)
                   && Answer(books[k], steps[k], scope).reply == ActivatedAs(books[k + 1].activations[id])
                 else after == found && Answer(books[k], steps[k], scope).reply == WrongState(found.reservation.status)
  {
    p := [];
    Reachable(books, steps, scope, k);
    ExpiredIs(books[k], steps[k].now, steps[k].id);
    UnknownIs(books[k].entries, steps[k].id);
    if i < |books[k].entries| && books[k].entries[i].reservation.id == steps[k].id {
      IndexIs(books[k].entries, i);
      p := SettleIs(Expire(books[k], steps[k].now), i, steps[k].accepted);
    }
  }

  /** A durable activation only opens what it names: pending, with an instruction for each allocation. */
  lemma BeginAnswers(books: seq<Book>, steps: seq<Step>, scope: Scope, k: nat, i: nat)
    requires Run(books, steps, scope) && k < |steps| && steps[k].BeginActivation? && steps[k].id !in books[k].activations
    ensures Answer(books[k], steps[k], scope).reply == NotFound <==> Unknown(books[k].entries, steps[k].id)
    ensures i < |books[k].entries| && books[k].entries[i].reservation.id == steps[k].id ==>
              var found, id := Found(books[k].entries[i], steps[k].now), steps[k].id;
              && OthersFound(books[k].entries, books[k + 1].entries, i, steps[k].now)
              && var after := books[k + 1].entries[i];
                 if found.reservation.status == CONFIRMED then
                   && after == found.(reservation := found.reservation.(status := ACTIVATED))
                   && id in books[k + 1].activations
                   && books[k + 1].activations[id] == Activation(ActPending, |found.allocations|, 0, 0)
                   && Answer(books[k], steps[k], scope).reply == ActivatedAs(books[k + 1].activations[id])
                 else after == found && Answer(books[k], steps[k], scope).reply == WrongState(found.reservation.status)
  {
    Reachable(books, steps, scope, k);
    ExpiredIs(books[k], steps[k].now, steps[k].id);
    UnknownIs(books[k].entries, steps[k].id);
    if i < |books[k].entries| && books[k].entries[i].reservation.id == steps[k].id {
      IndexIs(books[k].entries, i);
    }
  }

  /** And the outbox settles it by what was accepted. */
  lemma SettlementAnswers(books: seq<Book>, steps: seq<Step>, scope: Scope, k: nat) returns (i: nat, p: seq<nat>)
    requires Run(books, steps, scope) && k < |steps| && steps[k].SettleActivation?
    ensures i < |books[k].entries| && books[k].entries[i].reservation.id == steps[k].id
    ensures |books[k + 1].entries| == |books[k].entries| && steps[k].id in books[k + 1].activations
    ensures SettledAs(books[k].entries[i], books[k + 1].entries[i], books[k + 1].activations[steps[k].id], steps[k].accepted, p)
    ensures forall j :: 0 <= j < |books[k].entries| && j != i ==> books[k + 1].entries[j] == books[k].entries[j]
  {
    Reachable(books, steps, scope, k);
    SettlementKeeps(books[k], steps[k].id, steps[k].accepted);
    i := IndexOf(books[k].entries, steps[k].id);
    p := SettleIs(books[k], i, steps[k].accepted);
  }

  // ----- Creation

  /** A creation that fails for capacity names exactly what is missing. */
  lemma {:induction false} AllocateMissing(
      entries: seq<Entry>, offers: seq<Offer>, direction: Direction, scope: Scope, remaining: real)
    requires remaining >= 0.0 && Allocate(entries, offers, direction, scope, remaining).remaining > TOLERANCE
    ensures Allocate(entries, offers, direction, scope, remaining).remaining ==
              remaining - FreeTotal(entries, offers, direction, scope)
  {
    if offers != [] {
      FreeTotalHead(entries, offers, direction, scope);
      ShareIs(entries, offers[0], direction, scope, remaining);
      AllocateMissing(entries, offers[1..], direction, scope,
                      remaining - Power(Share(entries, offers[0], direction, scope, remaining)));
    }
  }

  /** Offers are drawn on in order: one that gives anything comes after offers that gave all they had. */
  lemma {:induction false} AllocateInOrder(
      entries: seq<Entry>, offers: seq<Offer>, direction: Direction, scope: Scope, remaining: real, i: nat, j: nat)
    requires remaining >= 0.0 && ResourcesDistinct(offers) && i < j < |offers|
    requires PowerTo(Allocate(entries, offers, direction, scope, remaining).allocations, offers[j].resource) > 0.0
    ensures PowerTo(Allocate(entries, offers, direction, scope, remaining).allocations, offers[i].resource)
         == Free(entries, offers[i], direction, scope)
  {
    var rest := remaining - Power(Share(entries, offers[0], direction, scope, remaining));
    ShareIs(entries, offers[0], direction, scope, remaining);
    ShareTo(entries, offers[0], direction, scope, remaining, offers[i].resource);
    ShareTo(entries, offers[0], direction, scope, remaining, offers[j].resource);
    AllocatePowerTo(entries, offers, direction, scope, remaining, offers[i].resource, rest);
    AllocatePowerTo(entries, offers, direction, scope, remaining, offers[j].resource, rest);
    if i == 0 {
      AllocateOnlyOffered(entries, offers[1..], direction, scope, rest, offers[0].resource);
    } else {
      AllocateInOrder(entries, offers[1..], direction, scope, rest, i - 1, j - 1);
    }
  }

  /** An allocation carries the baseline and the version of the offer it is drawn on. */
  ghost predicate DrawnOn(a: Allocation, offers: seq<Offer>) {
    exists o :: o in offers && a.resource == o.resource && a.baseline == o.baseline && a.sourceVersion == o.sourceVersion
  }

  lemma {:induction false} AllocateDraws(
      entries: seq<Entry>, offers: seq<Offer>, direction: Direction, scope: Scope, remaining: real, a: Allocation)
    requires a in Allocate(entries, offers, direction, scope, remaining).allocations
    ensures DrawnOn(a, offers)
  {
    var head := Share(entries, offers[0], direction, scope, remaining);
    var rest := remaining - Power(head);
    if a in head {
      assert offers[0] in offers;
    } else {
      AllocateDraws(entries, offers[1..], direction, scope, rest, a);
      var o :| o in offers[1..] && a.resource == o.resource && a.baseline == o.baseline && a.sourceVersion == o.sourceVersion;
      assert o in offers;
    }
  }

  /** Each of the answers of a creation, exactly. */
  lemma CreateAnswers(
      b: Book, request: Request, offers: seq<Offer>, minimum: nat, scope: Scope, now: Time, id: nat)
    ensures var payload, after := request.payload, Create(b, request, offers, minimum, scope, now, id);
            var unused, free := ValidRequest(payload) && TenantKey(request) !in b.keys,
                               FreeTotal(Expire(b, now).entries, offers, payload.direction, scope);
            && (after.reply == InvalidRequest <==> !ValidRequest(payload))
            && (after.reply == BelowThreshold <==> unused && |ParticipantsOf(offers)| < minimum)
            && (after.reply.NoCapacity? <==>
                  unused && |ParticipantsOf(offers)| >= minimum && free < payload.power - TOLERANCE)
            && (after.reply.NoCapacity? ==> after.reply.missing == payload.power - free)
            && (after.reply.Created? <==>
                  unused && |ParticipantsOf(offers)| >= minimum && free >= payload.power - TOLERANCE)
            && (!after.reply.Created? ==> after.book.keys == b.keys && |after.book.entries| == |b.entries|)
  {
    ExpireEntriesAre(b.entries, now);
    if ValidRequest(request.payload) {
      AllocateRefuses(Expire(b, now).entries, offers, request.payload.direction, scope, request.payload.power);
      if Allocate(Expire(b, now).entries, offers, request.payload.direction, scope, request.payload.power).remaining > TOLERANCE {
        AllocateMissing(Expire(b, now).entries, offers, request.payload.direction, scope, request.payload.power);
      }
    }
  }

  /** The reservation a creation adds serves the request, names the whole cohort, and draws on the offers. */
  lemma CreatedServes(b: Book, request: Request, offers: seq<Offer>, minimum: nat, scope: Scope, now: Time, id: nat)
    requires Create(b, request, offers, minimum, scope, now, id).reply.Created?
    ensures var after := Create(b, request, offers, minimum, scope, now, id);
            && |after.book.entries| == |b.entries| + 1
            && after.book.keys == b.keys[TenantKey(request) := Claim(request.payload, id)]
            && var e := after.book.entries[|b.entries|];
               && after.reply == Created(e.reservation)
               && Serves(e.reservation, request.payload) && e.reservation.id == id
               && e.reservation.participants == |ParticipantsOf(offers)|
               && e.reservation.createdAt == now
               && forall a :: a in e.allocations ==> DrawnOn(a, offers)
  {
    ExpireEntriesAre(b.entries, now);
    CreateIs(b, request, offers, minimum, scope, now, id);
    var allocations := Create(b, request, offers, minimum, scope, now, id).book.entries[|b.entries|].allocations;
    forall a | a in allocations
      ensures DrawnOn(a, offers)
    {
      AllocateDraws(Expire(b, now).entries, offers, request.payload.direction, scope, request.payload.power, a);
    }
  }
}
