/** What suppresses a cell, and nothing else: the exact effect of a query, an upsert and a removal on
    the suppressed cells (src/der_flex/domain/store.py:160-226 and 298-330). */
module Suppression {
  import opened Domain
  import opened OfferStore
  import opened Publication
  import opened PublishedNumbers

  type Offer = Domain.Offer

  // ----- Cohorts in the course of a query

  /** The participants a cell was published for, or is by a query at this clock. */
  function KnownCohort(s: Store, cell: Cell, now: Time): set<string> {
    if cell in s.cohorts then s.cohorts[cell] else CohortOf(LiveIn(s.offers, cell, now))
  }

  /** Published before, or answered among these. */
  predicate IsPublished(s: Store, answered: seq<Aggregate>, cell: Cell) {
    cell in s.cohorts || Answered(answered, cell)
  }

  lemma PublishRecords(s: Store, cell: Cell, now: Time, minimum: nat, d: Cell)
    ensures var answer := Publish(s, cell, now, minimum);
            && answer.store.offers == s.offers
            && (d in answer.store.cohorts <==> IsPublished(s, answer.aggregates, d))
            && (d in answer.store.cohorts ==> answer.store.cohorts[d] == KnownCohort(s, d, now))
  {
    var answer := Publish(s, cell, now, minimum);
    if answer.aggregates != [] {
      assert answer.aggregates[0].cell == cell;
    }
  }

  /** A query records exactly the cells it answers, each with its live participants. */
  lemma {:induction false} QueryRecords(s: Store, cells: seq<Cell>, now: Time, minimum: nat, d: Cell)
    ensures var answer := PublishAll(s, cells, now, minimum);
            && answer.store.offers == s.offers
            && (d in answer.store.cohorts <==> IsPublished(s, answer.aggregates, d))
            && (d in answer.store.cohorts ==> answer.store.cohorts[d] == KnownCohort(s, d, now))
  {
    if cells != [] {
      var init, last := cells[..|cells| - 1], cells[|cells| - 1];
      var before := PublishAll(s, init, now, minimum);
      QueryRecords(s, init, now, minimum, d);
      PublishRecords(before.store, last, now, minimum, d);
      AnsweredAppend(before.aggregates, Publish(before.store, last, now, minimum).aggregates, d);
    }
  }

  // ----- What a query suppresses

  /** The cell's participants differ from those it was published for, or from those of a published
      cell that touches it in time. */
  ghost predicate Clashes(s: Store, answered: seq<Aggregate>, cell: Cell, now: Time) {
    var cohort := CohortOf(LiveIn(s.offers, cell, now));
    || (cell in s.cohorts && s.cohorts[cell] != cohort)
    || exists d :: IsPublished(s, answered, d) && Touches(d, cell) && KnownCohort(s, d, now) != cohort
  }

  lemma DiffersExactly(s: Store, init: seq<Cell>, now: Time, minimum: nat, cell: Cell, cohort: set<string>)
    ensures var before := PublishAll(s, init, now, minimum);
            DiffersNextDoor(before.store.cohorts, cell, cohort) <==>
              exists d :: IsPublished(s, before.aggregates, d) && Touches(d, cell) && KnownCohort(s, d, now) != cohort
  {
    var before := PublishAll(s, init, now, minimum);
    forall d
      ensures d in before.store.cohorts <==> IsPublished(s, before.aggregates, d)
      ensures d in before.store.cohorts ==> before.store.cohorts[d] == KnownCohort(s, d, now)
    {
      QueryRecords(s, init, now, minimum, d);
    }
  }

  lemma UnseenIsUnanswered(s: Store, cells: seq<Cell>, now: Time, minimum: nat, cell: Cell)
    requires CellsDistinct(cells) && cell !in cells
    ensures var answer := PublishAll(s, cells, now, minimum);
            !Answered(answer.aggregates, cell) && (cell in answer.store.suppressed <==> cell in s.suppressed)
  {
    PublishAllExactly(s, cells, now, minimum, cell);
  }

  /** One pass suppresses its own cell exactly if it clashes with what was published by then. */
  lemma PassSuppressesExactly(s: Store, init: seq<Cell>, now: Time, minimum: nat, cell: Cell)
    requires CellsDistinct(init) && cell !in init
    ensures var before := PublishAll(s, init, now, minimum);
            cell in Publish(before.store, cell, now, minimum).store.suppressed <==>
              cell in s.suppressed || Clashes(s, before.aggregates, cell, now)
  {
    UnseenIsUnanswered(s, init, now, minimum, cell);
    QueryRecords(s, init, now, minimum, cell);
    DiffersExactly(s, init, now, minimum, cell, CohortOf(LiveIn(s.offers, cell, now)));
  }

  lemma {:induction false} QuerySuppression(s: Store, cells: seq<Cell>, now: Time, minimum: nat, k: nat)
    requires CellsDistinct(cells) && k < |cells|
    ensures cells[k] in PublishAll(s, cells, now, minimum).store.suppressed <==>
              cells[k] in s.suppressed || Clashes(s, PublishAll(s, cells[..k], now, minimum).aggregates, cells[k], now)
  {
    var n := |cells| - 1;
    var init, last := cells[..n], cells[n];
    assert cells[n] == last && forall i :: 0 <= i < n ==> init[i] == cells[i];
    var before := PublishAll(s, init, now, minimum);
    if k == n {
      PassSuppressesExactly(s, init, now, minimum, last);
    } else {
      QuerySuppression(s, init, now, minimum, k);
      PublishExactly(before.store, last, now, minimum, cells[k]);
      assert init[..k] == cells[..k];
    }
  }

  /** What was answered by a point of the query is what is answered of the cells before it. */
  lemma {:induction false} AnsweredSoFar(s: Store, cells: seq<Cell>, now: Time, minimum: nat, k: nat, d: Cell)
    requires CellsDistinct(cells) && k <= |cells|
    ensures Answered(PublishAll(s, cells[..k], now, minimum).aggregates, d) <==>
              d in cells[..k] && Answered(PublishAll(s, cells, now, minimum).aggregates, d)
  {
    if k == |cells| {
      assert cells[..k] == cells;
      PublishAllExactly(s, cells, now, minimum, d);
    } else {
      var n := |cells| - 1;
      var init, last := cells[..n], cells[n];
      assert init[..k] == cells[..k];
      AnsweredSoFar(s, init, now, minimum, k, d);
      var before := PublishAll(s, init, now, minimum);
      AnsweredAppend(before.aggregates, Publish(before.store, last, now, minimum).aggregates, d);
      PublishExactly(before.store, last, now, minimum, d);
    }
  }

  lemma SortedBefore(cells: seq<Cell>, k: nat, d: Cell)
    requires CellsSorted(cells) && k < |cells| && d in cells
    ensures d in cells[..k] <==> CellLess(d, cells[k])
  {
    var i :| 0 <= i < |cells| && cells[i] == d;
    if i < k {
      assert cells[..k][i] == d;
    }
    if d in cells[..k] {
      var j :| 0 <= j < k && cells[..k][j] == d;
      assert cells[j] == d;
    }
  }

  /** The cell clashes with one that was published before this query, or by it, treated earlier. */
  ghost predicate ClashesInQuery(s: Store, answered: seq<Aggregate>, cell: Cell, now: Time) {
    var cohort := CohortOf(LiveIn(s.offers, cell, now));
    || (cell in s.cohorts && s.cohorts[cell] != cohort)
    || exists d :: Touches(d, cell) && KnownCohort(s, d, now) != cohort &&
         (d in s.cohorts || (Answered(answered, d) && CellLess(d, cell)))
  }

  lemma SortedClash(s: Store, cells: seq<Cell>, now: Time, minimum: nat, k: nat)
    requires CellsSorted(cells) && CellsDistinct(cells) && k < |cells|
    ensures Clashes(s, PublishAll(s, cells[..k], now, minimum).aggregates, cells[k], now) <==>
              ClashesInQuery(s, PublishAll(s, cells, now, minimum).aggregates, cells[k], now)
  {
    var sofar, all := PublishAll(s, cells[..k], now, minimum).aggregates, PublishAll(s, cells, now, minimum).aggregates;
    forall d
      ensures Answered(sofar, d) <==> Answered(all, d) && CellLess(d, cells[k])
    {
      AnsweredSoFar(s, cells, now, minimum, k, d);
      PublishAllExactly(s, cells, now, minimum, d);
      if d in cells {
        SortedBefore(cells, k, d);
      }
    }
  }

  /** After a query a cell is suppressed exactly if it was before, or the query saw it and its
      participants differ from those it was published for, or from those of a touching cell published
      before or earlier in this query. */
  lemma QuerySuppressesExactly(s: Store, w: Window, now: Time, minimum: nat, cell: Cell)
    ensures var answer := Query(s, w, now, minimum);
            cell in answer.store.suppressed <==>
              || cell in s.suppressed
              || (InWindow(cell, w) && LiveIn(s.offers, cell, now) != [] && ClashesInQuery(s, answer.aggregates, cell, now))
  {
    var cells := VisibleCells(s.offers, w, now);
    VisibleCellsSorted(s.offers, w, now);
    VisibleCellsAre(s.offers, w, now, cell);
    if cell in cells {
      var k :| 0 <= k < |cells| && cells[k] == cell;
      QuerySuppression(s, cells, now, minimum, k);
      SortedClash(s, cells, now, minimum, k);
    } else {
      UnseenIsUnanswered(s, cells, now, minimum, cell);
    }
  }

  /** A query over cells that are not suppressed, all of one cohort that is large enough and that also
      any published cell among them or next to them was published for, answers every one of them. */
  lemma OneCohortIsAnswered(s: Store, w: Window, now: Time, minimum: nat, cohort: set<string>, cell: Cell)
    requires |cohort| >= minimum && InWindow(cell, w) && LiveIn(s.offers, cell, now) != []
    requires forall c :: InWindow(c, w) && LiveIn(s.offers, c, now) != [] ==>
               c !in s.suppressed && CohortOf(LiveIn(s.offers, c, now)) == cohort
    requires forall d :: d in s.cohorts && (d == cell || Touches(d, cell)) ==> s.cohorts[d] == cohort
    ensures Answered(Query(s, w, now, minimum).aggregates, cell)
  {
    var answer := Query(s, w, now, minimum);
    QueryAnswersExactly(s, w, now, minimum, cell);
    QuerySuppressesExactly(s, w, now, minimum, cell);
    forall d | Answered(answer.aggregates, d) && d !in s.cohorts
      ensures KnownCohort(s, d, now) == cohort
    {
      QueryAnswersExactly(s, w, now, minimum, d);
    }
  }

  // ----- What an upsert and a removal suppress

  function OffersOf(offers: seq<Offer>, cell: Cell): set<Offer> {
    set o | o in offers && CellOf(o) == cell
  }

  lemma AdvanceSuppressesExactly(s: Store, offer: Offer, cell: Cell)
    requires Valid(s)
    ensures var moved := Advance(s, offer);
            && (cell in moved.suppressed <==>
                  cell in s.suppressed || (cell in s.cohorts && OffersOf(moved.offers, cell) != OffersOf(s.offers, cell)))
            && OffersOf(moved.offers, cell) <= OffersOf(s.offers, cell)
  {
    var source, position, moved := SourceOf(offer), PositionOf(offer), Advance(s, offer);
    DropObsoleteKeeps(s.offers, source, position);
    if OffersOf(moved.offers, cell) != OffersOf(s.offers, cell) {
      var o :| o in OffersOf(s.offers, cell) && o !in OffersOf(moved.offers, cell);
      assert o in s.offers && Obsolete(o, source, position);
    }
    if cell in ObsoleteCells(s.offers, source, position, s.cohorts) && moved.offers != s.offers {
      var o :| o in s.offers && Obsolete(o, source, position) && CellOf(o) == cell;
      assert o in OffersOf(s.offers, cell) && o !in OffersOf(moved.offers, cell);
    }
  }

  /** An upsert suppresses exactly the published cells whose offers it changes. */
  lemma UpsertSuppressesExactly(s: Store, offer: Offer, cell: Cell)
    requires Valid(s)
    ensures var after := Admit(s, offer).store;
            cell in after.suppressed <==>
              cell in s.suppressed || (cell in s.cohorts && OffersOf(after.offers, cell) != OffersOf(s.offers, cell))
  {
    if !IsStale(s, offer) {
      AdvanceSuppressesExactly(s, offer, cell);
      AdmitKeeps(s, offer);
      var moved, after := Advance(s, offer), Admit(s, offer);
      if after.outcome == Stored {
        StoredIsNew(s, offer);
        assert OffersOf(after.store.offers, cell) == OffersOf(moved.offers, cell) + (if CellOf(offer) == cell then {offer} else {});
        if CellOf(offer) == cell {
          NewOfferChanges(s, offer);
        }
      }
    }
  }

  /** What is stored was not there before, even among the offers it makes obsolete. */
  lemma NewOfferChanges(s: Store, offer: Offer)
    requires Valid(s) && !IsStale(s, offer) && Admit(s, offer).outcome == Stored
    ensures offer !in s.offers
  {
    StoredIsNew(s, offer);
    DropObsoleteKeeps(s.offers, SourceOf(offer), PositionOf(offer));
    assert offer in s.offers ==> offer in Advance(s, offer).offers;
  }

  /** And so does a removal. */
  lemma RemovalSuppressesExactly(s: Store, source: ResourceKey, cell: Cell)
    requires Valid(s)
    ensures var after := OfferStore.Remove(s, source);
            cell in after.suppressed <==>
              cell in s.suppressed || (cell in s.cohorts && OffersOf(after.offers, cell) != OffersOf(s.offers, cell))
  {
    var after := OfferStore.Remove(s, source);
    DropSourceKeeps(s.offers, source);
    if OffersOf(after.offers, cell) != OffersOf(s.offers, cell) {
      var o :| o in OffersOf(s.offers, cell) && o !in OffersOf(after.offers, cell);
      assert o in s.offers && SourceOf(o) == source;
    }
    if cell in SourceCells(s.offers, source, s.cohorts) {
      var o :| o in s.offers && SourceOf(o) == source && CellOf(o) == cell;
      assert o in OffersOf(s.offers, cell) && o !in OffersOf(after.offers, cell);
    }
  }

  // ----- Who is refused

  /** An upsert is refused exactly if its position is behind the resource's, or not beyond it after a
      disconnection; it conflicts exactly if another offer is stored under its key at its position. */
  lemma RefusedExactly(s: Store, offer: Offer)
    requires Valid(s)
    ensures var known, position, source := s.positions, PositionOf(offer), SourceOf(offer);
            var outcome := Admit(s, offer).outcome;
            && (outcome == Stale <==>
                  source in known &&
                  (Before(position, known[source]) || (source in s.disconnected && position == known[source])))
            && (outcome == Conflict <==>
                  exists o :: o in s.offers && KeyOf(o) == KeyOf(offer) && PositionOf(o) == position && o != offer)
            && (outcome == Unchanged <==> offer in s.offers)
  {
    var moved := Advance(s, offer);
    if !IsStale(s, offer) {
      AdvanceKeeps(s, offer);
      DropObsoleteKeeps(s.offers, SourceOf(offer), PositionOf(offer));
      FindIs(moved.offers, KeyOf(offer));
      if o :| o in s.offers && KeyOf(o) == KeyOf(offer) && PositionOf(o) == PositionOf(offer) {
        assert o in moved.offers;
        OneOfAKey(moved.offers, KeyOf(offer), o);
      }
    }
  }

  lemma OneOfAKey(offers: seq<Offer>, key: OfferKey, o: Offer)
    requires KeysDistinct(offers) && o in offers && KeyOf(o) == key
    ensures Find(offers, key) == Some(o)
  {
    FindIs(offers, key);
    var i :| 0 <= i < |offers| && offers[i] == o;
    var found := Find(offers, key).value;
    var j :| 0 <= j < |offers| && offers[j] == found;
  }

  // ----- Who stays out

  /** A removal that found an offer of the source disconnects it and changes no position; others keep
      their offers. */
  lemma RemovalDisconnects(s: Store, source: ResourceKey, other: ResourceKey, o: Offer)
    requires Valid(s)
    ensures var after := OfferStore.Remove(s, source);
            && (source in after.disconnected <==>
                  source in s.disconnected || exists x :: x in s.offers && SourceOf(x) == source)
            && (other != source ==> (other in after.disconnected <==> other in s.disconnected))
            && after.positions == s.positions
            && (o in after.offers <==> o in s.offers && SourceOf(o) != source)
  {
    DropSourceKeeps(s.offers, source);
  }

  /** A source whose offers at a position were removed: nothing since was accepted of it, or something later. */
  predicate GoneAt(s: Store, source: ResourceKey, position: Position) {
    && source in s.positions
    && (Before(position, s.positions[source]) || (s.positions[source] == position && source in s.disconnected))
  }

  lemma {:induction false} QueryKeepsSources(s: Store, cells: seq<Cell>, now: Time, minimum: nat)
    ensures var after := PublishAll(s, cells, now, minimum).store;
            after.positions == s.positions && after.disconnected == s.disconnected && after.offers == s.offers
  {
    if cells != [] {
      QueryKeepsSources(s, cells[..|cells| - 1], now, minimum);
    }
  }

  lemma StepKeepsGone(s: State, step: Step, minimum: nat, p: Policy, source: ResourceKey, position: Position)
    requires ValidPolicy(p) && GoneAt(s.store, source, position)
    ensures GoneAt(Apply(s, step, minimum, p).store, source, position)
  {
    if step.Ask? {
      QueryKeepsSources(s.store, VisibleCells(s.store.offers, step.w, step.now), step.now, minimum);
    }
  }

  lemma {:induction false} StaysGone(
      states: seq<State>, steps: seq<Step>, minimum: nat, p: Policy, k: nat, l: nat, source: ResourceKey, position: Position)
    requires ValidPolicy(p) && Run(states, steps, minimum, p) && k <= l < |states|
    requires GoneAt(states[k].store, source, position)
    ensures GoneAt(states[l].store, source, position)
    decreases l
  {
    if k < l {
      StaysGone(states, steps, minimum, p, k, l - 1, source, position);
      StepKeepsGone(states[l - 1], steps[l - 1], minimum, p, source, position);
    }
  }

  /** Once a resource is removed, every offer of it that any later state holds is later than all those
      removed: late repetitions never bring it back. */
  lemma RemovedStaysOut(
      states: seq<State>, steps: seq<Step>, minimum: nat, p: Policy, k: nat, l: nat, removed: Offer, o: Offer)
    requires ValidPolicy(p) && Run(states, steps, minimum, p) && k < l < |states|
    requires steps[k].Disconnect? && removed in states[k].store.offers && SourceOf(removed) == steps[k].source
    requires o in states[l].store.offers && SourceOf(o) == SourceOf(removed)
    ensures Before(PositionOf(removed), PositionOf(o))
  {
    Reachable(states, steps, minimum, p, k);
    HighWater(states, steps, minimum, p, k, removed);
    HighWater(states, steps, minimum, p, l, o);
    RemovalDisconnects(states[k].store, steps[k].source, steps[k].source, removed);
    StaysGone(states, steps, minimum, p, k + 1, l, steps[k].source, PositionOf(removed));
  }
}
