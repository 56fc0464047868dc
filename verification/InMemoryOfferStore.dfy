/** The store object: its methods update the dictionaries in place under one lock, and
    compute what the value model says. */
module InMemoryOfferStore {
  import opened Domain
  import opened Sequences
  import opened Strings
  import OS = OfferStore
  import opened Publication
  import opened PublishedNumbers

  type Offer = Domain.Offer

  // ----- Sorting by resource

  predicate SortedByResource(offers: seq<Offer>) {
    forall i, j :: 0 <= i < j < |offers| ==> !Less(offers[j].resource, offers[i].resource)
  }

  lemma {:induction false} InsertByResourcePermutes(offers: seq<Offer>, offer: Offer)
    ensures multiset(OS.InsertByResource(offers, offer)) == multiset(offers) + multiset{offer}
  {
    if offers != [] {
      assert offers == offers[..|offers| - 1] + [offers[|offers| - 1]];
      InsertByResourcePermutes(offers[..|offers| - 1], offer);
    }
  }

  lemma LastIsGreatest(offers: seq<Offer>, k: nat)
    requires SortedByResource(offers) && k < |offers|
    ensures !Less(offers[|offers| - 1].resource, offers[k].resource)
  {
    if k == |offers| - 1 {
      LessTotal(offers[k].resource, offers[k].resource);
    }
  }

  lemma {:induction false} InsertByResourceSorts(offers: seq<Offer>, offer: Offer)
    requires SortedByResource(offers)
    ensures SortedByResource(OS.InsertByResource(offers, offer))
  {
    if offers != [] {
      var init, last := offers[..|offers| - 1], offers[|offers| - 1];
      if Less(offer.resource, last.resource) {
        InsertByResourceSorts(init, offer);
        var inner := OS.InsertByResource(init, offer);
        forall k | 0 <= k < |inner|
          ensures !Less(last.resource, inner[k].resource)
        {
          InsertByResourcePermutes(init, offer);
          assert inner[k] in multiset(init) + multiset{offer};
          if inner[k] == offer {
            LessTotal(offer.resource, last.resource);
          } else {
            var m :| 0 <= m < |init| && init[m] == inner[k];
            LastIsGreatest(offers, m);
          }
        }
      } else {
        forall k | 0 <= k < |offers|
          ensures !Less(offer.resource, offers[k].resource)
        {
          LastIsGreatest(offers, k);
          LessNotBelow(offer.resource, last.resource, offers[k].resource);
        }
      }
    }
  }

  lemma LessNotBelow(a: string, b: string, c: string)
    requires !Less(a, b) && !Less(b, c)
    ensures !Less(a, c)
  {
    LessTotal(a, b);
    LessTotal(b, c);
    if Less(a, c) && a != b && b != c {
      LessTransitive(c, b, a);
      LessTotal(a, c);
    }
  }

  /** The offers a reservation draws on: those of the cell still live, by resource identifier. */
  lemma {:induction false} ByResourceSorts(offers: seq<Offer>)
    ensures SortedByResource(OS.ByResource(offers))
    ensures multiset(OS.ByResource(offers)) == multiset(offers)
  {
    if offers != [] {
      var init, last := offers[..|offers| - 1], offers[|offers| - 1];
      ByResourceSorts(init);
      InsertByResourceSorts(OS.ByResource(init), last);
      InsertByResourcePermutes(OS.ByResource(init), last);
      assert offers == init + [last];
    }
  }

  /** Every visible offer is in the group of its cell, and every cell listed has a group. */
  ghost predicate Grouped(offers: seq<Offer>, w: OS.Window, now: Time, groups: map<Cell, seq<Offer>>, cells: seq<Cell>) {
    && (forall c :: c in groups <==> c in cells)
    && (forall c :: c in groups ==> groups[c] == OS.LiveIn(offers, c, now) && OS.InWindow(c, w) && groups[c] != [])
    && (forall c :: OS.InWindow(c, w) && c !in groups ==> OS.LiveIn(offers, c, now) == [])
  }

  lemma GroupedNext(
      offers: seq<Offer>, offer: Offer, w: OS.Window, now: Time, groups: map<Cell, seq<Offer>>, cells: seq<Cell>)
    requires Grouped(offers, w, now, groups, cells)
    ensures var cell := CellOf(offer);
            if OS.Visible(offer, w, now) then
              Grouped(offers + [offer], w, now, groups[cell := (if cell in groups then groups[cell] else []) + [offer]],
                      OS.InsertCell(cells, cell))
            else Grouped(offers + [offer], w, now, groups, cells)
  {
    InsertCellIs(cells, CellOf(offer));
    forall c
      ensures OS.LiveIn(offers + [offer], c, now) ==
                OS.LiveIn(offers, c, now) + (if CellOf(offer) == c && offer.expiresAt >= now then [offer] else [])
    {
      LiveAppend(offers, offer, c, now);
    }
  }

  /** What a removal has collected of the first i offers. */
  ghost predicate Removing(
      offers: seq<Offer>, i: nat, source: OS.ResourceKey, cohorts: map<Cell, set<string>>,
      kept: seq<Offer>, gone: set<Cell>, count: int) {
    && i <= |offers|
    && kept == OS.DropSource(offers[..i], source)
    && gone == OS.SourceCells(offers[..i], source, cohorts)
    && count == i - |kept|
    && (count > 0 <==> exists o :: o in offers[..i] && OS.SourceOf(o) == source)
  }

  lemma RemovingNext(
      offers: seq<Offer>, i: nat, source: OS.ResourceKey, cohorts: map<Cell, set<string>>,
      kept: seq<Offer>, gone: set<Cell>, count: int)
    requires i < |offers| && Removing(offers, i, source, cohorts, kept, gone, count) && count >= 0
    ensures if OS.SourceOf(offers[i]) == source then
              Removing(offers, i + 1, source, cohorts, kept,
                       if CellOf(offers[i]) in cohorts then gone + {CellOf(offers[i])} else gone, count + 1)
            else Removing(offers, i + 1, source, cohorts, kept + [offers[i]], gone, count)
  {
    InitOf(offers, i);
    SourceCellsNext(offers[..i], offers[i], source, cohorts);
    assert offers[..i + 1] == offers[..i] + [offers[i]];
  }

  class InMemoryOfferStore {
    const minimumParticipants: nat
    var offers: seq<Offer>
    var positions: map<OS.ResourceKey, OS.Position>
    var disconnected: set<OS.ResourceKey>
    var cohorts: map<Cell, set<string>>
    var suppressed: set<Cell>
    var snapshots: OS.Snapshots

    ghost function Model(): OS.Store
      reads this
    {
      OS.Store(offers, positions, disconnected, cohorts, suppressed)
    }

    constructor (minimumParticipants: nat)
      requires minimumParticipants >= 1
      ensures this.minimumParticipants == minimumParticipants
      ensures Model() == OS.EMPTY && snapshots == map[]
      ensures OS.Valid(Model())
    {
      this.minimumParticipants := minimumParticipants;
      offers, positions, disconnected, cohorts, suppressed, snapshots := [], map[], {}, map[], {}, map[];
    }

    method Upsert(offer: Offer) returns (outcome: OS.Outcome)
      modifies this`offers, this`positions, this`disconnected, this`suppressed
      ensures OS.Admission(Model(), outcome) == OS.Admit(old(Model()), offer)
    {
      ghost var before := Model();
      var key, cell, source, incoming := OS.KeyOf(offer), CellOf(offer), OS.SourceOf(offer), OS.PositionOf(offer);
      if source in positions && source in disconnected && !OS.Before(positions[source], incoming) {
        return OS.Stale;
      }
      if source in positions && OS.Before(incoming, positions[source]) {
        return OS.Stale;
      }
      if source in positions && OS.Before(positions[source], incoming) {
        var kept, gone := [], {};
        for i := 0 to |offers|
          invariant Model() == before
          invariant kept == OS.DropObsolete(offers[..i], source, incoming)
          invariant gone == OS.ObsoleteCells(offers[..i], source, incoming, cohorts)
        {
          InitOf(offers, i);
          ObsoleteCellsNext(offers[..i], offers[i], source, incoming, cohorts);
          assert offers[..i + 1] == offers[..i] + [offers[i]];
          if OS.Obsolete(offers[i], source, incoming) {
            if CellOf(offers[i]) in cohorts {
              gone := gone + {CellOf(offers[i])};
            }
          } else {
            kept := kept + [offers[i]];
          }
        }
        assert offers[..|offers|] == offers;
        offers, suppressed := kept, suppressed + gone;
      }
      positions := positions[source := incoming];
      disconnected := disconnected - {source};
      assert Model() == OS.Advance(before, offer);
      var previous := OS.Find(offers, key);
      if previous == Some(offer) {
        return OS.Unchanged;
      }
      if previous.Some? && OS.PositionOf(previous.value) == incoming {
        return OS.Conflict;
      }
      if cell in cohorts {
        suppressed := suppressed + {cell};
      }
      offers := OS.Put(offers, offer);
      return OS.Stored;
    }

    method RemoveResource(resource: string, tenant: string) returns (count: nat)
      modifies this`offers, this`disconnected, this`suppressed
      ensures Model() == OS.Remove(old(Model()), OS.ResourceKey(tenant, resource))
      ensures count == |old(offers)| - |offers|
    {
      var source := OS.ResourceKey(tenant, resource);
      ghost var before := Model();
      var kept, gone := [], {};
      count := 0;
      for i := 0 to |offers|
        invariant Model() == before
        invariant Removing(offers, i, source, cohorts, kept, gone, count)
      {
        RemovingNext(offers, i, source, cohorts, kept, gone, count);
        if OS.SourceOf(offers[i]) == source {
          count := count + 1;
          if CellOf(offers[i]) in cohorts {
            gone := gone + {CellOf(offers[i])};
          }
        } else {
          kept := kept + [offers[i]];
        }
      }
      assert offers[..|offers|] == offers;
      offers, suppressed := kept, suppressed + gone;
      if count > 0 {
        disconnected := disconnected + {source};
      }
    }

    method EligibleOffers(cell: Cell, now: Time) returns (eligible: seq<Offer>)
      ensures eligible == OS.Eligible(Model(), cell, now)
      ensures SortedByResource(eligible)
      ensures multiset(eligible) == multiset(OS.LiveIn(offers, cell, now))
    {
      var live := [];
      for i := 0 to |offers|
        invariant live == OS.LiveIn(offers[..i], cell, now)
      {
        InitOf(offers, i);
        if CellOf(offers[i]) == cell && offers[i].expiresAt >= now {
          live := live + [offers[i]];
        }
      }
      assert offers[..|offers|] == offers;
      ByResourceSorts(live);
      eligible := OS.ByResource(live);
    }

    /** The visible offers by cell, and the cells in the order of the groups' sorted keys. */
    method Group(w: OS.Window, now: Time) returns (groups: map<Cell, seq<Offer>>, cells: seq<Cell>)
      ensures cells == OS.VisibleCells(offers, w, now)
      ensures forall c :: c in groups <==> c in cells
      ensures forall c :: c in groups ==> groups[c] == OS.LiveIn(offers, c, now) && groups[c] != []
    {
      groups, cells := map[], [];
      for i := 0 to |offers|
        invariant cells == OS.VisibleCells(offers[..i], w, now)
        invariant Grouped(offers[..i], w, now, groups, cells)
      {
        InitOf(offers, i);
        var offer := offers[i];
        GroupedNext(offers[..i], offer, w, now, groups, cells);
        assert offers[..i] + [offer] == offers[..i + 1];
        if OS.Visible(offer, w, now) {
          var cell := CellOf(offer);
          groups := groups[cell := (if cell in groups then groups[cell] else []) + [offer]];
          cells := OS.InsertCell(cells, cell);
        }
      }
      assert offers[..|offers|] == offers;
    }

    /** One pass of the query's loop: suppress the cell, skip it, or publish its numbers. */
    method PublishCell(cell: Cell, live: seq<Offer>, now: Time) returns (published: seq<Aggregate>)
      requires live == OS.LiveIn(offers, cell, now) && live != []
      modifies this`cohorts, this`suppressed
      ensures OS.Answer(Model(), published) == OS.Publish(old(Model()), cell, now, minimumParticipants)
    {
      var cohort := OS.CohortOf(live);
      if cell in cohorts && cohorts[cell] != cohort {
        suppressed := suppressed + {cell};
      }
      if OS.DiffersNextDoor(cohorts, cell, cohort) {
        suppressed := suppressed + {cell};
      }
      var participants := |cohort|;
      if cell in suppressed || participants < minimumParticipants {
        return [];
      }
      published := [Aggregate(cell, OS.NumbersOf(live), now)];
      cohorts := cohorts[cell := cohort];
    }

    method Query(w: OS.Window, now: Time) returns (aggregates: seq<Aggregate>)
      modifies this`cohorts, this`suppressed
      ensures OS.Answer(Model(), aggregates) == OS.Query(old(Model()), w, now, minimumParticipants)
    {
      ghost var before := Model();
      var groups, cells := Group(w, now);
      aggregates := [];
      for i := 0 to |cells|
        invariant offers == before.offers
        invariant OS.Answer(Model(), aggregates) == OS.PublishAll(before, cells[..i], now, minimumParticipants)
      {
        InitOf(cells, i);
        var published := PublishCell(cells[i], groups[cells[i]], now);
        aggregates := aggregates + published;
      }
      assert cells[..|cells|] == cells;
    }

    method PublishPrivacySnapshot(
        w: OS.Window, epoch: Time, candidates: seq<Aggregate>) returns (published: seq<Aggregate>)
      modifies this`snapshots
      ensures snapshots == OS.Snap(old(snapshots), epoch, candidates)
      ensures forall a :: a in published <==> a in Answers(snapshots, w, epoch)
      ensures |published| == |OS.SnapshotCells(snapshots, w, epoch)|
    {
      ghost var before := snapshots;
      for i := 0 to |candidates|
        invariant snapshots == OS.Snap(before, epoch, candidates[..i])
      {
        InitOf(candidates, i);
        var key := OS.SnapshotKey(epoch, candidates[i].cell);
        if key !in snapshots {
          snapshots := snapshots[key := candidates[i]];
        }
      }
      assert candidates[..|candidates|] == candidates;
      var remaining := OS.SnapshotCells(snapshots, w, epoch);
      ghost var all, after := remaining, snapshots;
      var cells := [];
      while remaining != {}
        invariant snapshots == after && remaining <= all
        invariant forall c :: c in cells <==> c in all - remaining
        invariant CellsSorted(cells)
        decreases remaining
      {
        var cell :| cell in remaining;
        InsertCellSorts(cells, cell);
        InsertCellIs(cells, cell);
        cells := OS.InsertCell(cells, cell);
        remaining := remaining - {cell};
      }
      assert all - remaining == all;
      published := [];
      for i := 0 to |cells|
        invariant snapshots == after && |published| == i
        invariant forall k :: 0 <= k < i ==>
                    OS.SnapshotKey(epoch, cells[k]) in snapshots && published[k] == snapshots[OS.SnapshotKey(epoch, cells[k])]
      {
        assert cells[i] in cells;
        published := published + [snapshots[OS.SnapshotKey(epoch, cells[i])]];
      }
      SortedCount(cells, all);
      forall a | a in Answers(snapshots, w, epoch)
        ensures a in published
      {
        var key :| key in snapshots && key.epoch == epoch && OS.InWindow(key.cell, w) && snapshots[key] == a;
        assert key.cell in cells;
        var k :| 0 <= k < |cells| && cells[k] == key.cell;
        assert published[k] == a;
      }
      forall a | a in published
        ensures a in Answers(snapshots, w, epoch)
      {
        var k :| 0 <= k < |published| && published[k] == a;
        assert cells[k] in cells;
        var key :| key in snapshots && key.epoch == epoch && OS.InWindow(key.cell, w) && key.cell == cells[k];
        assert snapshots[key] == a;
      }
    }
  }

  lemma ObsoleteCellsNext(
      offers: seq<Offer>, offer: Offer, source: OS.ResourceKey, position: OS.Position, cohorts: map<Cell, set<string>>)
    ensures OS.ObsoleteCells(offers + [offer], source, position, cohorts)
         == OS.ObsoleteCells(offers, source, position, cohorts) +
            (if OS.Obsolete(offer, source, position) && CellOf(offer) in cohorts then {CellOf(offer)} else {})
  {
    assert offer in offers + [offer];
    assert forall o :: o in offers + [offer] <==> o in offers || o == offer;
  }

  lemma SourceCellsNext(offers: seq<Offer>, offer: Offer, source: OS.ResourceKey, cohorts: map<Cell, set<string>>)
    ensures OS.SourceCells(offers + [offer], source, cohorts)
         == OS.SourceCells(offers, source, cohorts) +
            (if OS.SourceOf(offer) == source && CellOf(offer) in cohorts then {CellOf(offer)} else {})
  {
    assert offer in offers + [offer];
    assert forall o :: o in offers + [offer] <==> o in offers || o == offer;
  }

  /** A strictly sorted list of cells has no repetitions. */
  lemma {:induction false} SortedCount(cells: seq<Cell>, all: set<Cell>)
    requires CellsSorted(cells)
    requires forall c :: c in cells <==> c in all
    ensures |cells| == |all|
  {
    if cells == [] {
      assert all == {};
    } else {
      var init, last := cells[..|cells| - 1], cells[|cells| - 1];
      assert cells == init + [last];
      assert last !in init;
      SortedCount(init, all - {last});
      assert last in all;
    }
  }
}
