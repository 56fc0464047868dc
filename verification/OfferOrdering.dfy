/** Delivery order does not matter: whatever order offers arrive in, and however often,
    the store ends with those of each resource's greatest source position. */
module OfferOrdering {
  import opened Domain
  import opened OfferStore

  function AdmitAll(s: Store, offers: seq<Offer>): Store {
    if offers == [] then s
    else Admit(AdmitAll(s, offers[..|offers| - 1]), offers[|offers| - 1]).store
  }

  /** No position of a resource is used for two different contents under one key. */
  ghost predicate ConflictFree(offers: seq<Offer>) {
    forall o, p :: o in offers && p in offers && KeyOf(o) == KeyOf(p) && PositionOf(o) == PositionOf(p) ==> o == p
  }

  ghost predicate Latest(offers: seq<Offer>, o: Offer) {
    o in offers && forall p :: p in offers && SourceOf(p) == SourceOf(o) ==> !Before(PositionOf(o), PositionOf(p))
  }

  /** The positions are the greatest delivered ones. */
  ghost predicate PositionsCover(positions: map<ResourceKey, Position>, offers: seq<Offer>) {
    && (forall o :: o in offers ==> SourceOf(o) in positions && !Before(positions[SourceOf(o)], PositionOf(o)))
    && (forall source :: source in positions ==> Delivered(offers, source, positions[source]))
  }

  ghost predicate Delivered(offers: seq<Offer>, source: ResourceKey, position: Position) {
    exists o :: o in offers && SourceOf(o) == source && PositionOf(o) == position
  }

  ghost predicate AtTop(positions: map<ResourceKey, Position>, o: Offer) {
    SourceOf(o) in positions && positions[SourceOf(o)] == PositionOf(o)
  }

  ghost predicate Covers(s: Store, offers: seq<Offer>) {
    && PositionsCover(s.positions, offers)
    && s.disconnected == {}
    && (forall o :: o in s.offers <==> o in offers && AtTop(s.positions, o))
  }

  lemma {:induction false} AdmitAllCovers(offers: seq<Offer>)
    requires ConflictFree(offers)
    ensures Valid(AdmitAll(EMPTY, offers)) && Covers(AdmitAll(EMPTY, offers), offers)
  {
    if offers != [] {
      var init, last := offers[..|offers| - 1], offers[|offers| - 1];
      assert offers == init + [last];
      AdmitAllCovers(init);
      var s := AdmitAll(EMPTY, init);
      AdmitKeeps(s, last);
      AdmitCovers(s, init, last);
    }
  }

  lemma AdmitCovers(s: Store, offers: seq<Offer>, offer: Offer)
    requires Valid(s) && Covers(s, offers) && ConflictFree(offers + [offer])
    ensures Covers(Admit(s, offer).store, offers + [offer])
  {
    AppendIn(offers, offer);
    if IsStale(s, offer) {
      PositionsStay(s.positions, offers, offer);
    } else {
      PositionsMove(s.positions, offers, offer);
      AdmittedOffers(s, offers, offer);
      AdmittedPositions(s, offer);
    }
  }

  lemma AdmittedPositions(s: Store, offer: Offer)
    requires !IsStale(s, offer)
    ensures Admit(s, offer).store.positions == s.positions[SourceOf(offer) := PositionOf(offer)]
    ensures Admit(s, offer).store.disconnected == s.disconnected - {SourceOf(offer)}
  {
  }

  lemma AppendIn(offers: seq<Offer>, offer: Offer)
    ensures forall o :: o in offers + [offer] <==> o in offers || o == offer
  {
  }

  lemma PositionsStay(positions: map<ResourceKey, Position>, offers: seq<Offer>, offer: Offer)
    requires PositionsCover(positions, offers)
    requires SourceOf(offer) in positions && Before(PositionOf(offer), positions[SourceOf(offer)])
    ensures PositionsCover(positions, offers + [offer])
  {
    AppendIn(offers, offer);
    forall source | source in positions
      ensures Delivered(offers + [offer], source, positions[source])
    {
      DeliveredStays(offers, offer, source, positions[source]);
    }
  }

  lemma DeliveredStays(offers: seq<Offer>, offer: Offer, source: ResourceKey, position: Position)
    requires Delivered(offers, source, position)
    ensures Delivered(offers + [offer], source, position)
  {
    var o :| o in offers && SourceOf(o) == source && PositionOf(o) == position;
    assert o in offers + [offer];
  }

  lemma PositionsMove(positions: map<ResourceKey, Position>, offers: seq<Offer>, offer: Offer)
    requires PositionsCover(positions, offers)
    requires SourceOf(offer) in positions ==> !Before(PositionOf(offer), positions[SourceOf(offer)])
    ensures PositionsCover(positions[SourceOf(offer) := PositionOf(offer)], offers + [offer])
  {
    AppendIn(offers, offer);
    var moved := positions[SourceOf(offer) := PositionOf(offer)];
    forall source | source in moved
      ensures Delivered(offers + [offer], source, moved[source])
    {
      if source == SourceOf(offer) {
        assert offer in offers + [offer];
      } else {
        DeliveredStays(offers, offer, source, positions[source]);
      }
    }
  }

  lemma AdmittedOffers(s: Store, offers: seq<Offer>, offer: Offer)
    requires Valid(s) && Covers(s, offers) && !IsStale(s, offer) && ConflictFree(offers + [offer])
    ensures var s' := Admit(s, offer).store;
            forall o :: o in s'.offers <==> (o in offers || o == offer) && AtTop(s'.positions, o)
  {
    var moved := Advance(s, offer);
    AppendIn(offers, offer);
    AdvanceKeeps(s, offer);
    AdmitKeeps(s, offer);
    AdvancedOffers(s, offers, offer);
    FindIs(moved.offers, KeyOf(offer));
  }

  lemma AdvancedOffers(s: Store, offers: seq<Offer>, offer: Offer)
    requires Valid(s) && Covers(s, offers) && !IsStale(s, offer)
    ensures var moved := Advance(s, offer);
            forall o :: o in moved.offers <==> o in offers && AtTop(moved.positions, o)
  {
    DropObsoleteKeeps(s.offers, SourceOf(offer), PositionOf(offer));
  }

  /** The final offers, and the position of every resource, depend only on what was delivered. */
  lemma DeliveryConverges(offers: seq<Offer>)
    requires ConflictFree(offers)
    ensures forall o :: o in AdmitAll(EMPTY, offers).offers <==> Latest(offers, o)
    ensures KeysDistinct(AdmitAll(EMPTY, offers).offers)
  {
    AdmitAllCovers(offers);
    var s := AdmitAll(EMPTY, offers);
    forall o
      ensures o in s.offers <==> Latest(offers, o)
    {
      if o in offers {
        assert Delivered(offers, SourceOf(o), s.positions[SourceOf(o)]);
        var p :| p in offers && SourceOf(p) == SourceOf(o) && PositionOf(p) == s.positions[SourceOf(o)];
        assert !Before(PositionOf(p), PositionOf(o));
        assert Latest(offers, o) ==> !Before(PositionOf(o), PositionOf(p));
      }
    }
  }

  /** Two deliveries of the same offers, in any order and with any repetitions, converge. */
  lemma OrderIsIrrelevant(offers: seq<Offer>, others: seq<Offer>)
    requires ConflictFree(offers)
    requires forall o :: o in offers <==> o in others
    ensures forall o :: o in AdmitAll(EMPTY, offers).offers <==> o in AdmitAll(EMPTY, others).offers
    ensures AdmitAll(EMPTY, offers).positions == AdmitAll(EMPTY, others).positions
  {
    DeliveryConverges(offers);
    DeliveryConverges(others);
    AdmitAllCovers(offers);
    AdmitAllCovers(others);
    SamePositions(AdmitAll(EMPTY, offers), offers, AdmitAll(EMPTY, others), others);
    forall o
      ensures Latest(offers, o) <==> Latest(others, o)
    {
    }
  }

  lemma SamePositions(s: Store, offers: seq<Offer>, t: Store, others: seq<Offer>)
    requires Covers(s, offers) && Covers(t, others)
    requires forall o :: o in offers <==> o in others
    ensures s.positions == t.positions
  {
    forall source | source in s.positions
      ensures source in t.positions && s.positions[source] == t.positions[source]
    {
      assert Delivered(offers, source, s.positions[source]);
      var o :| o in offers && SourceOf(o) == source && PositionOf(o) == s.positions[source];
      assert o in others;
      assert Delivered(others, source, t.positions[source]);
      var p :| p in others && SourceOf(p) == source && PositionOf(p) == t.positions[source];
    }
    forall source | source in t.positions
      ensures source in s.positions
    {
      assert Delivered(others, source, t.positions[source]);
      var p :| p in others && SourceOf(p) == source && PositionOf(p) == t.positions[source];
    }
  }
}
