/** A fleet of equal offers from as many resources as one likes, delivered to an empty store:
    the inputs of the examples elsewhere. */
module SampleFleet {
  import opened Domain
  import opened Strings
  import OS = OfferStore
  import OfferOrdering
  import Publication

  type Offer = Domain.Offer

  const START: Time := 3_600_000_000
  const END: Time := 4_500_000_000

  function Name(i: nat): string {
    if i == 0 then "" else "r" + Name(i - 1)
  }

  function CellAt(tenant: string): Cell {
    Cell(tenant, "zone", START, END, DEFER)
  }

  function FleetOffer(tenant: string, i: nat, up: real): Offer {
    Offer(tenant, Name(i), "zone", START, END, 0.0, up, 0.0, up / 4.0, 0.0, 1.0, DEFER, "v", 0, 0, 0, END)
  }

  function Fleet(tenant: string, n: nat, up: real): seq<Offer> {
    if n == 0 then [] else Fleet(tenant, n - 1, up) + [FleetOffer(tenant, n, up)]
  }

  lemma {:induction false} NamesOrdered(i: nat, j: nat)
    ensures Less(Name(i), Name(j)) <==> i < j
    ensures |Name(i)| == i
  {
    if i > 0 && j > 0 {
      NamesOrdered(i - 1, j - 1);
    } else if i > 0 {
      NamesOrdered(i - 1, 0);
    }
  }

  lemma {:induction false} FleetIs(tenant: string, n: nat, up: real)
    ensures |Fleet(tenant, n, up)| == n
    ensures forall i :: 0 <= i < n ==> Fleet(tenant, n, up)[i] == FleetOffer(tenant, i + 1, up)
  {
    if n > 0 {
      FleetIs(tenant, n - 1, up);
    }
  }

  lemma {:induction false} SortedFleet(tenant: string, n: nat, up: real)
    ensures OS.ByResource(Fleet(tenant, n, up)) == Fleet(tenant, n, up)
  {
    if n > 0 {
      FleetIs(tenant, n, up);
      SortedFleet(tenant, n - 1, up);
      var fleet := Fleet(tenant, n, up);
      assert fleet[..n - 1] == Fleet(tenant, n - 1, up);
      if n > 1 {
        FleetIs(tenant, n - 1, up);
        NamesOrdered(n, n - 1);
      }
    }
  }

  /** As many participants as offers. */
  lemma {:induction false} FleetCohort(tenant: string, n: nat, up: real)
    ensures |OS.CohortOf(Fleet(tenant, n, up))| == n
  {
    if n > 0 {
      FleetCohort(tenant, n - 1, up);
      FleetIs(tenant, n - 1, up);
      var before, after := OS.CohortOf(Fleet(tenant, n - 1, up)), OS.CohortOf(Fleet(tenant, n, up));
      assert after == before + {Name(n)} by {
        assert FleetOffer(tenant, n, up) in Fleet(tenant, n, up);
      }
      forall i | 1 <= i < n
        ensures Name(i) != Name(n)
      {
        NamesOrdered(i, n);
        NamesOrdered(n, i);
      }
      assert Name(n) !in before;
    } else {
      assert OS.CohortOf([]) == {};
    }
  }

  // ----- Delivery

  predicate SourcesDistinct(offers: seq<Offer>) {
    forall i, j :: 0 <= i < j < |offers| ==> OS.SourceOf(offers[i]) != OS.SourceOf(offers[j])
  }

  ghost predicate Delivered(s: OS.Store, offers: seq<Offer>) {
    && OS.Valid(s) && s.offers == offers && s.disconnected == {} && s.cohorts == map[] && s.suppressed == {}
    && forall source :: source in s.positions ==> exists i :: 0 <= i < |offers| && OS.SourceOf(offers[i]) == source
  }

  lemma UnknownSourceAdmitted(s: OS.Store, offer: Offer)
    requires OS.Valid(s) && s.disconnected == {} && s.cohorts == map[] && OS.SourceOf(offer) !in s.positions
    ensures OS.Valid(OS.Admit(s, offer).store)
    ensures OS.Admit(s, offer).store ==
              s.(offers := s.offers + [offer], positions := s.positions[OS.SourceOf(offer) := OS.PositionOf(offer)])
  {
    OS.FindIs(s.offers, OS.KeyOf(offer));
    OS.AdmitKeeps(s, offer);
  }

  lemma NewSourceAdmitted(s: OS.Store, offers: seq<Offer>, offer: Offer)
    requires Delivered(s, offers) && SourcesDistinct(offers + [offer])
    ensures Delivered(OS.Admit(s, offer).store, offers + [offer])
  {
    var longer := offers + [offer];
    assert longer[|offers|] == offer;
    forall i | 0 <= i < |offers|
      ensures OS.SourceOf(offers[i]) != OS.SourceOf(offer)
    {
      assert longer[i] == offers[i];
    }
    assert OS.SourceOf(offer) !in s.positions;
    UnknownSourceAdmitted(s, offer);
    forall source | source in OS.Admit(s, offer).store.positions
      ensures exists i :: 0 <= i < |longer| && OS.SourceOf(longer[i]) == source
    {
      if source in s.positions {
        var i :| 0 <= i < |offers| && OS.SourceOf(offers[i]) == source;
        assert longer[i] == offers[i];
      } else {
        assert OS.SourceOf(longer[|offers|]) == source;
      }
    }
  }

  /** Offers of different resources are all stored, in the order of their arrival. */
  lemma {:induction false} AllDelivered(offers: seq<Offer>)
    requires SourcesDistinct(offers)
    ensures Delivered(OfferOrdering.AdmitAll(OS.EMPTY, offers), offers)
  {
    if offers != [] {
      var init, last := offers[..|offers| - 1], offers[|offers| - 1];
      assert offers == init + [last];
      AllDelivered(init);
      NewSourceAdmitted(OfferOrdering.AdmitAll(OS.EMPTY, init), init, last);
    }
  }

  lemma FleetSourcesDistinct(tenant: string, n: nat, up: real)
    ensures SourcesDistinct(Fleet(tenant, n, up))
  {
    FleetIs(tenant, n, up);
    forall i, j | 0 <= i < j < n
      ensures OS.SourceOf(Fleet(tenant, n, up)[i]) != OS.SourceOf(Fleet(tenant, n, up)[j])
    {
      NamesOrdered(i + 1, j + 1);
      NamesOrdered(j + 1, i + 1);
    }
  }

  lemma TwoFleetsDistinct(tenant: string, other: string, n: nat, up: real)
    requires tenant != other
    ensures SourcesDistinct(Fleet(tenant, n, up) + Fleet(other, n, up))
  {
    var x, y := Fleet(tenant, n, up), Fleet(other, n, up);
    FleetIs(tenant, n, up);
    FleetIs(other, n, up);
    FleetSourcesDistinct(tenant, n, up);
    FleetSourcesDistinct(other, n, up);
    forall i, j | 0 <= i < j < |x + y|
      ensures OS.SourceOf((x + y)[i]) != OS.SourceOf((x + y)[j])
    {
      assert (x + y)[i] == if i < n then x[i] else y[i - n];
      assert (x + y)[j] == if j < n then x[j] else y[j - n];
    }
  }

  // ----- What a query sees of it

  lemma {:induction false} LiveConcat(x: seq<Offer>, y: seq<Offer>, cell: Cell, now: Time)
    ensures OS.LiveIn(x + y, cell, now) == OS.LiveIn(x, cell, now) + OS.LiveIn(y, cell, now)
  {
    if y == [] {
      assert x + y == x;
    } else {
      var init, last := y[..|y| - 1], y[|y| - 1];
      assert x + y == x + init + [last];
      LiveConcat(x, init, cell, now);
      Publication.LiveAppend(x + init, last, cell, now);
    }
  }

  lemma {:induction false} FleetLive(tenant: string, n: nat, up: real, cell: Cell, now: Time)
    requires now <= END
    ensures OS.LiveIn(Fleet(tenant, n, up), cell, now) == if cell == CellAt(tenant) then Fleet(tenant, n, up) else []
  {
    if n > 0 {
      FleetLive(tenant, n - 1, up, cell, now);
      Publication.LiveAppend(Fleet(tenant, n - 1, up), FleetOffer(tenant, n, up), cell, now);
    }
  }

  function FleetStore(tenant: string, n: nat, up: real): OS.Store {
    OfferOrdering.AdmitAll(OS.EMPTY, Fleet(tenant, n, up))
  }

  /** A store that one fleet was delivered to. */
  lemma FleetStored(tenant: string, n: nat, up: real, now: Time)
    requires now <= END
    ensures OS.Valid(FleetStore(tenant, n, up))
    ensures OS.LiveIn(FleetStore(tenant, n, up).offers, CellAt(tenant), now) == Fleet(tenant, n, up)
    ensures OS.Eligible(FleetStore(tenant, n, up), CellAt(tenant), now) == Fleet(tenant, n, up)
  {
    FleetSourcesDistinct(tenant, n, up);
    AllDelivered(Fleet(tenant, n, up));
    FleetLive(tenant, n, up, CellAt(tenant), now);
    SortedFleet(tenant, n, up);
  }

  function TwoFleetStore(tenant: string, other: string, n: nat, up: real): OS.Store {
    OfferOrdering.AdmitAll(OS.EMPTY, Fleet(tenant, n, up) + Fleet(other, n, up))
  }

  /** Two tenants' fleets of resources with the same names, in one store. */
  lemma TwoFleetsStored(tenant: string, other: string, n: nat, up: real, now: Time)
    requires tenant != other && now <= END
    ensures var s := TwoFleetStore(tenant, other, n, up);
            && OS.Valid(s)
            && OS.LiveIn(s.offers, CellAt(tenant), now) == OS.Eligible(s, CellAt(tenant), now) == Fleet(tenant, n, up)
            && OS.LiveIn(s.offers, CellAt(other), now) == OS.Eligible(s, CellAt(other), now) == Fleet(other, n, up)
  {
    var x, y := Fleet(tenant, n, up), Fleet(other, n, up);
    TwoFleetsDistinct(tenant, other, n, up);
    AllDelivered(x + y);
    LiveConcat(x, y, CellAt(tenant), now);
    LiveConcat(x, y, CellAt(other), now);
    FleetLive(tenant, n, up, CellAt(tenant), now);
    FleetLive(other, n, up, CellAt(tenant), now);
    FleetLive(tenant, n, up, CellAt(other), now);
    FleetLive(other, n, up, CellAt(other), now);
    SortedFleet(tenant, n, up);
    SortedFleet(other, n, up);
    assert x + [] == x && [] + y == y;
  }
}
