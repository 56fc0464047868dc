/** Aggregation does not depend on the order in which a store keeps its offers, so neither do the
    numbers of a cell on the order in which they were delivered. */
module OfferAggregation {
  import opened Domain
  import opened OfferStore
  import opened OfferOrdering
  import Publication

  type Offer = Domain.Offer

  predicate NoRepeats(offers: seq<Offer>) {
    forall i, j :: 0 <= i < j < |offers| ==> offers[i] != offers[j]
  }

  function WithoutOne(offers: seq<Offer>, k: nat): seq<Offer>
    requires k < |offers|
  {
    offers[..k] + offers[k + 1..]
  }

  lemma WithoutOneIs(offers: seq<Offer>, k: nat)
    requires NoRepeats(offers) && k < |offers|
    ensures NoRepeats(WithoutOne(offers, k))
    ensures forall o :: o in WithoutOne(offers, k) <==> o in offers && o != offers[k]
  {
    var rest := WithoutOne(offers, k);
    assert forall i :: 0 <= i < |rest| ==> rest[i] == (if i < k then offers[i] else offers[i + 1]);
    forall o | o in offers && o != offers[k]
      ensures o in rest
    {
      var i :| 0 <= i < |offers| && offers[i] == o;
      assert rest[if i < k then i else i - 1] == o;
    }
  }

  lemma {:induction false} SumWithoutOne(offers: seq<Offer>, k: nat, q: Quantity)
    requires k < |offers|
    ensures Sum(offers, q) == Sum(WithoutOne(offers, k), q) + Amount(offers[k], q)
  {
    var n := |offers| - 1;
    if k == n {
      assert WithoutOne(offers, k) == offers[..n];
    } else {
      SumWithoutOne(offers[..n], k, q);
      assert WithoutOne(offers, k)[..n - 1] == WithoutOne(offers[..n], k);
      assert WithoutOne(offers, k)[n - 1] == offers[n];
    }
  }

  lemma HasMember(offers: seq<Offer>)
    requires offers != []
    ensures exists o :: o in offers
  {
    assert offers[0] in offers;
  }

  lemma NothingInCommon(offers: seq<Offer>, others: seq<Offer>)
    requires offers == [] && forall o :: o in offers <==> o in others
    ensures others == []
  {
    if others != [] {
      HasMember(others);
    }
  }

  lemma {:induction false} SameSum(offers: seq<Offer>, others: seq<Offer>, q: Quantity)
    requires NoRepeats(offers) && NoRepeats(others)
    requires forall o :: o in offers <==> o in others
    ensures Sum(offers, q) == Sum(others, q)
  {
    if offers == [] {
      NothingInCommon(offers, others);
    } else {
      var n := |offers| - 1;
      assert offers[n] in others;
      var k :| 0 <= k < |others| && others[k] == offers[n];
      assert WithoutOne(offers, n) == offers[..n];
      WithoutOneIs(offers, n);
      WithoutOneIs(others, k);
      SumWithoutOne(others, k, q);
      SameSum(offers[..n], WithoutOne(others, k), q);
    }
  }

  lemma {:induction false} LeastConfidenceIs(offers: seq<Offer>)
    requires offers != []
    ensures forall o :: o in offers ==> LeastConfidence(offers) <= o.confidence
    ensures exists o :: o in offers && o.confidence == LeastConfidence(offers)
  {
    var init, last := offers[..|offers| - 1], offers[|offers| - 1];
    assert offers == init + [last];
    assert last in offers;
    if init != [] {
      LeastConfidenceIs(init);
      var o :| o in init && o.confidence == LeastConfidence(init);
      assert o in offers;
    }
  }

  lemma SameLeastConfidence(offers: seq<Offer>, others: seq<Offer>)
    requires offers != [] && others != [] && forall o :: o in offers <==> o in others
    ensures LeastConfidence(offers) == LeastConfidence(others)
  {
    LeastConfidenceIs(offers);
    LeastConfidenceIs(others);
    var o :| o in offers && o.confidence == LeastConfidence(offers);
    var p :| p in others && p.confidence == LeastConfidence(others);
    assert LeastConfidence(others) <= o.confidence && LeastConfidence(offers) <= p.confidence;
  }

  /** The same offers in another order aggregate to the same numbers. */
  lemma SameNumbers(offers: seq<Offer>, others: seq<Offer>)
    requires NoRepeats(offers) && NoRepeats(others) && offers != [] && others != []
    requires forall o :: o in offers <==> o in others
    ensures NumbersOf(offers) == NumbersOf(others)
  {
    forall q: Quantity
      ensures Sum(offers, q) == Sum(others, q)
    {
      SameSum(offers, others, q);
    }
    SameLeastConfidence(offers, others);
    assert CohortOf(offers) == CohortOf(others);
  }

  lemma {:induction false} LiveNoRepeats(offers: seq<Offer>, cell: Cell, now: Time)
    requires KeysDistinct(offers)
    ensures NoRepeats(LiveIn(offers, cell, now))
  {
    if offers != [] {
      var init, last := offers[..|offers| - 1], offers[|offers| - 1];
      LastKeyIsNew(offers);
      LiveNoRepeats(init, cell, now);
      Publication.LiveMember(init, cell, now);
      var before := LiveIn(init, cell, now);
      assert forall i :: 0 <= i < |before| ==> before[i] in before;
    }
  }

  /** Whatever order conflict-free offers arrive in, and however often, every cell ends with the
      same participants and the same numbers, at any clock. */
  lemma NumbersConverge(offers: seq<Offer>, others: seq<Offer>, cell: Cell, now: Time)
    requires ConflictFree(offers) && forall o :: o in offers <==> o in others
    ensures var live, live' := LiveIn(AdmitAll(EMPTY, offers).offers, cell, now), LiveIn(AdmitAll(EMPTY, others).offers, cell, now);
            && CohortOf(live) == CohortOf(live')
            && (live == [] <==> live' == [])
            && (live != [] && live' != [] ==> NumbersOf(live) == NumbersOf(live'))
  {
    var stored, stored' := AdmitAll(EMPTY, offers).offers, AdmitAll(EMPTY, others).offers;
    OrderIsIrrelevant(offers, others);
    DeliveryConverges(offers);
    DeliveryConverges(others);
    SameLive(stored, stored', cell, now);
  }

  lemma SameLive(stored: seq<Offer>, stored': seq<Offer>, cell: Cell, now: Time)
    requires KeysDistinct(stored) && KeysDistinct(stored') && forall o :: o in stored <==> o in stored'
    ensures var live, live' := LiveIn(stored, cell, now), LiveIn(stored', cell, now);
            && CohortOf(live) == CohortOf(live')
            && (live == [] <==> live' == [])
            && (live != [] && live' != [] ==> NumbersOf(live) == NumbersOf(live'))
  {
    var live, live' := LiveIn(stored, cell, now), LiveIn(stored', cell, now);
    Publication.LiveMember(stored, cell, now);
    Publication.LiveMember(stored', cell, now);
    LiveNoRepeats(stored, cell, now);
    LiveNoRepeats(stored', cell, now);
    if live == [] {
      NothingInCommon(live, live');
    } else {
      assert live[0] in live';
      SameNumbers(live, live');
    }
  }
}
