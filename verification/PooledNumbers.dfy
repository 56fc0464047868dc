/** What an aggregate says of its offers and of the reservations taken from it
    (src/der_flex/aggregation/store.py:333-366, src/der_flex/reservations/service.py:391-422). */
module PooledNumbers {
  import opened Domain
  import opened Rounding
  import opened OfferStore
  import Aggregation = OfferAggregation
  import opened Publication
  import opened PublishedNumbers

  // ----- Offers pooled into one aggregate

  lemma {:induction false} SumAppends(offers: seq<Offer>, more: seq<Offer>, q: Quantity)
    ensures Sum(offers + more, q) == Sum(offers, q) + Sum(more, q)
  {
    if more == [] {
      assert offers + more == offers;
    } else {
      var init := more[..|more| - 1];
      assert (offers + more)[..|offers + more| - 1] == offers + init;
      SumAppends(offers, init, q);
    }
  }

  predicate Near(x: real, y: real, tolerance: real) {
    -tolerance <= x - y <= tolerance
  }

  /** Three roundings to six decimals. */
  const POOLED: real := 0.0000015

  lemma RoundedSum(x: real, y: real)
    ensures Near(Round6(x + y), Round6(x) + Round6(y), POOLED)
  {
    Round6Error(x);
    Round6Error(y);
    Round6Error(x + y);
  }

  /** The offers of two aggregates together have the sums of their numbers, field by field; each
      resource takes part once. */
  lemma PooledAddUp(offers: seq<Offer>, more: seq<Offer>)
    requires offers != [] && more != []
    ensures var a, b, pooled := NumbersOf(offers), NumbersOf(more), NumbersOf(offers + more);
            && Near(pooled.baseline, a.baseline + b.baseline, POOLED)
            && Near(pooled.up, a.up + b.up, POOLED) && Near(pooled.down, a.down + b.down, POOLED)
            && Near(pooled.upEnergy, a.upEnergy + b.upEnergy, POOLED)
            && Near(pooled.downEnergy, a.downEnergy + b.downEnergy, POOLED)
            && pooled.participants == a.participants + b.participants - |CohortOf(offers) * CohortOf(more)|
  {
    forall q: Quantity
      ensures Near(Round6(Sum(offers + more, q)), Round6(Sum(offers, q)) + Round6(Sum(more, q)), POOLED)
    {
      SumAppends(offers, more, q);
      RoundedSum(Sum(offers, q), Sum(more, q));
    }
    assert CohortOf(offers + more) == CohortOf(offers) + CohortOf(more);
  }

  /** An aggregate of one offer is that offer. */
  lemma OneOfferAsItIs(o: Offer)
    ensures NumbersOf([o]) == Numbers(Round6(o.baseline), Round6(o.up), Round6(o.down),
                                      Round6(o.upEnergy), Round6(o.downEnergy), 1, Round6(o.confidence))
  {
    forall q: Quantity
      ensures Sum([o], q) == Amount(o, q)
    {
      assert Sum([], q) == 0.0;
    }
    assert CohortOf([o]) == {o.resource};
    assert Confidence([o]) == o.confidence;
  }

  // ----- Confidence

  lemma Quotient(part: real, whole: real)
    requires whole != 0.0
    ensures part / whole * whole == part
  {
  }

  lemma ConfidenceIsMean(offers: seq<Offer>)
    requires offers != [] && Sum(offers, Weight) != 0.0
    ensures Confidence(offers) * Sum(offers, Weight) == Sum(offers, WeightedConfidence)
  {
    Quotient(Sum(offers, WeightedConfidence), Sum(offers, Weight));
  }

  /** Pooled confidences weigh as much as the capacities behind them. */
  lemma ConfidenceWeighs(offers: seq<Offer>, more: seq<Offer>)
    requires offers != [] && more != []
    requires Sum(offers, Weight) > 0.0 && Sum(more, Weight) > 0.0
    ensures Sum(offers + more, Weight) == Sum(offers, Weight) + Sum(more, Weight)
    ensures Confidence(offers + more) * Sum(offers + more, Weight) ==
              Confidence(offers) * Sum(offers, Weight) + Confidence(more) * Sum(more, Weight)
  {
    SumAppends(offers, more, Weight);
    SumAppends(offers, more, WeightedConfidence);
    ConfidenceIsMean(offers);
    ConfidenceIsMean(more);
    ConfidenceIsMean(offers + more);
  }

  predicate ConfidenceWithin(offers: seq<Offer>, low: real, high: real) {
    forall i :: 0 <= i < |offers| ==> low <= offers[i].confidence <= high
  }

  lemma WeightedWithin(confidence: real, weight: real, low: real, high: real)
    requires weight >= 0.0 && low <= confidence <= high
    ensures low * weight <= confidence * weight <= high * weight
  {
    assert (confidence - low) * weight >= 0.0 && (high - confidence) * weight >= 0.0;
  }

  lemma SumWithin(part: real, w: real, part': real, w': real, weight: real, confidence: real, low: real, high: real)
    requires low * w <= part <= high * w
    requires weight >= 0.0 && low <= confidence <= high
    requires part' == part + confidence * weight && w' == w + weight
    ensures low * w' <= part' <= high * w'
  {
    WeightedWithin(confidence, weight, low, high);
  }

  lemma LastWithin(offers: seq<Offer>, low: real, high: real) returns (weight: real, confidence: real)
    requires offers != [] && AllValid(offers) && ConfidenceWithin(offers, low, high)
    ensures weight >= 0.0 && low <= confidence <= high
    ensures Sum(offers, Weight) == Sum(offers[..|offers| - 1], Weight) + weight
    ensures Sum(offers, WeightedConfidence) == Sum(offers[..|offers| - 1], WeightedConfidence) + confidence * weight
  {
    var last := offers[|offers| - 1];
    assert ValidOffer(last);
    weight, confidence := last.up + last.down, last.confidence;
  }

  lemma {:induction false} WeightsWithin(offers: seq<Offer>, low: real, high: real) returns (part: real, w: real)
    requires AllValid(offers) && ConfidenceWithin(offers, low, high)
    ensures w == Sum(offers, Weight) && part == Sum(offers, WeightedConfidence)
    ensures low * w <= part <= high * w
  {
    part, w := 0.0, 0.0;
    if offers != [] {
      var part0, w0 := WeightsWithin(offers[..|offers| - 1], low, high);
      var weight, confidence := LastWithin(offers, low, high);
      part, w := part0 + confidence * weight, w0 + weight;
      SumWithin(part0, w0, part, w, weight, confidence, low, high);
    }
  }

  lemma MeanWithin(mean: real, part: real, whole: real, low: real, high: real)
    requires whole > 0.0 && mean * whole == part && low * whole <= part <= high * whole
    ensures low <= mean <= high
  {
    ProductOrder(mean, low, whole);
    ProductOrder(high, mean, whole);
  }

  lemma WeightedMeanBetween(offers: seq<Offer>, low: real, high: real, mean: real)
    requires AllValid(offers) && ConfidenceWithin(offers, low, high) && Sum(offers, Weight) != 0.0
    requires mean * Sum(offers, Weight) == Sum(offers, WeightedConfidence)
    ensures low <= mean <= high
  {
    SumsNonnegative(offers, Weight);
    var part, w := WeightsWithin(offers, low, high);
    MeanWithin(mean, part, w, low, high);
  }

  /** An aggregate's confidence lies between the least and the greatest of its offers', but for
      rounding. */
  lemma ConfidenceBetween(offers: seq<Offer>, low: real, high: real)
    requires AllValid(offers) && offers != [] && ConfidenceWithin(offers, low, high)
    ensures low <= Confidence(offers) <= high
    ensures Near(NumbersOf(offers).confidence, Confidence(offers), 0.0000005)
  {
    if Sum(offers, Weight) != 0.0 {
      ConfidenceIsMean(offers);
      WeightedMeanBetween(offers, low, high, Confidence(offers));
    } else {
      Aggregation.LeastConfidenceIs(offers);
    }
    Round6Error(Confidence(offers));
  }

  /** Offers without any capacity are as confident as the least of them. */
  lemma NoCapacityLeast(offers: seq<Offer>)
    requires offers != [] && forall o :: o in offers ==> o.up == 0.0 == o.down
    ensures forall o :: o in offers ==> Confidence(offers) <= o.confidence
    ensures exists o :: o in offers && o.confidence == Confidence(offers)
  {
    NoWeight(offers);
    Aggregation.LeastConfidenceIs(offers);
  }

  lemma {:induction false} NoWeight(offers: seq<Offer>)
    requires forall o :: o in offers ==> o.up == 0.0 == o.down
    ensures Sum(offers, Weight) == 0.0
  {
    if offers != [] {
      NoWeight(offers[..|offers| - 1]);
      assert offers[|offers| - 1] in offers;
    }
  }

  // ----- What reservations take

  lemma {:induction false} ReservedAppends(reservations: seq<Reservation>, more: seq<Reservation>, cell: Cell,
                                           direction: Direction)
    ensures ReservedPower(reservations + more, cell, direction) ==
              ReservedPower(reservations, cell, direction) + ReservedPower(more, cell, direction)
  {
    if more == [] {
      assert reservations + more == reservations;
    } else {
      var init := more[..|more| - 1];
      assert (reservations + more)[..|reservations + more| - 1] == reservations + init;
      ReservedAppends(reservations, init, cell, direction);
    }
  }

  /** A reservation among others counts its power for its own product, and nowhere else. */
  lemma ReservationTakes(before: seq<Reservation>, r: Reservation, after: seq<Reservation>, cell: Cell,
                         direction: Direction)
    ensures ReservedPower(before + [r] + after, cell, direction) - ReservedPower(before + after, cell, direction) ==
              if r.cell == cell && r.direction == direction then r.allocatedPower else 0.0
  {
    ReservedAppends(before + [r], after, cell, direction);
    ReservedAppends(before, [r], cell, direction);
    ReservedAppends(before, after, cell, direction);
    assert ReservedPower([], cell, direction) == 0.0;
  }

  /** What is left of an amount, rounded, of which some is used. */
  predicate LeftOf(rest: real, amount: real, used: real) {
    Near(rest, if used <= amount then amount - used else 0.0, 0.0000005)
  }

  lemma LeftIs(amount: real, used: real)
    ensures LeftOf(Left(amount, used), amount, used)
  {
    Round6Error(Max(0.0, amount - used));
  }

  lemma EnergyIs(power: real, cell: Cell, hours: real)
    requires hours * 3_600_000_000.0 == (cell.end - cell.start) as real
    ensures EnergyOver(power, Hours(cell)) == power * hours
  {
    assert Hours(cell) == hours;
  }

  /** What reservations of these powers, using these energies, leave of an aggregate: nothing else
      of it changes. */
  predicate Leaves(rest: Numbers, numbers: Numbers, upward: real, downward: real, upwardEnergy: real,
                   downwardEnergy: real) {
    && LeftOf(rest.up, numbers.up, upward) && LeftOf(rest.down, numbers.down, downward)
    && LeftOf(rest.upEnergy, numbers.upEnergy, upwardEnergy)
    && LeftOf(rest.downEnergy, numbers.downEnergy, downwardEnergy)
    && rest.baseline == numbers.baseline && rest.participants == numbers.participants
    && rest.confidence == numbers.confidence
  }

  lemma LessReservedLeaves(numbers: Numbers, cell: Cell, upward: real, downward: real, upwardEnergy: real,
                           downwardEnergy: real)
    requires upwardEnergy == EnergyOver(upward, Hours(cell)) && downwardEnergy == EnergyOver(downward, Hours(cell))
    ensures Leaves(LessReserved(numbers, cell, upward, downward), numbers, upward, downward, upwardEnergy,
                   downwardEnergy)
  {
    LeftIs(numbers.up, upward);
    LeftIs(numbers.down, downward);
    LeftIs(numbers.upEnergy, upwardEnergy);
    LeftIs(numbers.downEnergy, downwardEnergy);
  }

  /** Each capacity of a residual lacks the power reserved in its own direction, and each energy
      that power over the interval's hours. */
  lemma ResidualEnergies(numbers: Numbers, cell: Cell, reservations: seq<Reservation>, upward: real, downward: real,
                         hours: real)
    requires upward == ReservedPower(reservations, cell, UPWARD)
    requires downward == ReservedPower(reservations, cell, DOWNWARD)
    requires hours * 3_600_000_000.0 == (cell.end - cell.start) as real
    ensures Leaves(Residual(numbers, cell, reservations), numbers, upward, downward, upward * hours, downward * hours)
  {
    EnergyIs(upward, cell, hours);
    EnergyIs(downward, cell, hours);
    LessReservedLeaves(numbers, cell, upward, downward, upward * hours, downward * hours);
  }
}
