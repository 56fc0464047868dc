/** What the published numbers of a cell say: which cells a query answers, that its aggregates are
    valid, and how far the privacy policy moves them (src/der_flex/domain/store.py:269-368,
    src/der_flex/privacy.py:73-113). */
module PublishedNumbers {
  import opened Domain
  import opened Rounding
  import opened OfferStore
  import opened Publication

  type Offer = Domain.Offer

  // ----- Which cells a query answers

  predicate CellsDistinct(cells: seq<Cell>) {
    forall i, j :: 0 <= i < j < |cells| ==> cells[i] != cells[j]
  }

  predicate Answered(aggregates: seq<Aggregate>, cell: Cell) {
    exists k :: 0 <= k < |aggregates| && aggregates[k].cell == cell
  }

  lemma AnsweredAppend(before: seq<Aggregate>, after: seq<Aggregate>, cell: Cell)
    ensures Answered(before + after, cell) <==> Answered(before, cell) || Answered(after, cell)
  {
    if Answered(before, cell) {
      var k :| 0 <= k < |before| && before[k].cell == cell;
      assert (before + after)[k].cell == cell;
    }
    if Answered(after, cell) {
      var k :| 0 <= k < |after| && after[k].cell == cell;
      assert (before + after)[|before| + k].cell == cell;
    }
  }

  /** One pass: the cell itself is the only one it may suppress or answer. */
  lemma PublishExactly(s: Store, cell: Cell, now: Time, minimum: nat, other: Cell)
    ensures var answer, live := Publish(s, cell, now, minimum), LiveIn(s.offers, cell, now);
            && (Answered(answer.aggregates, cell) <==>
                  live != [] && cell !in answer.store.suppressed && |CohortOf(live)| >= minimum)
            && (other != cell ==>
                  !Answered(answer.aggregates, other) &&
                  (other in answer.store.suppressed <==> other in s.suppressed))
  {
    var answer := Publish(s, cell, now, minimum);
    if answer.aggregates != [] {
      assert answer.aggregates[0].cell == cell;
    }
  }

  lemma {:induction false} PublishAllExactly(s: Store, cells: seq<Cell>, now: Time, minimum: nat, cell: Cell)
    requires CellsDistinct(cells)
    ensures var answer, live := PublishAll(s, cells, now, minimum), LiveIn(s.offers, cell, now);
            && (Answered(answer.aggregates, cell) <==>
                  && cell in cells && live != []
                  && cell !in answer.store.suppressed && |CohortOf(live)| >= minimum)
            && (cell !in cells ==> (cell in answer.store.suppressed <==> cell in s.suppressed))
  {
    if cells != [] {
      var init, last := cells[..|cells| - 1], cells[|cells| - 1];
      var before := PublishAll(s, init, now, minimum);
      assert cells == init + [last];
      PublishAllExactly(s, init, now, minimum, cell);
      PublishAllSuppression(s, init, now, minimum);
      PublishExactly(before.store, last, now, minimum, cell);
      AnsweredAppend(before.aggregates, Publish(before.store, last, now, minimum).aggregates, cell);
    }
  }

  lemma {:induction false} InsertCellSorts(cells: seq<Cell>, cell: Cell)
    requires CellsSorted(cells)
    requires forall c :: c in cells ==> c.tenant == cell.tenant && c.zone == cell.zone
    ensures CellsSorted(InsertCell(cells, cell))
  {
    if cells != [] {
      assert cells[0] in cells;
      if CellLess(cell, cells[0]) {
        assert forall k :: 0 <= k < |cells| ==> CellLess(cell, cells[k]);
      } else if cells[0] != cell {
        InsertCellSorts(cells[1..], cell);
        InsertCellIs(cells[1..], cell);
        var rest := InsertCell(cells[1..], cell);
        forall k | 0 <= k < |rest|
          ensures CellLess(cells[0], rest[k])
        {
          assert rest[k] in rest;
          if rest[k] != cell {
            var m :| 0 <= m < |cells[1..]| && cells[1..][m] == rest[k];
            assert cells[m + 1] == rest[k];
          }
        }
      }
    }
  }

  predicate CellsSorted(cells: seq<Cell>) {
    forall i, j :: 0 <= i < j < |cells| ==> CellLess(cells[i], cells[j])
  }

  lemma {:induction false} VisibleCellsSorted(offers: seq<Offer>, w: Window, now: Time)
    ensures CellsSorted(VisibleCells(offers, w, now))
    ensures forall c :: c in VisibleCells(offers, w, now) ==> InWindow(c, w)
  {
    if offers != [] {
      var init, last := offers[..|offers| - 1], offers[|offers| - 1];
      VisibleCellsSorted(init, w, now);
      if Visible(last, w, now) {
        InsertCellSorts(VisibleCells(init, w, now), CellOf(last));
        InsertCellIs(VisibleCells(init, w, now), CellOf(last));
      }
    }
  }

  /** A query answers a cell exactly when it lies in the window, has a live offer and enough
      participants, and is not suppressed, by then or before. */
  lemma QueryAnswersExactly(s: Store, w: Window, now: Time, minimum: nat, cell: Cell)
    ensures var answer, live := Query(s, w, now, minimum), LiveIn(s.offers, cell, now);
            Answered(answer.aggregates, cell) <==>
              && InWindow(cell, w) && live != []
              && cell !in answer.store.suppressed && |CohortOf(live)| >= minimum
  {
    VisibleCellsSorted(s.offers, w, now);
    VisibleCellsAre(s.offers, w, now, cell);
    PublishAllExactly(s, VisibleCells(s.offers, w, now), now, minimum, cell);
  }

  /** And it answers with the numbers of all live offers of the cell, as of its own clock. */
  lemma {:induction false} AnswersAre(s: Store, cells: seq<Cell>, now: Time, minimum: nat, a: Aggregate)
    requires a in PublishAll(s, cells, now, minimum).aggregates
    ensures LiveIn(s.offers, a.cell, now) != []
    ensures a.numbers == NumbersOf(LiveIn(s.offers, a.cell, now)) && a.generatedAt == now
    ensures PublishAll(s, cells, now, minimum).store.offers == s.offers
  {
    var init := cells[..|cells| - 1];
    OffersStay(s, init, now, minimum);
    OffersStay(s, cells, now, minimum);
    if a in PublishAll(s, init, now, minimum).aggregates {
      AnswersAre(s, init, now, minimum, a);
    }
  }

  lemma {:induction false} OffersStay(s: Store, cells: seq<Cell>, now: Time, minimum: nat)
    ensures PublishAll(s, cells, now, minimum).store.offers == s.offers
  {
    if cells != [] {
      OffersStay(s, cells[..|cells| - 1], now, minimum);
    }
  }

  // ----- Aggregates are valid

  predicate AllValid(offers: seq<Offer>) {
    forall i :: 0 <= i < |offers| ==> ValidOffer(offers[i])
  }

  lemma {:induction false} SumsNonnegative(offers: seq<Offer>, q: Quantity)
    requires AllValid(offers) && q != Baseline
    ensures Sum(offers, q) >= 0.0
  {
    if offers != [] {
      SumsNonnegative(offers[..|offers| - 1], q);
      var last := offers[|offers| - 1];
      assert ValidOffer(last);
      assert last.confidence * (last.up + last.down) >= 0.0;
    }
  }

  /** A weighted confidence never exceeds its weights. */
  lemma {:induction false} WeightedAtMostWeight(offers: seq<Offer>)
    requires AllValid(offers)
    ensures Sum(offers, WeightedConfidence) <= Sum(offers, Weight)
  {
    if offers != [] {
      WeightedAtMostWeight(offers[..|offers| - 1]);
      var last := offers[|offers| - 1];
      assert ValidOffer(last);
      assert (1.0 - last.confidence) * (last.up + last.down) >= 0.0;
    }
  }

  lemma {:induction false} LeastConfidenceValid(offers: seq<Offer>)
    requires AllValid(offers) && offers != []
    ensures 0.0 <= LeastConfidence(offers) <= 1.0
  {
    assert ValidOffer(offers[|offers| - 1]);
    if |offers| > 1 {
      LeastConfidenceValid(offers[..|offers| - 1]);
    }
  }

  lemma RatioValid(part: real, whole: real)
    requires 0.0 <= part <= whole && whole != 0.0
    ensures 0.0 <= part / whole <= 1.0
  {
    assert part / whole * whole == part;
  }

  lemma ConfidenceValid(offers: seq<Offer>)
    requires AllValid(offers) && offers != []
    ensures 0.0 <= Confidence(offers) <= 1.0
  {
    SumsNonnegative(offers, Weight);
    SumsNonnegative(offers, WeightedConfidence);
    WeightedAtMostWeight(offers);
    LeastConfidenceValid(offers);
    if Sum(offers, Weight) != 0.0 {
      RatioValid(Sum(offers, WeightedConfidence), Sum(offers, Weight));
    }
  }

  /** What the aggregate model accepts. */
  predicate ValidNumbers(n: Numbers) {
    && n.up >= 0.0 && n.down >= 0.0 && n.upEnergy >= 0.0 && n.downEnergy >= 0.0
    && n.participants >= 1 && 0.0 <= n.confidence <= 1.0
  }

  lemma NonnegativeRounds(x: real)
    requires x >= 0.0
    ensures Round6(x) >= 0.0
  {
    Round6Between(x, 0, x.Floor + 1);
  }

  /** Aggregating valid offers never fails the aggregate's own validation. */
  lemma AggregateIsValid(offers: seq<Offer>)
    requires AllValid(offers) && offers != []
    ensures ValidNumbers(NumbersOf(offers))
  {
    SumsNonnegative(offers, Up);
    SumsNonnegative(offers, Down);
    SumsNonnegative(offers, UpEnergy);
    SumsNonnegative(offers, DownEnergy);
    NonnegativeRounds(Sum(offers, Up));
    NonnegativeRounds(Sum(offers, Down));
    NonnegativeRounds(Sum(offers, UpEnergy));
    NonnegativeRounds(Sum(offers, DownEnergy));
    ConfidenceValid(offers);
    Round6Between(Confidence(offers), 0, 1);
    assert offers[0].resource in CohortOf(offers);
  }

  // ----- How far the policy moves them

  lemma FloorMultipleBounds(value: real, resolution: real)
    requires resolution > 0.0
    ensures value - resolution < FloorMultiple(value, resolution) <= value
  {
    WholeSteps(value, resolution);
  }

  lemma NearestMultipleBounds(value: real, resolution: real)
    requires resolution > 0.0
    ensures -resolution / 2.0 <= NearestMultiple(value, resolution) - value <= resolution / 2.0
  {
    NearestStep(value, resolution, RoundHalfEven(value / resolution));
  }

  lemma FloorToBounds(value: real, resolution: real)
    requires resolution > 0.0
    ensures value - resolution - 0.0000000005 < FloorTo(value, resolution) <= value + 0.000000000501
  {
    FloorMultipleBounds(value + 0.000000000001, resolution);
    Round9Error(FloorMultiple(value + 0.000000000001, resolution));
  }

  lemma NearestToBounds(value: real, resolution: real)
    requires resolution > 0.0
    ensures -resolution / 2.0 - 0.0000000005 <= NearestTo(value, resolution) - value <= resolution / 2.0 + 0.0000000005
  {
    NearestMultipleBounds(value, resolution);
    Round9Error(NearestMultiple(value, resolution));
  }

  predicate Floored(published: real, value: real, resolution: real) {
    value - resolution - 0.0000000005 < published <= value + 0.000000000501
  }

  function WholeBuckets(q: nat, size: nat): nat {
    q * size
  }

  /** Quantities go down to the resolution, the baseline to the nearest, participants to a bucket. */
  ghost predicate Coarsened(p: Policy, published: Numbers, exact: Numbers)
    requires ValidPolicy(p)
  {
    && -p.powerResolution / 2.0 - 0.0000000005 <= published.baseline - exact.baseline <= p.powerResolution / 2.0 + 0.0000000005
    && Floored(published.up, exact.up, p.powerResolution)
    && Floored(published.down, exact.down, p.powerResolution)
    && Floored(published.upEnergy, exact.upEnergy, p.energyResolution)
    && Floored(published.downEnergy, exact.downEnergy, p.energyResolution)
    && Floored(published.confidence, exact.confidence, p.confidenceResolution)
    && 1 <= published.participants <= exact.participants
    && exact.participants - p.bucketSize < published.participants
    && (published.participants == 1 || exists q :: published.participants == WholeBuckets(q, p.bucketSize))
  }

  lemma SanitizeCoarsens(p: Policy, aggregate: Aggregate, epoch: Time)
    requires ValidPolicy(p) && EligibleToPublish(p, aggregate)
    ensures Coarsened(p, Sanitize(p, aggregate, epoch).numbers, aggregate.numbers)
  {
    var n := aggregate.numbers;
    NearestToBounds(n.baseline, p.powerResolution);
    FloorToBounds(n.up, p.powerResolution);
    FloorToBounds(n.down, p.powerResolution);
    FloorToBounds(n.upEnergy, p.energyResolution);
    FloorToBounds(n.downEnergy, p.energyResolution);
    FloorToBounds(n.confidence, p.confidenceResolution);
    BucketsFit(n.participants, p.bucketSize);
  }

  lemma BucketsFit(n: nat, size: nat)
    requires size > 0
    ensures n - size < WholeBuckets(n / size, size) <= n
  {
    var q := n / size;
    assert n == q * size + n % size;
  }

  /** Every response of every run coarsens what the residual stage let through for its cell, for
      no fewer participants than the policy asks for. */
  lemma ResponseIsCoarsened(states: seq<State>, steps: seq<Step>, minimum: nat, p: Policy, k: nat, r: Aggregate)
    requires ValidPolicy(p) && Run(states, steps, minimum, p) && k < |states| && r in states[k].responses
    ensures exists x :: x in states[k].adjusted && x.cell == r.cell
              && x.numbers.participants >= p.minimumParticipants && Coarsened(p, r.numbers, x.numbers)
  {
    Reachable(states, steps, minimum, p, k);
    assert FromAdjusted(states[k].adjusted, p, r);
    var x :| x in states[k].adjusted && EligibleToPublish(p, x) && r == Sanitize(p, x, r.generatedAt);
    SanitizeCoarsens(p, x, r.generatedAt);
  }
}
