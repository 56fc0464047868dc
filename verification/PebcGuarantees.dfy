/** What every offer of the normaliser guarantees, for all forecasts, constraints and settings. */
module PebcGuarantees {
  import opened Domain
  import opened Pebc
  import opened PebcEnergy
  import opened PebcResampling

  type Offer = Domain.Offer

  // ----- What a successful run passed through

  predicate HasLimits(constraints: Constraints) {
    Limits(constraints.ranges, true) != [] && Limits(constraints.ranges, false) != [] && constraints.validUntil.Some?
  }

  /** The segments kept from the forecast. */
  function RawSegments(
      envelope: Envelope, constraints: Constraints, forecast: Forecast, settings: Settings): Result<seq<Segment>>
    requires HasLimits(constraints)
  {
    KeptSegments(forecast.start, forecast.elements, Horizon(constraints.validFrom, constraints.validUntil.value),
                 BandOf(constraints.ranges, envelope, settings))
  }

  ghost predicate Passed(
      source: Source, envelope: Envelope, constraints: Constraints, forecast: Forecast, settings: Settings,
      raw: seq<Segment>, offers: seq<Offer>)
  {
    && HasLimits(constraints) && raw != []
    && RawSegments(envelope, constraints, forecast, settings) == Ok(raw)
    && Ready(raw, envelope)
    && AllInBand(raw, BandOf(constraints.ranges, envelope, settings), Horizon(constraints.validFrom, constraints.validUntil.value))
    && Aligned(raw, forecast.start) && constraints.validUntil.value - constraints.validFrom <= DAY
    && settings.resolution > 0
    && offers == Resampled(LimitedOf(raw, envelope), settings.resolution, source, constraints)
  }

  lemma RampNonnegative(ranges: seq<LimitRange>, envelope: Envelope, settings: Settings)
    requires Limits(ranges, true) != [] && Limits(ranges, false) != []
    requires envelope.rampRate >= 0.0 && settings.responseTime > 0
    ensures BandOf(ranges, envelope, settings).ramp >= 0.0
  {
  }

  /** Something was kept of the forecast. */
  predicate HasSegments(envelope: Envelope, constraints: Constraints, forecast: Forecast, settings: Settings) {
    && HasLimits(constraints)
    && RawSegments(envelope, constraints, forecast, settings).Ok?
    && RawSegments(envelope, constraints, forecast, settings).value != []
  }

  /** The checks that a result has passed. */
  lemma NormalizedChecked(
      source: Source, envelope: Envelope, constraints: Constraints, forecast: Forecast, settings: Settings, offers: seq<Offer>)
      returns (raw: seq<Segment>)
    requires Normalized(source, envelope, constraints, forecast, settings) == Ok(offers)
    requires offers != [] || HasSegments(envelope, constraints, forecast, settings)
    ensures HasLimits(constraints) && RawSegments(envelope, constraints, forecast, settings) == Ok(raw) && raw != []
    ensures envelope.minEnergy <= envelope.initialEnergy <= envelope.maxEnergy && envelope.rampRate >= 0.0
    ensures settings.responseTime > 0 && settings.resolution > 0
    ensures constraints.validUntil.value - constraints.validFrom <= DAY
    ensures EndEnergies(raw, envelope).Ok? && AllPositive(raw)
    ensures offers == Resampled(LimitedOf(raw, envelope), settings.resolution, source, constraints)
  {
    raw := RawSegments(envelope, constraints, forecast, settings).value;
  }

  lemma NormalizedPassed(
      source: Source, envelope: Envelope, constraints: Constraints, forecast: Forecast, settings: Settings, offers: seq<Offer>)
      returns (raw: seq<Segment>)
    requires Normalized(source, envelope, constraints, forecast, settings) == Ok(offers)
    requires offers != [] || HasSegments(envelope, constraints, forecast, settings)
    ensures Passed(source, envelope, constraints, forecast, settings, raw, offers)
  {
    raw := NormalizedChecked(source, envelope, constraints, forecast, settings, offers);
    RampNonnegative(constraints.ranges, envelope, settings);
    KeptSegmentsAre(forecast.start, forecast.elements, Horizon(constraints.validFrom, constraints.validUntil.value),
                    BandOf(constraints.ranges, envelope, settings));
    KeptAligned(forecast.start, forecast.elements, Horizon(constraints.validFrom, constraints.validUntil.value),
                BandOf(constraints.ranges, envelope, settings));
  }

  /** Forecast durations are whole milliseconds, so segments begin and end on the forecast's own grid. */
  ghost predicate Aligned(segments: seq<Segment>, start: Time) {
    forall i :: 0 <= i < |segments| ==>
      (segments[i].start - start) % 1000 == 0 && (segments[i].end - start) % 1000 == 0
  }

  lemma {:induction false} KeptAligned(start: Time, elements: seq<Element>, horizon: Horizon, band: Band)
    ensures (CursorAfter(start, elements) - start) % 1000 == 0
    ensures KeptSegments(start, elements, horizon, band).Ok? ==>
              Aligned(KeptSegments(start, elements, horizon, band).value, start)
  {
    if elements != [] {
      KeptAligned(start, elements[..|elements| - 1], horizon, band);
    }
  }

  // ----- Energy safety after resampling

  lemma {:induction false} ChosenOffered(offers: seq<Offer>, q: Quantity, choice: seq<real>)
    requires q != Baseline && |choice| == |offers|
    requires forall j :: 0 <= j < |offers| ==> 0.0 <= choice[j] <= OfferedEnergy(offers[j], q)
    ensures 0.0 <= SumOf(choice) <= Offered(offers, q)
  {
    if offers != [] {
      ChosenOffered(offers[..|offers| - 1], q, choice[..|choice| - 1]);
    }
  }

  lemma LimitedNonnegative(raw: seq<Segment>, envelope: Envelope)
    requires Ready(raw, envelope)
    ensures NonnegativeWatts(LimitedOf(raw, envelope), Up) && NonnegativeWatts(LimitedOf(raw, envelope), Down)
    ensures forall i :: 0 <= i < |raw| ==>
              LimitedOf(raw, envelope)[i].up <= raw[i].up && LimitedOf(raw, envelope)[i].down <= raw[i].down
  {
    WantedNonnegative(raw);
    var ends := EndEnergies(raw, envelope).value;
    GrantsBounded(UpWanted(raw), UpHeadroom(ends, envelope));
    GrantsBounded(DownWanted(raw), DownHeadroom(ends, envelope));
    forall i | 0 <= i < |raw|
      ensures 0.0 <= LimitedOf(raw, envelope)[i].up <= raw[i].up
      ensures 0.0 <= LimitedOf(raw, envelope)[i].down <= raw[i].down
    {
      PowerForBounded(UpGrants(raw, envelope)[i], raw[i].up, Length(raw[i]));
      PowerForBounded(DownGrants(raw, envelope)[i], raw[i].down, Length(raw[i]));
    }
  }

  /** The first k offers promise no more than the segments pass until the last of them ends. */
  lemma OffersUntil(
      raw: seq<Segment>, envelope: Envelope, resolution: int, source: Source, constraints: Constraints,
      q: Quantity, k: nat, t: Time)
    requires Ready(raw, envelope) && raw != [] && resolution > 0 && constraints.validUntil.Some? && q != Baseline
    requires k <= |Resampled(LimitedOf(raw, envelope), resolution, source, constraints)|
    requires k > 0 ==> Resampled(LimitedOf(raw, envelope), resolution, source, constraints)[k - 1].end <= t
    ensures Offered(Resampled(LimitedOf(raw, envelope), resolution, source, constraints)[..k], q)
         <= EnergyUntil(LimitedOf(raw, envelope), Of(q), t)
  {
    var limited := LimitedOf(raw, envelope);
    var first := AlignedUp(limited[0].start, resolution);
    var final := Earlier(limited[|limited| - 1].end, constraints.validUntil.value);
    var n := BucketCount(first, final, resolution);
    LimitedOrdered(raw, envelope);
    LimitedNonnegative(raw, envelope);
    if k == 0 {
      UntilMonotone(limited, q, t, t);
    } else {
      var offers := Buckets(limited, first, n, resolution, source, constraints);
      BucketsKeepPromises(limited, q, first, n, resolution, source, constraints);
      UntilMonotone(limited, q, offers[k - 1].end, t);
    }
  }

  lemma PassedEnergySafety(
      source: Source, envelope: Envelope, constraints: Constraints, forecast: Forecast, settings: Settings,
      raw: seq<Segment>, offers: seq<Offer>, up: seq<real>, down: seq<real>, t: Time)
    requires Passed(source, envelope, constraints, forecast, settings, raw, offers)
    requires |up| == |down| <= |offers|
    requires forall j :: 0 <= j < |up| ==> 0.0 <= up[j] <= offers[j].upEnergy && 0.0 <= down[j] <= offers[j].downEnergy
    requires |up| > 0 ==> offers[|up| - 1].end <= t
    ensures var energy := envelope.initialEnergy + EnergyUntil(raw, Of(Baseline), t) - SumOf(up) + SumOf(down);
            envelope.minEnergy - Slack(|raw|) <= energy <= envelope.maxEnergy + Slack(|raw|)
  {
    var k := |up|;
    assert forall j :: 0 <= j < k ==> OfferedEnergy(offers[..k][j], Up) == offers[j].upEnergy;
    assert forall j :: 0 <= j < k ==> OfferedEnergy(offers[..k][j], Down) == offers[j].downEnergy;
    ChosenOffered(offers[..k], Up, up);
    ChosenOffered(offers[..k], Down, down);
    OffersUntil(raw, envelope, settings.resolution, source, constraints, Up, k, t);
    OffersUntil(raw, envelope, settings.resolution, source, constraints, Down, k, t);
    MomentsSafe(raw, envelope, t);
  }

  // ----- One bucket

  ghost predicate AllOverlap(overlaps: seq<Segment>, from: Time, until: Time) {
    forall i :: 0 <= i < |overlaps| ==> Overlaps(overlaps[i], from, until) && overlaps[i].start <= overlaps[i].end
  }

  lemma {:induction false} OverlappingAre(segments: seq<Segment>, from: Time, until: Time)
    requires Ordered(segments)
    ensures var overlaps := Overlapping(segments, from, until);
            AllOverlap(overlaps, from, until) && forall s :: s in overlaps ==> s in segments
  {
    if segments != [] {
      OverlappingAre(segments[..|segments| - 1], from, until);
    }
  }

  lemma {:induction false} CoveredAtMost(segments: seq<Segment>, from: Time, until: Time, end: Time)
    requires Ordered(segments) && from < until && forall i :: 0 <= i < |segments| ==> segments[i].end <= end
    ensures Covered(Overlapping(segments, from, until), from, until) <= Later(0, Earlier(until, end) - from)
  {
    if segments != [] {
      var init, last := segments[..|segments| - 1], segments[|segments| - 1];
      CoveredAtMost(init, from, until, last.start);
      var before := Overlapping(init, from, until);
      if Overlaps(last, from, until) {
        assert (before + [last])[..|before|] == before;
      } else {
        assert before + [] == before;
      }
    }
  }

  /** Below a thousand seconds, two whole numbers of microseconds are close only if equal. */
  lemma CloseExactly(covered: int, resolution: int)
    requires 0 < resolution && covered <= resolution
    ensures IsClose(covered, resolution) <==> (resolution - covered) * 1_000_000_000 <= resolution
    ensures resolution < 1_000_000_000 ==> (IsClose(covered, resolution) <==> covered == resolution)
  {
  }

  lemma WorkNext(bound: real, watts: real, covered: int, shared: int)
    requires shared >= 0
    ensures Work(bound, covered + shared) == Work(bound, covered) + Work(bound, shared)
    ensures bound <= watts ==> Work(bound, shared) <= Work(watts, shared)
    ensures watts <= bound ==> Work(watts, shared) <= Work(bound, shared)
  {
  }

  /** A weighted sum lies between its least and its greatest weight. */
  lemma {:induction false} WeightedBetween(overlaps: seq<Segment>, from: Time, until: Time, low: real, high: real)
    requires from < until && AllOverlap(overlaps, from, until)
    requires forall i :: 0 <= i < |overlaps| ==> low <= overlaps[i].baseline <= high
    ensures Work(low, Covered(overlaps, from, until)) <= Weighted(overlaps, Baseline, from, until)
    ensures Weighted(overlaps, Baseline, from, until) <= Work(high, Covered(overlaps, from, until))
  {
    if overlaps != [] {
      var init, last := overlaps[..|overlaps| - 1], overlaps[|overlaps| - 1];
      WeightedBetween(init, from, until, low, high);
      WorkNext(low, last.baseline, Covered(init, from, until), Shared(last, from, until));
      WorkNext(high, last.baseline, Covered(init, from, until), Shared(last, from, until));
    }
  }

  lemma {:induction false} LeastWattsIs(overlaps: seq<Segment>, q: Quantity)
    requires overlaps != []
    ensures forall i :: 0 <= i < |overlaps| ==> LeastWatts(overlaps, q) <= Watts(overlaps[i], q)
    ensures exists i :: 0 <= i < |overlaps| && LeastWatts(overlaps, q) == Watts(overlaps[i], q)
  {
    var last := |overlaps| - 1;
    if |overlaps| > 1 {
      LeastWattsIs(overlaps[..last], q);
      var i :| 0 <= i < last && LeastWatts(overlaps[..last], q) == Watts(overlaps[..last][i], q);
      assert overlaps[i] == overlaps[..last][i];
      assert LeastWatts(overlaps, q) == Watts(overlaps[i], q) || LeastWatts(overlaps, q) == Watts(overlaps[last], q);
    } else {
      assert LeastWatts(overlaps, q) == Watts(overlaps[0], q);
    }
  }

  /** A bucket's energy is at least its least power over what is covered, at most what its segments spend. */
  lemma {:induction false} EnergyInBetween(overlaps: seq<Segment>, q: Quantity, from: Time, until: Time, least: real)
    requires from < until && AllOverlap(overlaps, from, until)
    requires forall i :: 0 <= i < |overlaps| ==> 0.0 <= least <= Watts(overlaps[i], q)
    ensures Energy(least, Covered(overlaps, from, until)) <= EnergyIn(overlaps, q, from, until) <= Total(overlaps, Of(q))
    ensures 0.0 <= EnergyIn(overlaps, q, from, until)
  {
    if overlaps == [] {
      EnergyOfNothing(least);
    } else {
      var last := overlaps[|overlaps| - 1];
      var shared := Shared(last, from, until);
      EnergyInBetween(overlaps[..|overlaps| - 1], q, from, until, least);
      EnergyAdds(least, Covered(overlaps[..|overlaps| - 1], from, until), shared);
      EnergyOfSum(Watts(last, q), least, shared);
      EnergyNonnegative(Watts(last, q) - least, shared);
      EnergyNonnegative(Watts(last, q), shared);
      EnergyMonotone(Watts(last, q), shared, Length(last));
    }
  }

  lemma {:induction false} LeastConfidenceBetween(overlaps: seq<Segment>)
    requires overlaps != [] && forall i :: 0 <= i < |overlaps| ==> 0.0 <= overlaps[i].confidence <= 1.0
    ensures 0.0 <= LeastConfidence(overlaps) <= 1.0
  {
    if |overlaps| > 1 {
      LeastConfidenceBetween(overlaps[..|overlaps| - 1]);
    }
  }

  lemma QuotientBetween(low: real, x: real, high: real, micros: int)
    requires micros > 0 && Work(low, micros) <= x <= Work(high, micros)
    ensures low <= x / micros as real <= high
  {
    var quotient := x / micros as real;
    assert quotient * micros as real == x;
  }

  /** A covered bucket's mean baseline leaves room for its least power, on both sides. */
  lemma MeanLeavesRoom(overlaps: seq<Segment>, band: Band, horizon: Horizon, from: Time, until: Time)
    requires overlaps != [] && from < until && AllOverlap(overlaps, from, until) && AllInBand(overlaps, band, horizon)
    requires Covered(overlaps, from, until) == until - from
    ensures var mean := Weighted(overlaps, Baseline, from, until) / (until - from) as real;
            band.low + LeastWatts(overlaps, Up) <= mean <= band.high - LeastWatts(overlaps, Down)
  {
    LeastWattsIs(overlaps, Up);
    LeastWattsIs(overlaps, Down);
    var low, high := band.low + LeastWatts(overlaps, Up), band.high - LeastWatts(overlaps, Down);
    forall i | 0 <= i < |overlaps|
      ensures low <= overlaps[i].baseline <= high
    {
      assert InBand(overlaps[i], band, horizon);
      assert LeastWatts(overlaps, Up) <= Watts(overlaps[i], Up) && LeastWatts(overlaps, Down) <= Watts(overlaps[i], Down);
    }
    WeightedBetween(overlaps, from, until, low, high);
    QuotientBetween(low, Weighted(overlaps, Baseline, from, until), high, until - from);
  }

  lemma LeastWithinRamp(overlaps: seq<Segment>, band: Band, horizon: Horizon, q: Quantity)
    requires overlaps != [] && AllInBand(overlaps, band, horizon) && q != Baseline
    ensures 0.0 <= LeastWatts(overlaps, q) <= band.ramp
    ensures forall i :: 0 <= i < |overlaps| ==> LeastWatts(overlaps, q) <= Watts(overlaps[i], q)
  {
    LeastWattsIs(overlaps, q);
    var i :| 0 <= i < |overlaps| && LeastWatts(overlaps, q) == Watts(overlaps[i], q);
    assert InBand(overlaps[i], band, horizon);
  }

  lemma OverlappingInBand(segments: seq<Segment>, band: Band, horizon: Horizon, from: Time, until: Time)
    requires Ordered(segments) && AllInBand(segments, band, horizon)
    ensures AllInBand(Overlapping(segments, from, until), band, horizon)
  {
    OverlappingAre(segments, from, until);
    var overlaps := Overlapping(segments, from, until);
    forall i | 0 <= i < |overlaps|
      ensures InBand(overlaps[i], band, horizon)
    {
      assert overlaps[i] in segments;
    }
  }

  /** Both capacities of an offer fit the ramp, and its energies lie between what its capacity
      yields over the covered time and what the overlapped segments were granted. */
  ghost predicate WithinGrants(o: Offer, limited: seq<Segment>, band: Band) {
    var overlaps := Overlapping(limited, o.start, o.end);
    var covered := Covered(overlaps, o.start, o.end);
    && 0.0 <= o.up <= band.ramp / 1000.0
    && 0.0 <= o.down <= band.ramp / 1000.0
    && 0.0 <= Energy(o.up * 1000.0, covered) <= o.upEnergy <= Total(overlaps, Of(Up))
    && 0.0 <= Energy(o.down * 1000.0, covered) <= o.downEnergy <= Total(overlaps, Of(Down))
  }

  /** The mean baseline, moved by either capacity, stays in the band. */
  ghost predicate WithinBand(o: Offer, band: Band) {
    band.low / 1000.0 <= o.baseline - o.up && o.baseline + o.down <= band.high / 1000.0
  }

  lemma CoveredNonnegative(overlaps: seq<Segment>, from: Time, until: Time)
    requires from < until && AllOverlap(overlaps, from, until)
    ensures Covered(overlaps, from, until) >= 0
  {
    if overlaps != [] {
      CoveredNonnegative(overlaps[..|overlaps| - 1], from, until);
    }
  }

  lemma BucketGuarantees(
      o: Offer, limited: seq<Segment>, band: Band, horizon: Horizon, from: Time, until: Time, source: Source, constraints: Constraints)
    requires OffersBucket(o, limited, from, until, source, constraints)
    requires Ordered(limited) && AllInBand(limited, band, horizon)
    ensures WithinGrants(o, limited, band) && 0.0 <= o.confidence <= 1.0
    ensures Covered(Overlapping(limited, from, until), from, until) == until - from ==> WithinBand(o, band)
  {
    var overlaps := Overlapping(limited, from, until);
    OverlappingAre(limited, from, until);
    OverlappingInBand(limited, band, horizon, from, until);
    LeastWithinRamp(overlaps, band, horizon, Up);
    LeastWithinRamp(overlaps, band, horizon, Down);
    CoveredNonnegative(overlaps, from, until);
    EnergyNonnegative(LeastWatts(overlaps, Up), Covered(overlaps, from, until));
    EnergyNonnegative(LeastWatts(overlaps, Down), Covered(overlaps, from, until));
    EnergyInBetween(overlaps, Up, from, until, LeastWatts(overlaps, Up));
    EnergyInBetween(overlaps, Down, from, until, LeastWatts(overlaps, Down));
    LeastConfidenceBetween(overlaps);
    assert o.up * 1000.0 == LeastWatts(overlaps, Up) && o.down * 1000.0 == LeastWatts(overlaps, Down);
    if Covered(overlaps, from, until) == until - from {
      MeanLeavesRoom(overlaps, band, horizon, from, until);
    }
  }

  // ----- Every offer

  lemma LimitedInBand(raw: seq<Segment>, envelope: Envelope, band: Band, horizon: Horizon)
    requires Ready(raw, envelope) && AllInBand(raw, band, horizon)
    ensures AllInBand(LimitedOf(raw, envelope), band, horizon)
  {
    LimitedNonnegative(raw, envelope);
    var limited := LimitedOf(raw, envelope);
    forall i | 0 <= i < |limited|
      ensures InBand(limited[i], band, horizon)
    {
      assert InBand(raw[i], band, horizon);
      assert Watts(limited[i], Up) >= 0.0 && Watts(limited[i], Down) >= 0.0;
    }
  }

  lemma EdgeWithin(first: Time, final: Time, resolution: int)
    requires resolution > 0 && BucketCount(first, final, resolution) > 0
    ensures Edge(first, BucketCount(first, final, resolution), resolution) <= final
  {
    EdgeIs(first, BucketCount(first, final, resolution), resolution);
  }

  /** Every offer is a bucket of the resolution inside the forecast's horizon. */
  lemma OfferIsBucket(
      raw: seq<Segment>, envelope: Envelope, resolution: int, source: Source, constraints: Constraints, k: nat)
    requires Ready(raw, envelope) && raw != [] && resolution > 0 && constraints.validUntil.Some?
    requires k < |Resampled(LimitedOf(raw, envelope), resolution, source, constraints)|
    ensures var o := Resampled(LimitedOf(raw, envelope), resolution, source, constraints)[k];
            && OffersBucket(o, LimitedOf(raw, envelope), o.start, o.end, source, constraints)
            && o.end == o.start + resolution && o.end <= constraints.validUntil.value
  {
    var limited := LimitedOf(raw, envelope);
    var first := AlignedUp(limited[0].start, resolution);
    var final := Earlier(limited[|limited| - 1].end, constraints.validUntil.value);
    OfferIsOfBucket(limited, first, BucketCount(first, final, resolution), resolution, source, constraints, k);
    EdgeWithin(first, final, resolution);
  }

  lemma PassedOfferGuarantees(
      source: Source, envelope: Envelope, constraints: Constraints, forecast: Forecast, settings: Settings,
      raw: seq<Segment>, offers: seq<Offer>, k: nat)
    requires Passed(source, envelope, constraints, forecast, settings, raw, offers) && k < |offers|
    ensures ValidOffer(offers[k]) && offers[k].end == offers[k].start + settings.resolution
    ensures WithinGrants(offers[k], LimitedOf(raw, envelope), BandOf(constraints.ranges, envelope, settings))
  {
    var band, horizon := BandOf(constraints.ranges, envelope, settings), Horizon(constraints.validFrom, constraints.validUntil.value);
    var o := offers[k];
    OfferIsBucket(raw, envelope, settings.resolution, source, constraints, k);
    LimitedOrdered(raw, envelope);
    LimitedInBand(raw, envelope, band, horizon);
    BucketGuarantees(o, LimitedOf(raw, envelope), band, horizon, o.start, o.end, source, constraints);
  }

  /** The resolutions at which a billionth of the bucket is at least a microsecond, and a bucket that
      lacks that much beside a gap of a millisecond, with a millisecond after it, fits a day. */
  predicate Coarse(resolution: int) {
    1_000_000_000 <= resolution && resolution - resolution / 1_000_000_000 + 2000 <= DAY
  }

  /** What a bucket lacks of the time from first to end is in gaps: a whole one inside it, or one
      across its edge, with a segment beyond. */
  predicate Accounted(first: Time, end: Time, from: Time, until: Time, covered: int) {
    || end <= from
    || covered == Earlier(until, end) - from
    || covered + 1000 <= Earlier(until, end) - from
    || covered + 2000 <= end - first
  }

  lemma OverlappingNext(segments: seq<Segment>, from: Time, until: Time)
    requires segments != []
    ensures var init, last := segments[..|segments| - 1], segments[|segments| - 1];
            Covered(Overlapping(segments, from, until), from, until) ==
              Covered(Overlapping(init, from, until), from, until) +
              (if Overlaps(last, from, until) then Shared(last, from, until) else 0)
  {
    var before, last := Overlapping(segments[..|segments| - 1], from, until), segments[|segments| - 1];
    if Overlaps(last, from, until) {
      assert (before + [last])[..|before|] == before;
    } else {
      assert before + [] == before;
    }
  }

  lemma {:induction false} GapsAccounted(segments: seq<Segment>, start: Time, from: Time, until: Time)
    requires segments != [] && Ordered(segments) && AllPositive(segments) && Aligned(segments, start)
    requires segments[0].start <= from < until
    ensures Accounted(segments[0].start, segments[|segments| - 1].end, from, until,
                      Covered(Overlapping(segments, from, until), from, until))
  {
    var n := |segments| - 1;
    var init, last := segments[..n], segments[n];
    OverlappingNext(segments, from, until);
    if n == 0 {
      assert Overlapping(init, from, until) == [];
    } else {
      InitAligned(segments, start);
      GapsAccounted(init, start, from, until);
      CoveredBounds(init, from, until);
      AlignedNext(segments, start, n);
      NextGap(init[0].start, init[n - 1].end, last, from, until, Covered(Overlapping(init, from, until), from, until));
    }
  }

  lemma InitAligned(segments: seq<Segment>, start: Time)
    requires |segments| > 1 && Ordered(segments) && AllPositive(segments) && Aligned(segments, start)
    ensures var init := segments[..|segments| - 1];
            Ordered(init) && AllPositive(init) && Aligned(init, start)
  {
    var init := segments[..|segments| - 1];
    assert forall i :: 0 <= i < |init| ==> init[i] == segments[i];
  }

  lemma CoveredBounds(segments: seq<Segment>, from: Time, until: Time)
    requires segments != [] && Ordered(segments) && from < until
    ensures 0 <= Covered(Overlapping(segments, from, until), from, until)
              <= Later(0, Earlier(until, segments[|segments| - 1].end) - from)
  {
    OverlappingAre(segments, from, until);
    CoveredNonnegative(Overlapping(segments, from, until), from, until);
    CoveredAtMost(segments, from, until, segments[|segments| - 1].end);
  }

  /** Neighbours touch, or are a millisecond or more apart; and no segment is shorter. */
  lemma AlignedNext(segments: seq<Segment>, start: Time, n: nat)
    requires 0 < n < |segments| && Ordered(segments) && AllPositive(segments) && Aligned(segments, start)
    ensures segments[n].start == segments[n - 1].end || segments[n].start >= segments[n - 1].end + 1000
    ensures segments[n].end >= segments[n].start + 1000
    ensures segments[0].start + 1000 <= segments[n - 1].end
  {
    var x, y := segments[n - 1], segments[n];
    AlignedApart(x.end - start, y.start - start);
    AlignedApart(y.start - start, y.end - start);
    AlignedApart(segments[0].start - start, x.end - start);
  }

  lemma AlignedApart(a: int, b: int)
    requires a % 1000 == 0 && b % 1000 == 0 && a <= b
    ensures a == b || a + 1000 <= b
  {
  }

  lemma NextGap(first: Time, end: Time, last: Segment, from: Time, until: Time, covered: int)
    requires first <= from < until && first + 1000 <= end
    requires last.start == end || last.start >= end + 1000
    requires last.end >= last.start + 1000
    requires 0 <= covered <= Later(0, Earlier(until, end) - from)
    requires Accounted(first, end, from, until, covered)
    ensures Accounted(first, last.end, from, until,
                      covered + (if Overlaps(last, from, until) then Shared(last, from, until) else 0))
  {
  }

  /** Unless the resolution is coarse, covering a bucket but for a billionth means covering all of it. */
  lemma CloseIsWhole(covered: int, resolution: int, span: int)
    requires 0 < resolution <= span <= DAY && covered <= resolution && IsClose(covered, resolution)
    requires covered == resolution || covered + 1000 <= resolution || covered + 2000 <= span
    requires !Coarse(resolution)
    ensures covered == resolution
  {
  }

  /** Every offer's bucket lies between the first segment's start and the last one's end. */
  lemma BucketWithin(
      raw: seq<Segment>, envelope: Envelope, resolution: int, source: Source, constraints: Constraints, k: nat)
    requires Ready(raw, envelope) && raw != [] && resolution > 0 && constraints.validUntil.Some?
    requires k < |Resampled(LimitedOf(raw, envelope), resolution, source, constraints)|
    ensures var o := Resampled(LimitedOf(raw, envelope), resolution, source, constraints)[k];
            raw[0].start <= o.start && o.end <= raw[|raw| - 1].end
  {
    var limited := LimitedOf(raw, envelope);
    var first := AlignedUp(limited[0].start, resolution);
    var final := Earlier(limited[|limited| - 1].end, constraints.validUntil.value);
    BucketBetween(limited, first, final, resolution, source, constraints, k);
    AlignedUpIsAfter(limited[0].start, resolution);
  }

  lemma BucketBetween(
      segments: seq<Segment>, first: Time, final: Time, resolution: int, source: Source, constraints: Constraints, k: nat)
    requires resolution > 0 && constraints.validUntil.Some?
    requires k < |Buckets(segments, first, BucketCount(first, final, resolution), resolution, source, constraints)|
    ensures var o := Buckets(segments, first, BucketCount(first, final, resolution), resolution, source, constraints)[k];
            first <= o.start && o.end <= final
  {
    OfferIsOfBucket(segments, first, BucketCount(first, final, resolution), resolution, source, constraints, k);
    EdgeWithin(first, final, resolution);
  }

  lemma AlignedUpIsAfter(t: Time, resolution: int)
    requires resolution > 0
    ensures t <= AlignedUp(t, resolution)
  {
    var n := -t / resolution;
    assert n * resolution <= -t;
    assert -n * resolution == -(n * resolution);
  }

  lemma SegmentsCoverBucket(
      raw: seq<Segment>, start: Time, envelope: Envelope, resolution: int, source: Source, constraints: Constraints, k: nat)
    requires Ready(raw, envelope) && raw != [] && resolution > 0 && constraints.validUntil.Some?
    requires Aligned(raw, start) && raw[|raw| - 1].end - raw[0].start <= DAY && !Coarse(resolution)
    requires k < |Resampled(LimitedOf(raw, envelope), resolution, source, constraints)|
    ensures var o := Resampled(LimitedOf(raw, envelope), resolution, source, constraints)[k];
            Covered(Overlapping(LimitedOf(raw, envelope), o.start, o.end), o.start, o.end) == o.end - o.start == resolution
  {
    var limited := LimitedOf(raw, envelope);
    var o := Resampled(limited, resolution, source, constraints)[k];
    OfferIsBucket(raw, envelope, resolution, source, constraints, k);
    BucketWithin(raw, envelope, resolution, source, constraints, k);
    LimitedOrdered(raw, envelope);
    LimitedAligned(raw, envelope, start);
    CloseBucketIsWhole(limited, start, o.start, o.end, resolution);
  }

  lemma CloseBucketIsWhole(segments: seq<Segment>, start: Time, from: Time, until: Time, resolution: int)
    requires segments != [] && Ordered(segments) && AllPositive(segments) && Aligned(segments, start)
    requires segments[0].start <= from < until == from + resolution && until <= segments[|segments| - 1].end
    requires segments[|segments| - 1].end - segments[0].start <= DAY && !Coarse(resolution)
    requires Emitted(segments, from, until)
    ensures Covered(Overlapping(segments, from, until), from, until) == resolution
  {
    GapsAccounted(segments, start, from, until);
    CoveredBounds(segments, from, until);
    CloseIsWhole(Covered(Overlapping(segments, from, until), from, until), resolution,
                 segments[|segments| - 1].end - segments[0].start);
  }

  lemma LimitedAligned(raw: seq<Segment>, envelope: Envelope, start: Time)
    requires Ready(raw, envelope) && Aligned(raw, start)
    ensures Aligned(LimitedOf(raw, envelope), start) && AllPositive(LimitedOf(raw, envelope))
    ensures forall i :: 0 <= i < |raw| ==>
              LimitedOf(raw, envelope)[i].start == raw[i].start && LimitedOf(raw, envelope)[i].end == raw[i].end
  {
  }

  lemma PassedCovered(
      source: Source, envelope: Envelope, constraints: Constraints, forecast: Forecast, settings: Settings,
      raw: seq<Segment>, offers: seq<Offer>, k: nat)
    requires Passed(source, envelope, constraints, forecast, settings, raw, offers) && k < |offers|
    requires !Coarse(settings.resolution)
    ensures var o := offers[k];
            Covered(Overlapping(LimitedOf(raw, envelope), o.start, o.end), o.start, o.end) == o.end - o.start == settings.resolution
  {
    var band, horizon := BandOf(constraints.ranges, envelope, settings), Horizon(constraints.validFrom, constraints.validUntil.value);
    assert InBand(raw[0], band, horizon) && InBand(raw[|raw| - 1], band, horizon);
    SegmentsCoverBucket(raw, forecast.start, envelope, settings.resolution, source, constraints, k);
  }

  lemma CoveredInBand(
      raw: seq<Segment>, envelope: Envelope, band: Band, horizon: Horizon, o: Offer, source: Source, constraints: Constraints)
    requires Ready(raw, envelope) && AllInBand(raw, band, horizon)
    requires OffersBucket(o, LimitedOf(raw, envelope), o.start, o.end, source, constraints)
    requires Covered(Overlapping(LimitedOf(raw, envelope), o.start, o.end), o.start, o.end) == o.end - o.start
    ensures WithinBand(o, band)
  {
    LimitedOrdered(raw, envelope);
    LimitedInBand(raw, envelope, band, horizon);
    BucketGuarantees(o, LimitedOf(raw, envelope), band, horizon, o.start, o.end, source, constraints);
  }

  lemma BandIsInside(ranges: seq<LimitRange>, envelope: Envelope, settings: Settings)
    requires Limits(ranges, true) != [] && Limits(ranges, false) != []
    ensures var band := BandOf(ranges, envelope, settings);
            && envelope.minPower <= band.low / 1000.0 && LeastStart(Limits(ranges, true)) <= band.low
            && band.high / 1000.0 <= envelope.maxPower && band.high <= GreatestEnd(Limits(ranges, false))
            && band.ramp / 1000.0 == envelope.rampRate * (settings.responseTime as real / 60_000_000.0)
  {
  }

  /** The mean baseline less the upward capacity stays above both minima, and plus the downward
      capacity below both maxima. */
  predicate PowerKept(envelope: Envelope, constraints: Constraints, o: Offer) {
    && HasLimits(constraints)
    && envelope.minPower <= o.baseline - o.up
    && LeastStart(Limits(constraints.ranges, true)) / 1000.0 <= o.baseline - o.up
    && o.baseline + o.down <= envelope.maxPower
    && o.baseline + o.down <= GreatestEnd(Limits(constraints.ranges, false)) / 1000.0
  }

  /** Both capacities are reached within the response time, and holding them for the whole bucket
      takes no more than the energy offered. */
  predicate RampKept(envelope: Envelope, settings: Settings, o: Offer) {
    var reachable := envelope.rampRate * (settings.responseTime as real / 60_000_000.0);
    && 0.0 <= o.up <= reachable && 0.0 <= o.down <= reachable
    && Energy(o.up * 1000.0, settings.resolution) <= o.upEnergy
    && Energy(o.down * 1000.0, settings.resolution) <= o.downEnergy
  }

  lemma PassedPowerEnvelope(
      source: Source, envelope: Envelope, constraints: Constraints, forecast: Forecast, settings: Settings,
      raw: seq<Segment>, offers: seq<Offer>, k: nat)
    requires Passed(source, envelope, constraints, forecast, settings, raw, offers) && k < |offers|
    requires !Coarse(settings.resolution)
    ensures PowerKept(envelope, constraints, offers[k])
  {
    var band, horizon := BandOf(constraints.ranges, envelope, settings), Horizon(constraints.validFrom, constraints.validUntil.value);
    PassedCovered(source, envelope, constraints, forecast, settings, raw, offers, k);
    OfferIsBucket(raw, envelope, settings.resolution, source, constraints, k);
    CoveredInBand(raw, envelope, band, horizon, offers[k], source, constraints);
    BandIsInside(constraints.ranges, envelope, settings);
    assert WithinBand(offers[k], band);
  }

  lemma PassedRampEnvelope(
      source: Source, envelope: Envelope, constraints: Constraints, forecast: Forecast, settings: Settings,
      raw: seq<Segment>, offers: seq<Offer>, k: nat)
    requires Passed(source, envelope, constraints, forecast, settings, raw, offers) && k < |offers|
    requires !Coarse(settings.resolution)
    ensures RampKept(envelope, settings, offers[k])
  {
    PassedCovered(source, envelope, constraints, forecast, settings, raw, offers, k);
    PassedOfferGuarantees(source, envelope, constraints, forecast, settings, raw, offers, k);
    BandIsInside(constraints.ranges, envelope, settings);
    GrantsKeepRamp(offers[k], LimitedOf(raw, envelope), BandOf(constraints.ranges, envelope, settings), envelope, settings);
  }

  lemma GrantsKeepRamp(o: Offer, limited: seq<Segment>, band: Band, envelope: Envelope, settings: Settings)
    requires WithinGrants(o, limited, band)
    requires Covered(Overlapping(limited, o.start, o.end), o.start, o.end) == settings.resolution
    requires band.ramp / 1000.0 == envelope.rampRate * (settings.responseTime as real / 60_000_000.0)
    ensures RampKept(envelope, settings, o)
  {
  }

  /** A limited segment passes exactly the energy it was granted. */
  lemma GrantedEnergy(raw: seq<Segment>, envelope: Envelope, i: nat)
    requires Ready(raw, envelope) && i < |raw|
    ensures Energy(LimitedOf(raw, envelope)[i].up, Length(raw[i])) == UpGrants(raw, envelope)[i]
    ensures Energy(LimitedOf(raw, envelope)[i].down, Length(raw[i])) == DownGrants(raw, envelope)[i]
  {
    PowerForYields(UpGrants(raw, envelope)[i], Length(raw[i]));
    PowerForYields(DownGrants(raw, envelope)[i], Length(raw[i]));
  }

  // ----- Of everything the normaliser returns

  /** Energy safety after resampling. At every moment, also inside a segment, and whatever part of
      the upward and of the downward energy of the offers that have ended was used, the baseline
      energy less the one and plus the other stays inside the envelope, within a billionth of a
      kilowatt-hour per kept segment. */
  lemma EnergySafety(
      source: Source, envelope: Envelope, constraints: Constraints, forecast: Forecast, settings: Settings,
      offers: seq<Offer>, up: seq<real>, down: seq<real>, t: Time)
    requires Normalized(source, envelope, constraints, forecast, settings) == Ok(offers) && offers != []
    requires |up| == |down| <= |offers|
    requires forall j :: 0 <= j < |up| ==> 0.0 <= up[j] <= offers[j].upEnergy && 0.0 <= down[j] <= offers[j].downEnergy
    requires |up| > 0 ==> offers[|up| - 1].end <= t
    ensures HasLimits(constraints) && RawSegments(envelope, constraints, forecast, settings).Ok?
    ensures var raw := RawSegments(envelope, constraints, forecast, settings).value;
            var energy := envelope.initialEnergy + EnergyUntil(raw, Of(Baseline), t) - SumOf(up) + SumOf(down);
            envelope.minEnergy - Slack(|raw|) <= energy <= envelope.maxEnergy + Slack(|raw|)
  {
    var raw := NormalizedPassed(source, envelope, constraints, forecast, settings, offers);
    PassedEnergySafety(source, envelope, constraints, forecast, settings, raw, offers, up, down, t);
  }

  /** At every resolution an offer never fails its own validation, its capacities fit the ramp, and
      its energies lie between what its capacities yield over the covered time and what the
      overlapped segments were granted. */
  lemma OfferGuarantees(
      source: Source, envelope: Envelope, constraints: Constraints, forecast: Forecast, settings: Settings,
      offers: seq<Offer>, k: nat)
    requires Normalized(source, envelope, constraints, forecast, settings) == Ok(offers) && k < |offers|
    ensures ValidOffer(offers[k]) && offers[k].end == offers[k].start + settings.resolution
    ensures HasLimits(constraints) && RawSegments(envelope, constraints, forecast, settings).Ok?
    ensures var raw := RawSegments(envelope, constraints, forecast, settings).value;
            && Ready(raw, envelope)
            && WithinGrants(offers[k], LimitedOf(raw, envelope), BandOf(constraints.ranges, envelope, settings))
  {
    var raw := NormalizedPassed(source, envelope, constraints, forecast, settings, offers);
    PassedOfferGuarantees(source, envelope, constraints, forecast, settings, raw, offers, k);
  }

  /** Unless the resolution is coarse, as the default quarter of an hour is not, a bucket that is
      offered is wholly covered. */
  lemma WhollyCovered(
      source: Source, envelope: Envelope, constraints: Constraints, forecast: Forecast, settings: Settings,
      offers: seq<Offer>, k: nat)
    requires Normalized(source, envelope, constraints, forecast, settings) == Ok(offers) && k < |offers|
    requires !Coarse(settings.resolution)
    ensures HasLimits(constraints) && RawSegments(envelope, constraints, forecast, settings).Ok?
    ensures var o, raw := offers[k], RawSegments(envelope, constraints, forecast, settings).value;
            && Ready(raw, envelope)
            && Covered(Overlapping(LimitedOf(raw, envelope), o.start, o.end), o.start, o.end) == settings.resolution
  {
    var raw := NormalizedPassed(source, envelope, constraints, forecast, settings, offers);
    PassedCovered(source, envelope, constraints, forecast, settings, raw, offers, k);
  }

  /** The power envelope survives resampling unless the resolution is coarse. */
  lemma PowerEnvelope(
      source: Source, envelope: Envelope, constraints: Constraints, forecast: Forecast, settings: Settings,
      offers: seq<Offer>, k: nat)
    requires Normalized(source, envelope, constraints, forecast, settings) == Ok(offers) && k < |offers|
    requires !Coarse(settings.resolution)
    ensures PowerKept(envelope, constraints, offers[k])
  {
    var raw := NormalizedPassed(source, envelope, constraints, forecast, settings, offers);
    PassedPowerEnvelope(source, envelope, constraints, forecast, settings, raw, offers, k);
  }

  /** So does the ramp envelope. */
  lemma RampEnvelope(
      source: Source, envelope: Envelope, constraints: Constraints, forecast: Forecast, settings: Settings,
      offers: seq<Offer>, k: nat)
    requires Normalized(source, envelope, constraints, forecast, settings) == Ok(offers) && k < |offers|
    requires !Coarse(settings.resolution)
    ensures RampKept(envelope, settings, offers[k])
  {
    var raw := NormalizedPassed(source, envelope, constraints, forecast, settings, offers);
    PassedRampEnvelope(source, envelope, constraints, forecast, settings, raw, offers, k);
  }
}
