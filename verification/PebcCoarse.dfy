/** The exact resolutions at which resampling keeps the power and ramp envelopes. At a coarse one the
    tolerance of the coverage test lets a bucket pass that misses some microseconds, and its mean
    baseline then falls below the least power allowed. */
module PebcCoarse {
  import opened Domain
  import opened Pebc
  import opened PebcEnergy
  import opened PebcResampling
  import opened PebcGuarantees

  type Offer = Domain.Offer

  // ----- For each coarse resolution, an input that misses the envelopes

  /** A bucket from the epoch of which only a part is covered, and the length of the first element:
      that part, in milliseconds and rounded up. */
  datatype Gap = Gap(resolution: int, covered: int, millis: nat)

  predicate Fits(g: Gap) {
    && g.resolution >= 1_000_000_000
    && 1 <= g.resolution - g.covered <= 86 && (g.resolution - g.covered) * 1_000_000_000 <= g.resolution
    && g.millis >= 1 && -1000 < Start(g) <= 0 && 1000 * g.millis + 2000 <= DAY
  }

  function Start(g: Gap): Time {
    g.covered - 1000 * g.millis
  }

  function GapOf(resolution: int): (g: Gap)
    requires Coarse(resolution)
    ensures Fits(g) && g.resolution == resolution
  {
    var covered := resolution - resolution / 1_000_000_000;
    Gap(resolution, covered, (covered + 999) / 1000)
  }

  function SteadyEnvelope(): Envelope {
    Envelope(1.0, 3.0, 0.0, 1000.0, 100.0, 1.0)
  }

  function SteadyRanges(): seq<LimitRange> {
    [LimitRange(true, true, false, 1000.0, 3000.0), LimitRange(true, false, false, 1000.0, 3000.0)]
  }

  function SteadyConstraints(g: Gap): Constraints {
    Constraints("c", Start(g), Some(g.covered + 2000), DEFER, SteadyRanges())
  }

  function SteadyValue(): PowerValue {
    PowerValue(true, 2000.0, None, None)
  }

  /** Two kilowatts up to just before the bucket's end, a millisecond with a value of another quantity
      only, and one more at two kilowatts. */
  function SteadyForecast(g: Gap): Forecast
    requires Fits(g)
  {
    Forecast(Start(g), [
      Element(g.millis, [SteadyValue()]),
      Element(1, [PowerValue(false, 2000.0, None, None)]),
      Element(1, [SteadyValue()])])
  }

  function CoarseSettings(g: Gap): Settings {
    Settings(g.resolution, 60_000_000, 900_000_000, 120_000_000)
  }

  function SteadySource(): Source {
    Source("r", "z", 0, 0, 0, 0)
  }

  function SteadyBand(): Band {
    Band(1000.0, 3000.0, 1000.0)
  }

  function SteadyHorizon(g: Gap): Horizon {
    Horizon(Start(g), g.covered + 2000)
  }

  function Before(g: Gap): Segment {
    Segment(Start(g), g.covered, 2000.0, 1000.0, 1000.0, 0.5)
  }

  function After(g: Gap): Segment {
    Segment(g.covered + 1000, g.covered + 2000, 2000.0, 1000.0, 1000.0, 0.5)
  }

  lemma SteadyLimits(g: Gap)
    ensures Limits(SteadyRanges(), true) == [SteadyRanges()[0]] && Limits(SteadyRanges(), false) == [SteadyRanges()[1]]
    ensures BandOf(SteadyRanges(), SteadyEnvelope(), CoarseSettings(g)) == SteadyBand()
  {
    var ranges := SteadyRanges();
    assert ranges[..1] == [ranges[0]] && ranges[..1][..0] == [];
    assert Limits([ranges[0]], true) == [] + [ranges[0]];
    assert Limits([ranges[0]], false) == [];
  }

  lemma SupportedOne(value: PowerValue)
    ensures Supported([value]) == if value.supported then [value] else []
  {
    assert [value][..0] == [];
    assert Supported([]) == [];
  }

  lemma FirstKept(g: Gap)
    requires Fits(g)
    ensures var elements := [SteadyForecast(g).elements[0]];
            && KeptSegments(Start(g), elements, SteadyHorizon(g), SteadyBand()) == Ok([Before(g)])
            && CursorAfter(Start(g), elements) == g.covered
  {
    var none: seq<Element>, nothing: seq<Segment> := [], [];
    var element := SteadyForecast(g).elements[0];
    SupportedOne(SteadyValue());
    NextKept(Start(g), none, element, SteadyHorizon(g), SteadyBand(), nothing, SteadyValue());
    assert none + [element] == [element] && nothing + [Before(g)] == [Before(g)];
  }

  lemma SecondDropped(g: Gap)
    requires Fits(g)
    ensures var elements := [SteadyForecast(g).elements[0], SteadyForecast(g).elements[1]];
            && KeptSegments(Start(g), elements, SteadyHorizon(g), SteadyBand()) == Ok([Before(g)])
            && CursorAfter(Start(g), elements) == g.covered + 1000
  {
    var elements := SteadyForecast(g).elements;
    FirstKept(g);
    SupportedOne(elements[1].values[0]);
    NextDropped(Start(g), [elements[0]], elements[1], SteadyHorizon(g), SteadyBand(), [Before(g)]);
    assert [elements[0]] + [elements[1]] == [elements[0], elements[1]];
  }

  lemma SteadySegments(g: Gap)
    requires Fits(g)
    ensures KeptSegments(Start(g), SteadyForecast(g).elements, SteadyHorizon(g), SteadyBand())
         == Ok([Before(g), After(g)])
  {
    var elements := SteadyForecast(g).elements;
    SecondDropped(g);
    SupportedOne(SteadyValue());
    var two := [elements[0], elements[1]];
    NextKept(Start(g), two, elements[2], SteadyHorizon(g), SteadyBand(), [Before(g)], SteadyValue());
    assert two + [elements[2]] == elements;
    assert [Before(g)] + [After(g)] == [Before(g), After(g)];
  }

  function SteadyEnds(g: Gap): seq<real> {
    var first := 100.0 + Energy(2000.0, Length(Before(g)));
    [first, first + Energy(2000.0, 1000)]
  }

  /** At most a day at two kilowatts. */
  lemma DayOfEnergy(micros: int)
    requires 0 <= micros <= DAY
    ensures 0.0 <= Energy(2000.0, micros) <= 48.0
    ensures 0.0 <= Energy(1000.0, micros) <= 24.0
  {
  }

  /** A forward pass of two segments that stays inside the envelope. */
  lemma TwoEnds(x: Segment, y: Segment, first: real, second: real, envelope: Envelope)
    requires first == envelope.initialEnergy + Energy(x.baseline, Length(x))
    requires second == first + Energy(y.baseline, Length(y))
    requires envelope.minEnergy <= first <= envelope.maxEnergy && envelope.minEnergy <= second <= envelope.maxEnergy
    ensures EndEnergies([x, y], envelope) == Ok([first, second])
  {
    assert [x, y][..1] == [x] && [x][..0] == [];
    var none: seq<Segment> := [];
    assert EndEnergies(none, envelope) == Ok([]);
    assert EndEnergies([x], envelope) == Ok([] + [first]);
    assert [] + [first] == [first] && [first] + [second] == [first, second];
  }

  lemma SteadyEnergies(g: Gap)
    requires Fits(g)
    ensures EndEnergies([Before(g), After(g)], SteadyEnvelope()) == Ok(SteadyEnds(g))
  {
    var x, y, ends := Before(g), After(g), SteadyEnds(g);
    DayOfEnergy(Length(x));
    DayOfEnergy(1000);
    TwoEnds(x, y, ends[0], ends[1], SteadyEnvelope());
  }

  /** The first grant is all that was wanted. */
  lemma FirstGrant(wanted: seq<real>, headroom: seq<real>)
    requires |wanted| == |headroom| == 2
    requires 0.0 <= wanted[0] <= headroom[0] && wanted[0] <= headroom[1]
    ensures Grants(wanted, headroom)[0] == wanted[0]
  {
    assert wanted[..1][..0] == [] && headroom[0..] == headroom && headroom[1..] == [headroom[1]];
    assert Least(headroom) == Min(headroom[1], headroom[0]);
    assert SumOf([]) == 0.0;
    assert Grants(wanted[..1], headroom) == [] + [GrantOf(wanted[0], headroom[0..], 0.0)];
  }

  lemma PowerOfEnergy(watts: real, micros: int)
    requires micros > 0
    ensures PowerFor(Energy(watts, micros), micros) == watts
  {
    var hours := micros as real / MICROS_PER_HOUR;
    var quotient := watts / 1000.0 * hours / hours;
    assert quotient * hours == watts / 1000.0 * hours;
    assert quotient == watts / 1000.0;
  }

  /** The first segment keeps its full kilowatt: the battery holds enough for all of it. */
  lemma SteadyLimited(g: Gap)
    requires Fits(g)
    ensures var raw := [Before(g), After(g)];
            && AllPositive(raw)
            && var limited := LimitedSegments(raw, SteadyEnds(g), SteadyEnvelope());
               && |limited| == 2
               && limited[0] == Before(g).(down := limited[0].down)
               && limited[1].start == After(g).start && limited[1].end == After(g).end
  {
    var raw, ends := [Before(g), After(g)], SteadyEnds(g);
    DayOfEnergy(Length(raw[0]));
    DayOfEnergy(Length(raw[1]));
    FirstGrant(UpWanted(raw), UpHeadroom(ends, SteadyEnvelope()));
    PowerOfEnergy(1000.0, Length(raw[0]));
  }

  /** The only bucket is offered although not all of it is covered. */
  lemma CoarseBucket(limited: seq<Segment>, covered: int, resolution: int, source: Source, constraints: Constraints)
    requires |limited| == 2 && resolution >= 1_000_000_000
    requires 0 < resolution - covered <= 86 && (resolution - covered) * 1_000_000_000 <= resolution
    requires -1000 < limited[0].start <= 0 && limited[0].end == covered
    requires limited[1].start == covered + 1000 && limited[1].end == covered + 2000
    requires constraints.validUntil == Some(covered + 2000)
    ensures Overlapping(limited, 0, resolution) == [limited[0]]
    ensures Covered([limited[0]], 0, resolution) == covered
    ensures Resampled(limited, resolution, source, constraints)
         == [BucketOffer([limited[0]], 0, resolution, source, constraints)]
  {
    assert limited[..1] == [limited[0]] && [limited[0]][..0] == [];
    assert Overlapping([limited[0]], 0, resolution) == [] + [limited[0]];
    assert Overlapping(limited, 0, resolution) == [limited[0]] + [];
    assert Emitted(limited, 0, resolution);
    assert Edge(0, 0, resolution) == 0 && Edge(0, 1, resolution) == resolution;
    StartsAtZero(limited[0].start, resolution);
    OneBucket(covered + 2000, resolution);
    assert Buckets(limited, 0, 0, resolution, source, constraints) == [];
  }

  lemma StartsAtZero(start: Time, resolution: int)
    requires -1000 < start <= 0 && resolution >= 1000
    ensures AlignedUp(start, resolution) == 0
  {
  }

  lemma OneBucket(final: Time, resolution: int)
    requires 0 < resolution <= final < 2 * resolution
    ensures BucketCount(0, final, resolution) == 1
  {
  }

  lemma QuotientBelow(watts: real, covered: int, resolution: int)
    requires watts > 0.0 && 0 < covered < resolution
    ensures Work(watts, covered) / resolution as real < watts
  {
    var share := covered as real / resolution as real;
    assert share * resolution as real == covered as real;
    assert share < 1.0;
    assert Work(watts, covered) / resolution as real == watts * share;
    assert watts * share < watts;
  }

  /** Its mean baseline less its capacity is below the least power, and holding the capacity would
      take more than its energy. */
  lemma BucketMisses(segment: Segment, g: Gap)
    requires Fits(g) && segment == Before(g).(down := segment.down)
    ensures var o := BucketOffer([segment], 0, g.resolution, SteadySource(), SteadyConstraints(g));
            && o.baseline - o.up < SteadyEnvelope().minPower
            && o.upEnergy < Energy(o.up * 1000.0, g.resolution)
  {
    assert [segment][..0] == [];
    assert Weighted([segment], Baseline, 0, g.resolution) == Work(2000.0, g.covered);
    assert EnergyIn([segment], Up, 0, g.resolution) == Energy(1000.0, g.covered);
    QuotientBelow(2000.0, g.covered, g.resolution);
    EnergyAdds(1000.0, g.covered, g.resolution - g.covered);
  }

  ghost function CoarseOffers(g: Gap): Result<seq<Offer>>
    requires Fits(g)
  {
    Normalized(SteadySource(), SteadyEnvelope(), SteadyConstraints(g), SteadyForecast(g), CoarseSettings(g))
  }

  lemma SteadyNormalized(g: Gap)
    requires Fits(g)
    ensures CoarseOffers(g) ==
              FromSegments([Before(g), After(g)], SteadySource(), SteadyEnvelope(),
                           SteadyConstraints(g), CoarseSettings(g))
  {
    SteadyLimits(g);
    SteadySegments(g);
    SteadyChecked(g);
    NormalizedIs(SteadySource(), SteadyEnvelope(), SteadyConstraints(g), SteadyForecast(g), CoarseSettings(g),
                 SteadyHorizon(g), SteadyBand(), [Before(g), After(g)]);
  }

  lemma SteadyChecked(g: Gap)
    requires Fits(g)
    ensures CheckSource(SteadySource(), SteadyEnvelope(), CoarseSettings(g)).None?
  {
  }

  function SteadySegment(g: Gap, down: real): Segment {
    Before(g).(down := down)
  }

  lemma SteadyOffers(g: Gap) returns (down: real)
    requires Fits(g)
    ensures Overlapping(LimitedSegmentsOf(g), 0, g.resolution) == [SteadySegment(g, down)]
    ensures CoarseOffers(g) ==
              Ok([BucketOffer([SteadySegment(g, down)], 0, g.resolution, SteadySource(), SteadyConstraints(g))])
  {
    var limited := LimitedSegmentsOf(g);
    SteadyNormalized(g);
    SteadyEnergies(g);
    SteadyLimited(g);
    FromSegmentsIs([Before(g), After(g)], SteadyEnds(g), SteadySource(), SteadyEnvelope(), SteadyConstraints(g), CoarseSettings(g));
    CoarseBucket(limited, g.covered, g.resolution, SteadySource(), SteadyConstraints(g));
    down := limited[0].down;
  }

  function LimitedSegmentsOf(g: Gap): seq<Segment>
    requires Fits(g)
  {
    LimitedSegments([Before(g), After(g)], SteadyEnds(g), SteadyEnvelope())
  }

  lemma SteadyUncovered(g: Gap, o: Offer)
    requires Fits(g) && o.start == 0 && o.end == g.resolution
    ensures !BucketCovered(SteadyEnvelope(), SteadyConstraints(g), SteadyForecast(g), CoarseSettings(g), o)
  {
    SteadyLimits(g);
    SteadySegments(g);
    SteadyEnergies(g);
    SteadyLimited(g);
    CoarseBucket(LimitedSegmentsOf(g), g.covered, g.resolution, SteadySource(), SteadyConstraints(g));
  }

  lemma GapMisses(g: Gap)
    requires Fits(g)
    ensures var constraints, settings := SteadyConstraints(g), CoarseSettings(g);
            && CoarseOffers(g).Ok? && |CoarseOffers(g).value| == 1
            && var o := CoarseOffers(g).value[0];
               && !PowerKept(SteadyEnvelope(), constraints, o)
               && !RampKept(SteadyEnvelope(), settings, o)
               && !BucketCovered(SteadyEnvelope(), constraints, SteadyForecast(g), settings, o)
  {
    var down := SteadyOffers(g);
    BucketMisses(SteadySegment(g, down), g);
    SteadyUncovered(g, CoarseOffers(g).value[0]);
  }

  /** At every coarse resolution the normaliser accepts such an input, and its only offer is not wholly
      covered and misses both envelopes. */
  lemma CoarseMissesTheEnvelope(resolution: int)
    requires Coarse(resolution)
    ensures var g := GapOf(resolution);
            var constraints, settings := SteadyConstraints(g), CoarseSettings(g);
            && settings.resolution == resolution
            && CoarseOffers(g).Ok? && |CoarseOffers(g).value| == 1
            && var o := CoarseOffers(g).value[0];
               && !PowerKept(SteadyEnvelope(), constraints, o)
               && !RampKept(SteadyEnvelope(), settings, o)
               && !BucketCovered(SteadyEnvelope(), constraints, SteadyForecast(g), settings, o)
  {
    GapMisses(GapOf(resolution));
  }

  // ----- Coarse resolutions are exactly those that miss the envelopes

  /** The input's kept segments cover the whole bucket of an offer. */
  ghost predicate BucketCovered(
      envelope: Envelope, constraints: Constraints, forecast: Forecast, settings: Settings, o: Offer) {
    && HasLimits(constraints) && RawSegments(envelope, constraints, forecast, settings).Ok?
    && var raw := RawSegments(envelope, constraints, forecast, settings).value;
       && Ready(raw, envelope)
       && Covered(Overlapping(LimitedOf(raw, envelope), o.start, o.end), o.start, o.end) == settings.resolution
  }

  /** Every offer of every input at this resolution covers its bucket, and keeps both envelopes. */
  ghost predicate AlwaysCovered(resolution: int) {
    forall source, envelope, constraints, forecast, settings: Settings, offers, k: nat ::
      settings.resolution == resolution && k < |offers|
      && Normalized(source, envelope, constraints, forecast, settings) == Ok(offers) ==>
        BucketCovered(envelope, constraints, forecast, settings, offers[k])
  }

  ghost predicate AlwaysPower(resolution: int) {
    forall source, envelope, constraints, forecast, settings: Settings, offers, k: nat ::
      settings.resolution == resolution && k < |offers|
      && Normalized(source, envelope, constraints, forecast, settings) == Ok(offers) ==>
        PowerKept(envelope, constraints, offers[k])
  }

  ghost predicate AlwaysRamp(resolution: int) {
    forall source, envelope, constraints, forecast, settings: Settings, offers, k: nat ::
      settings.resolution == resolution && k < |offers|
      && Normalized(source, envelope, constraints, forecast, settings) == Ok(offers) ==>
        RampKept(envelope, settings, offers[k])
  }

  lemma FineKeepsAll(
      source: Source, envelope: Envelope, constraints: Constraints, forecast: Forecast, settings: Settings,
      offers: seq<Offer>, k: nat)
    requires Normalized(source, envelope, constraints, forecast, settings) == Ok(offers) && k < |offers|
    requires !Coarse(settings.resolution)
    ensures BucketCovered(envelope, constraints, forecast, settings, offers[k])
    ensures PowerKept(envelope, constraints, offers[k])
    ensures RampKept(envelope, settings, offers[k])
  {
    WhollyCovered(source, envelope, constraints, forecast, settings, offers, k);
    PowerEnvelope(source, envelope, constraints, forecast, settings, offers, k);
    RampEnvelope(source, envelope, constraints, forecast, settings, offers, k);
  }

  /** Resampling keeps the power envelope, and the ramp envelope, and covers its buckets, exactly at
      the resolutions that are not coarse. */
  lemma CoarseDecides(resolution: int)
    ensures AlwaysPower(resolution) <==> !Coarse(resolution)
    ensures AlwaysRamp(resolution) <==> !Coarse(resolution)
    ensures AlwaysCovered(resolution) <==> !Coarse(resolution)
  {
    if Coarse(resolution) {
      var g := GapOf(resolution);
      CoarseMissesTheEnvelope(resolution);
      var offers := CoarseOffers(g).value;
      assert Normalized(SteadySource(), SteadyEnvelope(), SteadyConstraints(g), SteadyForecast(g), CoarseSettings(g)) == Ok(offers);
      assert 0 < |offers|;
    } else {
      forall source, envelope, constraints, forecast, settings: Settings, offers, k: nat
        | settings.resolution == resolution && k < |offers|
          && Normalized(source, envelope, constraints, forecast, settings) == Ok(offers)
        ensures BucketCovered(envelope, constraints, forecast, settings, offers[k]) && RampKept(envelope, settings, offers[k])
      {
        FineKeepsAll(source, envelope, constraints, forecast, settings, offers, k);
      }
      forall source, envelope, constraints, forecast, settings: Settings, offers, k: nat
        | settings.resolution == resolution && k < |offers|
          && Normalized(source, envelope, constraints, forecast, settings) == Ok(offers)
        ensures PowerKept(envelope, constraints, offers[k])
      {
        FineKeepsAll(source, envelope, constraints, forecast, settings, offers, k);
      }
    }
  }
}
