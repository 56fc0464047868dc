/** Producer and consumer agree: what the battery simulator forecasts passes the normaliser,
    provisioned from the same state, and yields one offer per whole quarter of an hour. */
module BatteryOffers {
  import opened Domain
  import opened Battery
  import opened Pebc
  import opened PebcResampling
  import PebcEnergy

  type Offer = Domain.Offer

  // ----- The segments of a forecast

  /** Quarters of an hour one after the other, from a start. */
  ghost predicate Quarters(segments: seq<Segment>, start: Time) {
    forall i :: 0 <= i < |segments| ==>
      segments[i].start == Edge(start, i, QUARTER_HOUR) && segments[i].end == Edge(start, i + 1, QUARTER_HOUR)
  }

  function ValueOf(b: Battery, i: nat): PowerValue {
    ElementOf(ForecastPower(b, ForecastEnergy(b, i))).values[0]
  }

  function ForecastSegments(b: Battery, start: Time, n: nat, band: Band): (segments: seq<Segment>)
    ensures |segments| == n
  {
    if n == 0 then []
    else
      ForecastSegments(b, start, n - 1, band) +
      [SegmentOf(ValueOf(b, n - 1), Edge(start, n - 1, QUARTER_HOUR), QUARTER_HOUR, band)]
  }

  function BatteryBand(b: Battery): Band {
    BandOf(RangesOf(b), EnvelopeOf(b), DEFAULT_SETTINGS)
  }

  lemma RangesAre(b: Battery)
    ensures Limits(RangesOf(b), true) == [RangesOf(b)[0]] && Limits(RangesOf(b), false) == [RangesOf(b)[1]]
  {
    var ranges := RangesOf(b);
    assert ranges[..1] == [ranges[0]] && ranges[..1][..0] == [];
    assert Limits([ranges[0]], true) == [] + [ranges[0]];
    assert Limits([ranges[0]], false) == [];
  }

  lemma BandIs(b: Battery)
    requires Valid(b)
    ensures Limits(RangesOf(b), true) != [] && Limits(RangesOf(b), false) != []
    ensures BatteryBand(b).low == -DischargeLimit(b) * 1000.0 && BatteryBand(b).high == ChargeLimit(b) * 1000.0
    ensures BatteryBand(b).low <= BatteryBand(b).high
  {
    RangesAre(b);
  }

  lemma {:induction false} CursorIs(b: Battery, start: Time, n: nat)
    ensures CursorAfter(start, Elements(b, n)) == Edge(start, n, QUARTER_HOUR)
  {
    if n > 0 {
      CursorIs(b, start, n - 1);
      assert Elements(b, n)[..n - 1] == Elements(b, n - 1);
    }
  }

  function ForecastElement(b: Battery, i: nat): Element {
    ElementOf(ForecastPower(b, ForecastEnergy(b, i)))
  }

  /** What the messages say of interval i passes the band they lead to. */
  lemma ValueInBand(b: Battery, i: nat)
    requires Valid(b)
    ensures BatteryBand(b).low <= ValueOf(b, i).expected <= BatteryBand(b).high
  {
    BandIs(b);
    LimitsHold(b, i);
  }

  lemma ElementIs(b: Battery, i: nat)
    ensures Supported(ForecastElement(b, i).values) == [ValueOf(b, i)] && Micros(ForecastElement(b, i)) == QUARTER_HOUR
  {
    var values := ForecastElement(b, i).values;
    assert values[..0] == [];
  }

  lemma ForecastUnfolds(b: Battery, start: Time, n: nat, band: Band)
    ensures Elements(b, n + 1) == Elements(b, n) + [ForecastElement(b, n)]
    ensures ForecastSegments(b, start, n + 1, band)
         == ForecastSegments(b, start, n, band) + [SegmentOf(ValueOf(b, n), Edge(start, n, QUARTER_HOUR), QUARTER_HOUR, band)]
  {
  }

  lemma {:induction false} AllKept(b: Battery, start: Time, n: nat, horizon: Horizon, band: Band)
    requires horizon.from <= start && Edge(start, n, QUARTER_HOUR) <= horizon.until
    requires forall i: nat :: i < n ==> band.low <= ValueOf(b, i).expected <= band.high
    ensures KeptSegments(start, Elements(b, n), horizon, band) == Ok(ForecastSegments(b, start, n, band))
  {
    if n > 0 {
      var i := n - 1;
      AllKept(b, start, i, horizon, band);
      CursorIs(b, start, i);
      EdgesInOrder(start, 0, i);
      ElementIs(b, i);
      ForecastUnfolds(b, start, i, band);
      NextKept(start, Elements(b, i), ForecastElement(b, i), horizon, band, ForecastSegments(b, start, i, band), ValueOf(b, i));
    }
  }

  lemma NextQuarter(segments: seq<Segment>, s: Segment, start: Time)
    requires Quarters(segments, start)
    requires s.start == Edge(start, |segments|, QUARTER_HOUR) && s.end == s.start + QUARTER_HOUR
    ensures Quarters(segments + [s], start)
  {
  }

  lemma {:induction false} SegmentsAreQuarters(b: Battery, start: Time, n: nat, band: Band)
    ensures Quarters(ForecastSegments(b, start, n, band), start)
  {
    if n > 0 {
      SegmentsAreQuarters(b, start, n - 1, band);
      var last := SegmentOf(ValueOf(b, n - 1), Edge(start, n - 1, QUARTER_HOUR), QUARTER_HOUR, band);
      NextQuarter(ForecastSegments(b, start, n - 1, band), last, start);
    }
  }

  lemma QuarterEnergy(power: real)
    ensures Energy(power * 1000.0, QUARTER_HOUR) == power * 0.25
  {
  }

  lemma NextEnergy(segments: seq<Segment>, s: Segment, envelope: Envelope, end: real)
    requires EndEnergies(segments, envelope).Ok?
    requires var ends := EndEnergies(segments, envelope).value;
             end == (if ends == [] then envelope.initialEnergy else ends[|ends| - 1]) + Energy(s.baseline, Length(s))
    requires envelope.minEnergy <= end <= envelope.maxEnergy
    ensures EndEnergies(segments + [s], envelope) == Ok(EndEnergies(segments, envelope).value + [end])
  {
    assert (segments + [s])[..|segments|] == segments;
  }

  /** The forward pass finds the energies the simulator forecast. */
  lemma {:induction false} ForwardAgrees(b: Battery, start: Time, n: nat, band: Band)
    requires Valid(b)
    ensures var ends := EndEnergies(ForecastSegments(b, start, n, band), EnvelopeOf(b));
            ends.Ok? && (n > 0 ==> ends.value[n - 1] == ForecastEnergy(b, n))
  {
    if n > 0 {
      var i := n - 1;
      var s := SegmentOf(ValueOf(b, i), Edge(start, i, QUARTER_HOUR), QUARTER_HOUR, band);
      ForwardAgrees(b, start, i, band);
      ForecastUnfolds(b, start, i, band);
      QuarterEnergy(ForecastPower(b, ForecastEnergy(b, i)));
      ForecastInRange(b, n);
      NextEnergy(ForecastSegments(b, start, i, band), s, EnvelopeOf(b), ForecastEnergy(b, n));
    }
  }

  // ----- Buckets inside contiguous quarters

  function Passing(segments: seq<Segment>, t: Time): int {
    if segments == [] then 0 else Passing(segments[..|segments| - 1], t) + Elapsed(segments[|segments| - 1], t)
  }

  /** All the time between a start and an end passes in one of the quarters. */
  lemma {:induction false} QuartersPass(segments: seq<Segment>, start: Time, t: Time)
    requires Quarters(segments, start) && start <= t <= Edge(start, |segments|, QUARTER_HOUR)
    ensures Passing(segments, t) == t - start
  {
    if segments != [] {
      var init, last := segments[..|segments| - 1], segments[|segments| - 1];
      if t <= last.start {
        QuartersPass(init, start, t);
      } else {
        AllQuartersPass(init, start, t);
      }
    }
  }

  lemma {:induction false} AllQuartersPass(segments: seq<Segment>, start: Time, t: Time)
    requires Quarters(segments, start) && t >= Edge(start, |segments|, QUARTER_HOUR)
    ensures Passing(segments, t) == Edge(start, |segments|, QUARTER_HOUR) - start
  {
    if segments != [] {
      AllQuartersPass(segments[..|segments| - 1], start, t);
    }
  }

  lemma {:induction false} CoveredIsPassing(segments: seq<Segment>, from: Time, until: Time)
    requires Ordered(segments) && from < until
    ensures Covered(Overlapping(segments, from, until), from, until) == Passing(segments, until) - Passing(segments, from)
  {
    if segments != [] {
      var init, last := segments[..|segments| - 1], segments[|segments| - 1];
      CoveredIsPassing(init, from, until);
      var before := Overlapping(init, from, until);
      SharedIsElapsed(last, from, until);
      if Overlaps(last, from, until) {
        assert (before + [last])[..|before|] == before;
      } else {
        assert before + [] == before;
      }
    }
  }

  lemma QuarterEmitted(segments: seq<Segment>, start: Time, from: Time)
    requires Quarters(segments, start) && Ordered(segments)
    requires start <= from && from + QUARTER_HOUR <= Edge(start, |segments|, QUARTER_HOUR)
    ensures Emitted(segments, from, from + QUARTER_HOUR)
  {
    QuartersPass(segments, start, from);
    QuartersPass(segments, start, from + QUARTER_HOUR);
    CoveredIsPassing(segments, from, from + QUARTER_HOUR);
  }

  lemma QuartersOrdered(segments: seq<Segment>, start: Time)
    requires Quarters(segments, start)
    ensures Ordered(segments)
  {
    forall i | 0 <= i < |segments|
      ensures segments[i].start <= segments[i].end
    {
      EdgesInOrder(start, i, i + 1);
    }
    forall i, j | 0 <= i < j < |segments|
      ensures segments[i].end <= segments[j].start
    {
      EdgesInOrder(start, i + 1, j);
    }
  }

  lemma {:induction false} EdgesInOrder(start: Time, i: nat, j: nat)
    requires i <= j
    ensures Edge(start, i, QUARTER_HOUR) <= Edge(start, j, QUARTER_HOUR)
  {
    if i < j {
      EdgesInOrder(start, i, j - 1);
    }
  }

  /** One offer for each of the first n quarters from a point on, in order and without a gap. */
  ghost predicate Contiguous(offers: seq<Offer>, first: Time, n: nat) {
    && |offers| == n
    && forall i :: 0 <= i < n ==>
         offers[i].start == Edge(first, i, QUARTER_HOUR) && offers[i].end == Edge(first, i + 1, QUARTER_HOUR)
  }

  lemma {:induction false} AllEmitted(
      segments: seq<Segment>, start: Time, first: Time, n: nat, source: Source, constraints: Constraints)
    requires Quarters(segments, start) && Ordered(segments) && constraints.validUntil.Some?
    requires start <= first && Edge(first, n, QUARTER_HOUR) <= Edge(start, |segments|, QUARTER_HOUR)
    ensures Contiguous(Buckets(segments, first, n, QUARTER_HOUR, source, constraints), first, n)
  {
    if n > 0 {
      AllEmitted(segments, start, first, n - 1, source, constraints);
      EdgesInOrder(first, 0, n - 1);
      QuarterEmitted(segments, start, Edge(first, n - 1, QUARTER_HOUR));
    }
  }

  // ----- The whole

  lemma QuarterEdge(start: Time, n: nat)
    ensures Edge(start, n, QUARTER_HOUR) == start + n * QUARTER_HOUR
  {
    EdgeIs(start, n, QUARTER_HOUR);
  }

  /** How many whole quarters of an hour fit a forecast of n. */
  function WholeQuarters(start: Time, n: nat): nat
    requires n > 0
  {
    if start % QUARTER_HOUR == 0 then n else n - 1
  }

  lemma CountIs(start: Time, n: nat)
    requires n > 0
    ensures var first := AlignedUp(start, QUARTER_HOUR);
            && start <= first < start + QUARTER_HOUR && first % QUARTER_HOUR == 0
            && (start % QUARTER_HOUR == 0 ==> first == start)
            && BucketCount(first, start + n * QUARTER_HOUR, QUARTER_HOUR) == WholeQuarters(start, n)
            && Edge(first, WholeQuarters(start, n), QUARTER_HOUR) <= start + n * QUARTER_HOUR
  {
    QuarterEdge(AlignedUp(start, QUARTER_HOUR), WholeQuarters(start, n));
  }

  lemma BatteryReady(b: Battery, start: Time, n: nat)
    requires Valid(b)
    ensures Ready(ForecastSegments(b, start, n, BatteryBand(b)), EnvelopeOf(b))
  {
    var band := BatteryBand(b);
    SegmentsAreQuarters(b, start, n, band);
    QuartersOrdered(ForecastSegments(b, start, n, band), start);
    ForwardAgrees(b, start, n, band);
    EnergyInRange(b);
    SegmentsAreSane(b, start, n, band);
  }

  lemma LimitedAreQuarters(raw: seq<Segment>, envelope: Envelope, start: Time)
    requires Ready(raw, envelope) && Quarters(raw, start)
    ensures Quarters(LimitedOf(raw, envelope), start)
  {
  }

  lemma {:induction false} SegmentsAreSane(b: Battery, start: Time, n: nat, band: Band)
    requires band.ramp >= 0.0
    ensures PebcEnergy.Sane(ForecastSegments(b, start, n, band)) && AllPositive(ForecastSegments(b, start, n, band))
  {
    if n > 0 {
      SegmentsAreSane(b, start, n - 1, band);
    }
  }

  lemma ResampledIs(
      limited: seq<Segment>, first: Time, n: nat, until: Time, source: Source, constraints: Constraints)
    requires limited != [] && limited[|limited| - 1].end == until && constraints.validUntil == Some(until)
    requires first == AlignedUp(limited[0].start, QUARTER_HOUR) && n == BucketCount(first, until, QUARTER_HOUR)
    ensures Resampled(limited, QUARTER_HOUR, source, constraints)
         == Buckets(limited, first, n, QUARTER_HOUR, source, constraints)
  {
  }

  lemma QuartersSpan(limited: seq<Segment>, start: Time)
    requires Quarters(limited, start) && limited != []
    ensures limited[0].start == start && limited[|limited| - 1].end == Edge(start, |limited|, QUARTER_HOUR)
  {
  }

  /** Resampling quarters of an hour that end with the validity. */
  lemma QuartersResampled(limited: seq<Segment>, start: Time, source: Source, constraints: Constraints)
    requires Quarters(limited, start) && Ordered(limited) && limited != []
    requires constraints.validUntil == Some(start + |limited| * QUARTER_HOUR)
    ensures Contiguous(Resampled(limited, QUARTER_HOUR, source, constraints),
                       AlignedUp(start, QUARTER_HOUR), WholeQuarters(start, |limited|))
  {
    var first, n := AlignedUp(start, QUARTER_HOUR), WholeQuarters(start, |limited|);
    QuarterEdge(start, |limited|);
    CountIs(start, |limited|);
    QuartersSpan(limited, start);
    AllEmitted(limited, start, first, n, source, constraints);
    ResampledIs(limited, first, n, start + |limited| * QUARTER_HOUR, source, constraints);
  }

  predicate InClockWindow(source: Source) {
    && source.receivedAt - DEFAULT_SETTINGS.maximumAge <= source.observedAt
    && source.observedAt <= source.receivedAt + DEFAULT_SETTINGS.maximumSkew
  }

  lemma SourceAccepted(b: Battery, source: Source)
    requires Valid(b) && InClockWindow(source)
    ensures CheckSource(source, EnvelopeOf(b), DEFAULT_SETTINGS).None?
  {
    EnergyInRange(b);
  }

  lemma BatteryNormalized(b: Battery, start: Time, n: nat, horizon: Horizon, source: Source, constraints: Constraints)
    requires Valid(b) && InClockWindow(source)
    requires constraints.ranges == RangesOf(b)
    requires constraints.validUntil == Some(horizon.until) && constraints.validFrom == horizon.from == start
    requires horizon.until == Edge(start, n, QUARTER_HOUR) && horizon.until - horizon.from <= DAY
    ensures Normalized(source, EnvelopeOf(b), constraints, Forecast(start, Elements(b, n)), DEFAULT_SETTINGS)
         == FromSegments(ForecastSegments(b, start, n, BatteryBand(b)), source, EnvelopeOf(b), constraints, DEFAULT_SETTINGS)
  {
    var band := BatteryBand(b);
    SourceAccepted(b, source);
    BandIs(b);
    forall i: nat | i < n
      ensures band.low <= ValueOf(b, i).expected <= band.high
    {
      ValueInBand(b, i);
    }
    AllKept(b, start, n, horizon, band);
    NormalizedIs(source, EnvelopeOf(b), constraints, Forecast(start, Elements(b, n)), DEFAULT_SETTINGS, horizon, band,
                 ForecastSegments(b, start, n, band));
  }

  lemma NothingRefused(b: Battery, start: Time, n: nat, id: string, source: Source)
    requires Valid(b) && 1 <= n <= 96 && InClockWindow(source)
    ensures OfferMessages(b, start, n, id).Some?
    ensures var messages := OfferMessages(b, start, n, id).value;
            Normalized(source, EnvelopeOf(b), messages.constraints, messages.forecast, DEFAULT_SETTINGS)
              == FromSegments(ForecastSegments(b, start, n, BatteryBand(b)), source, EnvelopeOf(b), messages.constraints, DEFAULT_SETTINGS)
  {
    QuarterEdge(start, n);
    BatteryNormalized(b, start, n, Horizon(start, start + n * QUARTER_HOUR), source, OfferMessages(b, start, n, id).value.constraints);
  }

  lemma QuartersAccepted(raw: seq<Segment>, envelope: Envelope, start: Time, source: Source, constraints: Constraints)
    requires Ready(raw, envelope) && Quarters(raw, start) && raw != []
    requires constraints.validUntil == Some(start + |raw| * QUARTER_HOUR)
    ensures FromSegments(raw, source, envelope, constraints, DEFAULT_SETTINGS).Ok?
    ensures Contiguous(FromSegments(raw, source, envelope, constraints, DEFAULT_SETTINGS).value,
                       AlignedUp(start, QUARTER_HOUR), WholeQuarters(start, |raw|))
  {
    LimitedAreQuarters(raw, envelope, start);
    LimitedOrdered(raw, envelope);
    QuartersResampled(LimitedOf(raw, envelope), start, source, constraints);
  }

  lemma BatteryAccepted(b: Battery, start: Time, n: nat, source: Source, constraints: Constraints)
    requires Valid(b) && n > 0 && constraints.validUntil == Some(start + n * QUARTER_HOUR)
    ensures var result := FromSegments(ForecastSegments(b, start, n, BatteryBand(b)), source, EnvelopeOf(b), constraints, DEFAULT_SETTINGS);
            && result.Ok?
            && Contiguous(result.value, AlignedUp(start, QUARTER_HOUR), WholeQuarters(start, n))
  {
    BatteryReady(b, start, n);
    SegmentsAreQuarters(b, start, n, BatteryBand(b));
    QuartersAccepted(ForecastSegments(b, start, n, BatteryBand(b)), EnvelopeOf(b), start, source, constraints);
  }

  /** Within the clock window, the messages of a valid battery for 1 to 96 intervals are never
      refused by the normaliser, once the same state could be provisioned, and yield exactly as many
      contiguous offers as whole quarters of an hour lie in them: all, if the start is aligned. */
  lemma ForecastIsAccepted(b: Battery, start: Time, n: nat, id: string, source: Source)
    requires Valid(b) && 1 <= n <= 96 && InClockWindow(source)
    ensures OfferMessages(b, start, n, id).Some?
    ensures Provision(b).Some? ==>
            var messages := OfferMessages(b, start, n, id).value;
            var result := Normalized(source, Provision(b).value, messages.constraints, messages.forecast, DEFAULT_SETTINGS);
            && result.Ok?
            && Contiguous(result.value, AlignedUp(start, QUARTER_HOUR), WholeQuarters(start, n))
  {
    NothingRefused(b, start, n, id, source);
    BatteryAccepted(b, start, n, source, OfferMessages(b, start, n, id).value.constraints);
  }
}
