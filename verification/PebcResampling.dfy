/** Resampling keeps what the segments guarantee: energy safety at every moment, and the power
    and ramp envelope of every offer. */
module PebcResampling {
  import opened Domain
  import opened Pebc
  import opened PebcEnergy

  type Offer = Domain.Offer

  // ----- The kept segments

  /** Segments in time order, none reaching into the next. */
  ghost predicate Ordered(segments: seq<Segment>) {
    && (forall i :: 0 <= i < |segments| ==> segments[i].start <= segments[i].end)
    && (forall i, j :: 0 <= i < j < |segments| ==> segments[i].end <= segments[j].start)
  }

  ghost predicate InBand(s: Segment, band: Band, horizon: Horizon) {
    && band.low <= s.baseline <= band.high
    && 0.0 <= s.up <= s.baseline - band.low && s.up <= band.ramp
    && 0.0 <= s.down <= band.high - s.baseline && s.down <= band.ramp
    && 0.0 <= s.confidence <= 1.0
    && horizon.from <= s.start && s.end <= horizon.until
  }

  ghost predicate AllInBand(segments: seq<Segment>, band: Band, horizon: Horizon) {
    forall i :: 0 <= i < |segments| ==> InBand(segments[i], band, horizon)
  }

  lemma {:induction false} KeptSegmentsAre(start: Time, elements: seq<Element>, horizon: Horizon, band: Band)
    requires band.ramp >= 0.0 && KeptSegments(start, elements, horizon, band).Ok?
    ensures var segments := KeptSegments(start, elements, horizon, band).value;
            && Ordered(segments) && AllInBand(segments, band, horizon)
            && (forall i :: 0 <= i < |segments| ==> segments[i].end <= CursorAfter(start, elements))
  {
    if elements != [] {
      KeptSegmentsAre(start, elements[..|elements| - 1], horizon, band);
    }
  }

  /** One more element, kept or dropped. */
  lemma NextKept(
      start: Time, elements: seq<Element>, element: Element, horizon: Horizon, band: Band, before: seq<Segment>,
      value: PowerValue)
    requires KeptSegments(start, elements, horizon, band) == Ok(before)
    requires Supported(element.values) == [value] && band.low <= value.expected <= band.high
    requires horizon.from <= CursorAfter(start, elements) && CursorAfter(start, elements) + Micros(element) <= horizon.until
    ensures KeptSegments(start, elements + [element], horizon, band)
         == Ok(before + [SegmentOf(value, CursorAfter(start, elements), Micros(element), band)])
    ensures CursorAfter(start, elements + [element]) == CursorAfter(start, elements) + Micros(element)
  {
    assert (elements + [element])[..|elements|] == elements;
  }

  lemma NextDropped(
      start: Time, elements: seq<Element>, element: Element, horizon: Horizon, band: Band, before: seq<Segment>)
    requires KeptSegments(start, elements, horizon, band) == Ok(before)
    requires !Kept(element, CursorAfter(start, elements), horizon)
    ensures KeptSegments(start, elements + [element], horizon, band) == Ok(before)
    ensures CursorAfter(start, elements + [element]) == CursorAfter(start, elements) + Micros(element)
  {
    assert (elements + [element])[..|elements|] == elements;
  }

  /** Once the checks have passed, the segments decide. */
  lemma NormalizedIs(
      source: Source, envelope: Envelope, constraints: Constraints, forecast: Forecast, settings: Settings,
      horizon: Horizon, band: Band, raw: seq<Segment>)
    requires CheckSource(source, envelope, settings).None? && settings.resolution > 0
    requires Limits(constraints.ranges, true) != [] && Limits(constraints.ranges, false) != []
    requires constraints.validUntil == Some(horizon.until) && constraints.validFrom == horizon.from
    requires horizon.until - horizon.from <= DAY
    requires band == BandOf(constraints.ranges, envelope, settings) && band.low <= band.high
    requires KeptSegments(forecast.start, forecast.elements, horizon, band) == Ok(raw)
    ensures Normalized(source, envelope, constraints, forecast, settings)
         == FromSegments(raw, source, envelope, constraints, settings)
  {
  }

  lemma FromSegmentsIs(
      raw: seq<Segment>, ends: seq<real>, source: Source, envelope: Envelope, constraints: Constraints, settings: Settings)
    requires settings.resolution > 0 && constraints.validUntil.Some?
    requires raw != [] && AllPositive(raw) && EndEnergies(raw, envelope) == Ok(ends)
    ensures FromSegments(raw, source, envelope, constraints, settings)
         == Ok(Resampled(LimitedSegments(raw, ends, envelope), settings.resolution, source, constraints))
  {
  }

  // ----- Energy up to a moment

  /** How much of a segment has passed. */
  function Elapsed(s: Segment, t: Time): int {
    if t <= s.start then 0 else if t >= s.end then Length(s) else t - s.start
  }

  /** The quantities of a segment, and the lowest and the (negated) highest power it allows. */
  datatype Rate = Of(q: Quantity) | Lowest | NegatedHighest

  function RateOf(s: Segment, rate: Rate): real {
    match rate
    case Of(q) => Watts(s, q)
    case Lowest => s.baseline - s.up
    case NegatedHighest => -(s.baseline + s.down)
  }

  function EnergyUntil(segments: seq<Segment>, rate: Rate, t: Time): real {
    if segments == [] then 0.0
    else
      var last := segments[|segments| - 1];
      EnergyUntil(segments[..|segments| - 1], rate, t) + Energy(RateOf(last, rate), Elapsed(last, t))
  }

  function Total(segments: seq<Segment>, rate: Rate): real {
    if segments == [] then 0.0
    else
      var last := segments[|segments| - 1];
      Total(segments[..|segments| - 1], rate) + Energy(RateOf(last, rate), Length(last))
  }

  lemma EnergyOfNothing(watts: real)
    ensures Energy(watts, 0) == 0.0
  {
  }

  lemma EnergyAdds(watts: real, a: int, b: int)
    ensures Energy(watts, a + b) == Energy(watts, a) + Energy(watts, b)
  {
  }

  lemma EnergyMonotone(watts: real, a: int, b: int)
    requires watts >= 0.0 && a <= b
    ensures Energy(watts, a) <= Energy(watts, b)
  {
    EnergyAdds(watts, a, b - a);
    EnergyNonnegative(watts, b - a);
  }

  lemma EnergyOfSum(x: real, y: real, micros: int)
    ensures Energy(x + y, micros) == Energy(x, micros) + Energy(y, micros)
    ensures Energy(x - y, micros) == Energy(x, micros) - Energy(y, micros)
    ensures Energy(-x, micros) == -Energy(x, micros)
  {
  }

  lemma {:induction false} AllPassed(segments: seq<Segment>, rate: Rate, t: Time)
    requires forall i :: 0 <= i < |segments| ==> segments[i].start <= segments[i].end <= t
    ensures EnergyUntil(segments, rate, t) == Total(segments, rate)
  {
    if segments != [] {
      AllPassed(segments[..|segments| - 1], rate, t);
      EnergyOfNothing(RateOf(segments[|segments| - 1], rate));
    }
  }

  /** A constant power that stays above a floor at both ends of an interval does so in between. */
  lemma LineAbove(at: real, watts: real, passed: int, whole: int, floor: real)
    requires 0 <= passed <= whole && at >= floor && at + Energy(watts, whole) >= floor
    ensures at + Energy(watts, passed) >= floor
  {
    if watts >= 0.0 {
      EnergyNonnegative(watts, passed);
    } else {
      EnergyOfSum(watts, 0.0, passed);
      EnergyOfSum(watts, 0.0, whole);
      EnergyMonotone(-watts, passed, whole);
    }
  }

  /** If the total so far stays above a floor after every segment, the energy does at every moment. */
  lemma {:induction false} AboveAtEveryMoment(segments: seq<Segment>, rate: Rate, start: real, floor: real, t: Time)
    requires Ordered(segments)
    requires forall i :: 0 <= i <= |segments| ==> start + Total(segments[..i], rate) >= floor
    ensures start + EnergyUntil(segments, rate, t) >= floor
  {
    assert segments[..|segments|] == segments;
    if segments == [] {
      assert start + Total(segments[..0], rate) >= floor;
    } else {
      var init, last := segments[..|segments| - 1], segments[|segments| - 1];
      forall i | 0 <= i <= |init|
        ensures start + Total(init[..i], rate) >= floor
      {
        assert init[..i] == segments[..i];
      }
      AboveAtEveryMoment(init, rate, start, floor, t);
      EnergyOfNothing(RateOf(last, rate));
      if t > last.start {
        AllPassed(init, rate, t);
        assert start + Total(segments[..|init|], rate) >= floor;
        assert start + Total(segments[..|segments|], rate) >= floor;
        LineAbove(start + Total(init, rate), RateOf(last, rate), Elapsed(last, t), Length(last), floor);
      }
    }
  }

  lemma {:induction false} LowestUntil(segments: seq<Segment>, t: Time)
    ensures EnergyUntil(segments, Lowest, t) == EnergyUntil(segments, Of(Baseline), t) - EnergyUntil(segments, Of(Up), t)
    ensures EnergyUntil(segments, NegatedHighest, t) == -EnergyUntil(segments, Of(Baseline), t) - EnergyUntil(segments, Of(Down), t)
  {
    if segments != [] {
      var last := segments[|segments| - 1];
      LowestUntil(segments[..|segments| - 1], t);
      EnergyOfSum(last.baseline, last.up, Elapsed(last, t));
      EnergyOfSum(last.baseline, last.down, Elapsed(last, t));
      EnergyOfSum(last.baseline + last.down, 0.0, Elapsed(last, t));
    }
  }

  lemma {:induction false} LowestTotal(segments: seq<Segment>)
    ensures Total(segments, Lowest) == Total(segments, Of(Baseline)) - Total(segments, Of(Up))
    ensures Total(segments, NegatedHighest) == -Total(segments, Of(Baseline)) - Total(segments, Of(Down))
  {
    if segments != [] {
      var last := segments[|segments| - 1];
      LowestTotal(segments[..|segments| - 1]);
      EnergyOfSum(last.baseline, last.up, Length(last));
      EnergyOfSum(last.baseline, last.down, Length(last));
      EnergyOfSum(last.baseline + last.down, 0.0, Length(last));
    }
  }

  // ----- The limited segments spend exactly the granted energies

  lemma PowerForYields(energy: real, micros: int)
    requires micros > 0
    ensures Energy(PowerFor(energy, micros), micros) == energy
  {
    var hours := micros as real / MICROS_PER_HOUR;
    assert hours > 0.0;
    assert energy / hours * 1000.0 / 1000.0 == energy / hours;
    assert energy / hours * hours == energy;
  }

  lemma QuotientBounded(x: real, y: real, divisor: real)
    requires divisor > 0.0 && 0.0 <= x <= y * divisor
    ensures 0.0 <= x / divisor <= y
  {
    var quotient := x / divisor;
    assert quotient * divisor == x;
  }

  lemma PowerForBounded(energy: real, watts: real, micros: int)
    requires micros > 0 && 0.0 <= energy <= Energy(watts, micros)
    ensures 0.0 <= PowerFor(energy, micros) <= watts
  {
    QuotientBounded(energy, watts / 1000.0, micros as real / MICROS_PER_HOUR);
  }

  lemma {:induction false} LimitedTotals(segments: seq<Segment>, ups: seq<real>, downs: seq<real>, k: nat)
    requires |ups| == |downs| == |segments| && AllPositive(segments) && k <= |segments|
    ensures var limited := Limited(segments, ups, downs)[..k];
            && Total(limited, Of(Up)) == SumOf(ups[..k])
            && Total(limited, Of(Down)) == SumOf(downs[..k])
            && Total(limited, Of(Baseline)) == BaselineTotal(segments[..k])
  {
    if k > 0 {
      var limited := Limited(segments, ups, downs);
      LimitedTotals(segments, ups, downs, k - 1);
      SumNext(ups, k - 1);
      SumNext(downs, k - 1);
      assert limited[..k][..k - 1] == limited[..k - 1];
      assert segments[..k][..k - 1] == segments[..k - 1];
      PowerForYields(ups[k - 1], Length(segments[k - 1]));
      PowerForYields(downs[k - 1], Length(segments[k - 1]));
    }
  }

  lemma {:induction false} SameBaseline(segments: seq<Segment>, limited: seq<Segment>, t: Time)
    requires |segments| == |limited|
    requires forall i :: 0 <= i < |segments| ==>
               limited[i].start == segments[i].start && limited[i].end == segments[i].end && limited[i].baseline == segments[i].baseline
    ensures EnergyUntil(segments, Of(Baseline), t) == EnergyUntil(limited, Of(Baseline), t)
  {
    if segments != [] {
      SameBaseline(segments[..|segments| - 1], limited[..|limited| - 1], t);
    }
  }

  /** What every run of the passes needs of its segments. */
  ghost predicate Ready(raw: seq<Segment>, envelope: Envelope) {
    && envelope.minEnergy <= envelope.initialEnergy <= envelope.maxEnergy
    && Ordered(raw) && Sane(raw) && AllPositive(raw)
    && EndEnergies(raw, envelope).Ok?
  }

  function LimitedOf(raw: seq<Segment>, envelope: Envelope): (limited: seq<Segment>)
    requires EndEnergies(raw, envelope).Ok? && AllPositive(raw)
    ensures |limited| == |raw|
  {
    Limited(raw, UpGrants(raw, envelope), DownGrants(raw, envelope))
  }

  lemma SlackGrows(i: nat, n: nat)
    requires i <= n
    ensures 0.0 <= Slack(i) <= Slack(n)
  {
  }

  /** After every segment, the grants so far fit what the forward pass left. */
  lemma GrantsFitEnds(raw: seq<Segment>, envelope: Envelope, i: nat)
    requires Ready(raw, envelope) && i < |raw|
    ensures var end := EndEnergies(raw, envelope).value[i];
            && SumOf(UpGrants(raw, envelope)[..i + 1]) <= end - envelope.minEnergy
            && SumOf(DownGrants(raw, envelope)[..i + 1]) <= envelope.maxEnergy - end
  {
    var ends := EndEnergies(raw, envelope).value;
    WantedNonnegative(raw);
    EndEnergiesAre(raw, envelope);
    GrantsFit(UpWanted(raw), UpHeadroom(ends, envelope), i, i);
    GrantsFit(DownWanted(raw), DownHeadroom(ends, envelope), i, i);
  }

  /** So using all the upward energy, or all the downward energy, is safe there. */
  lemma TotalsSafe(raw: seq<Segment>, envelope: Envelope, i: nat)
    requires Ready(raw, envelope) && i <= |raw|
    ensures var limited := LimitedOf(raw, envelope)[..i];
            && envelope.initialEnergy + Total(limited, Lowest) >= envelope.minEnergy - Slack(|raw|)
            && -envelope.initialEnergy + Total(limited, NegatedHighest) >= -envelope.maxEnergy - Slack(|raw|)
  {
    LowestTotal(LimitedOf(raw, envelope)[..i]);
    LimitedTotals(raw, UpGrants(raw, envelope), DownGrants(raw, envelope), i);
    SlackGrows(i, |raw|);
    if i > 0 {
      GrantsFitEnds(raw, envelope, i - 1);
      EndEnergyClose(raw, envelope, i - 1);
    }
  }

  /** Using all the upward energy, or all the downward energy, is safe at every moment. */
  lemma MomentsSafe(raw: seq<Segment>, envelope: Envelope, t: Time)
    requires Ready(raw, envelope)
    ensures var limited := LimitedOf(raw, envelope);
            var baseline := envelope.initialEnergy + EnergyUntil(raw, Of(Baseline), t);
            && baseline - EnergyUntil(limited, Of(Up), t) >= envelope.minEnergy - Slack(|raw|)
            && baseline + EnergyUntil(limited, Of(Down), t) <= envelope.maxEnergy + Slack(|raw|)
  {
    var limited := LimitedOf(raw, envelope);
    forall i | 0 <= i <= |limited|
      ensures envelope.initialEnergy + Total(limited[..i], Lowest) >= envelope.minEnergy - Slack(|raw|)
      ensures -envelope.initialEnergy + Total(limited[..i], NegatedHighest) >= -envelope.maxEnergy - Slack(|raw|)
    {
      TotalsSafe(raw, envelope, i);
    }
    LimitedOrdered(raw, envelope);
    AboveAtEveryMoment(limited, Lowest, envelope.initialEnergy, envelope.minEnergy - Slack(|raw|), t);
    AboveAtEveryMoment(limited, NegatedHighest, -envelope.initialEnergy, -envelope.maxEnergy - Slack(|raw|), t);
    LowestUntil(limited, t);
    SameBaseline(raw, limited, t);
  }

  lemma LimitedOrdered(raw: seq<Segment>, envelope: Envelope)
    requires Ready(raw, envelope)
    ensures Ordered(LimitedOf(raw, envelope))
  {
    var limited := LimitedOf(raw, envelope);
    assert forall i :: 0 <= i < |raw| ==> limited[i].start == raw[i].start && limited[i].end == raw[i].end;
  }

  // ----- Buckets

  /** Inside a bucket an overlapping segment passes exactly what they share; another passes nothing. */
  lemma SharedIsElapsed(s: Segment, from: Time, until: Time)
    requires s.start <= s.end && from <= until
    ensures if Overlaps(s, from, until) then 0 < Shared(s, from, until) == Elapsed(s, until) - Elapsed(s, from) || from == until || s.start == s.end
            else Elapsed(s, until) == Elapsed(s, from)
    ensures Elapsed(s, from) <= Elapsed(s, until)
  {
  }

  /** A bucket's energy is what passes between its ends. */
  lemma {:induction false} EnergyInIsDifference(segments: seq<Segment>, q: Quantity, from: Time, until: Time)
    requires Ordered(segments) && from < until
    ensures EnergyIn(Overlapping(segments, from, until), q, from, until)
         == EnergyUntil(segments, Of(q), until) - EnergyUntil(segments, Of(q), from)
  {
    if segments != [] {
      var init, last := segments[..|segments| - 1], segments[|segments| - 1];
      EnergyInIsDifference(init, q, from, until);
      var before := Overlapping(init, from, until);
      SharedIsElapsed(last, from, until);
      EnergyAdds(Watts(last, q), Elapsed(last, from), Elapsed(last, until) - Elapsed(last, from));
      if Overlaps(last, from, until) {
        assert (before + [last])[..|before|] == before;
      } else {
        assert before + [] == before;
      }
    }
  }

  ghost predicate NonnegativeWatts(segments: seq<Segment>, q: Quantity) {
    forall i :: 0 <= i < |segments| ==> Watts(segments[i], q) >= 0.0
  }

  lemma {:induction false} UntilMonotone(segments: seq<Segment>, q: Quantity, t: Time, u: Time)
    requires Ordered(segments) && NonnegativeWatts(segments, q) && t <= u
    ensures 0.0 <= EnergyUntil(segments, Of(q), t) <= EnergyUntil(segments, Of(q), u)
  {
    if segments != [] {
      var last := segments[|segments| - 1];
      UntilMonotone(segments[..|segments| - 1], q, t, u);
      EnergyMonotone(Watts(last, q), Elapsed(last, t), Elapsed(last, u));
      EnergyNonnegative(Watts(last, q), Elapsed(last, t));
    }
  }

  function OfferedEnergy(o: Offer, q: Quantity): real
    requires q != Baseline
  {
    if q == Up then o.upEnergy else o.downEnergy
  }

  function Offered(offers: seq<Offer>, q: Quantity): real
    requires q != Baseline
  {
    if offers == [] then 0.0 else Offered(offers[..|offers| - 1], q) + OfferedEnergy(offers[|offers| - 1], q)
  }

  lemma EdgeIs(first: Time, n: nat, resolution: int)
    ensures Edge(first, n, resolution) == first + n * resolution
  {
  }

  lemma OfferedAppend(before: seq<Offer>, o: Offer, q: Quantity)
    requires q != Baseline
    ensures Offered(before + [o], q) == Offered(before, q) + OfferedEnergy(o, q)
  {
    assert (before + [o])[..|before|] == before;
  }

  /** One more bucket adds at most what passes while it lasts. */
  lemma BucketOffered(
      segments: seq<Segment>, q: Quantity, from: Time, until: Time, source: Source, constraints: Constraints, before: seq<Offer>)
    requires from < until && constraints.validUntil.Some? && q != Baseline
    requires Ordered(segments) && NonnegativeWatts(segments, q)
    ensures Offered(before + Bucket(segments, from, until, source, constraints), q)
         <= Offered(before, q) + EnergyUntil(segments, Of(q), until) - EnergyUntil(segments, Of(q), from)
  {
    UntilMonotone(segments, q, from, until);
    if Emitted(segments, from, until) {
      EnergyInIsDifference(segments, q, from, until);
      OfferedAppend(before, BucketOffer(Overlapping(segments, from, until), from, until, source, constraints), q);
    } else {
      assert before + [] == before;
    }
  }

  /** The offers of the first n buckets promise no more than passes until the n-th ends. */
  lemma {:induction false} OfferedUntil(
      segments: seq<Segment>, q: Quantity, first: Time, n: nat, resolution: int, source: Source, constraints: Constraints)
    requires resolution > 0 && constraints.validUntil.Some? && q != Baseline
    requires Ordered(segments) && NonnegativeWatts(segments, q)
    ensures Offered(Buckets(segments, first, n, resolution, source, constraints), q)
         <= EnergyUntil(segments, Of(q), Edge(first, n, resolution))
  {
    if n == 0 {
      UntilMonotone(segments, q, first, first);
    } else {
      OfferedUntil(segments, q, first, n - 1, resolution, source, constraints);
      BucketOffered(segments, q, Edge(first, n - 1, resolution), Edge(first, n, resolution), source, constraints,
                    Buckets(segments, first, n - 1, resolution, source, constraints));
    }
  }

  /** The offer of a bucket that is emitted. */
  ghost predicate OffersBucket(
      o: Offer, segments: seq<Segment>, from: Time, until: Time, source: Source, constraints: Constraints) {
    && from < until && constraints.validUntil.Some?
    && Emitted(segments, from, until)
    && o == BucketOffer(Overlapping(segments, from, until), from, until, source, constraints)
  }

  lemma {:induction false} EdgeAfter(first: Time, n: nat, resolution: int)
    requires resolution > 0
    ensures first <= Edge(first, n, resolution)
  {
    if n > 0 {
      EdgeAfter(first, n - 1, resolution);
    }
  }

  /** The n-th bucket adds its own offer, if any. */
  lemma LastBucket(
      segments: seq<Segment>, first: Time, n: nat, resolution: int, source: Source, constraints: Constraints)
    requires resolution > 0 && constraints.validUntil.Some? && n > 0
    ensures var before, after := Buckets(segments, first, n - 1, resolution, source, constraints),
                                 Buckets(segments, first, n, resolution, source, constraints);
            && before <= after && |after| <= |before| + 1
            && (|after| == |before| + 1 ==>
                  OffersBucket(after[|before|], segments, Edge(first, n - 1, resolution), Edge(first, n, resolution),
                               source, constraints))
  {
  }

  /** An offer is that of its own interval, which is a bucket among the first n. */
  ghost predicate IsOfBucket(
      o: Offer, segments: seq<Segment>, first: Time, n: nat, resolution: int, source: Source, constraints: Constraints) {
    && OffersBucket(o, segments, o.start, o.end, source, constraints)
    && first <= o.start && o.end == o.start + resolution && o.end <= Edge(first, n, resolution)
  }

  lemma {:induction false} OfferIsOfBucket(
      segments: seq<Segment>, first: Time, n: nat, resolution: int, source: Source, constraints: Constraints, j: nat)
    requires resolution > 0 && constraints.validUntil.Some?
    requires j < |Buckets(segments, first, n, resolution, source, constraints)|
    ensures IsOfBucket(Buckets(segments, first, n, resolution, source, constraints)[j], segments, first, n, resolution,
                       source, constraints)
    decreases n
  {
    var before, after := Buckets(segments, first, n - 1, resolution, source, constraints),
                         Buckets(segments, first, n, resolution, source, constraints);
    LastBucket(segments, first, n, resolution, source, constraints);
    if j < |before| {
      OfferIsOfBucket(segments, first, n - 1, resolution, source, constraints, j);
      assert after[j] == before[j];
    } else {
      EdgeAfter(first, n - 1, resolution);
    }
  }

  /** Any first offers promise no more than passes until the last of them ends. */
  ghost predicate PromisesKept(offers: seq<Offer>, segments: seq<Segment>, q: Quantity)
    requires q != Baseline
  {
    forall k :: 0 < k <= |offers| ==> Offered(offers[..k], q) <= EnergyUntil(segments, Of(q), offers[k - 1].end)
  }

  lemma PromisesGrow(before: seq<Offer>, part: seq<Offer>, segments: seq<Segment>, q: Quantity)
    requires q != Baseline && PromisesKept(before, segments, q) && |part| <= 1
    requires part != [] ==> Offered(before + part, q) <= EnergyUntil(segments, Of(q), part[0].end)
    ensures PromisesKept(before + part, segments, q)
  {
    var after := before + part;
    forall k | 0 < k <= |after|
      ensures Offered(after[..k], q) <= EnergyUntil(segments, Of(q), after[k - 1].end)
    {
      if k <= |before| {
        assert after[..k] == before[..k] && after[k - 1] == before[k - 1];
      } else {
        assert after[..k] == after;
      }
    }
  }

  lemma BucketIs(segments: seq<Segment>, from: Time, until: Time, source: Source, constraints: Constraints)
    requires from < until && constraints.validUntil.Some?
    ensures |Bucket(segments, from, until, source, constraints)| <= 1
    ensures Bucket(segments, from, until, source, constraints) != [] ==>
              Bucket(segments, from, until, source, constraints)[0].end == until
  {
  }

  lemma {:induction false} BucketsKeepPromises(
      segments: seq<Segment>, q: Quantity, first: Time, n: nat, resolution: int, source: Source, constraints: Constraints)
    requires resolution > 0 && constraints.validUntil.Some? && q != Baseline
    requires Ordered(segments) && NonnegativeWatts(segments, q)
    ensures PromisesKept(Buckets(segments, first, n, resolution, source, constraints), segments, q)
  {
    if n > 0 {
      var from, until := Edge(first, n - 1, resolution), Edge(first, n, resolution);
      BucketsKeepPromises(segments, q, first, n - 1, resolution, source, constraints);
      OfferedUntil(segments, q, first, n, resolution, source, constraints);
      BucketIs(segments, from, until, source, constraints);
      PromisesGrow(Buckets(segments, first, n - 1, resolution, source, constraints),
                   Bucket(segments, from, until, source, constraints), segments, q);
    }
  }
}
