/** That the normaliser offers all it can: which buckets are offered, and that no more power could be
    offered in any of them (src/der_flex/adapters/s2/pebc.py:159-202 and 265-332). */
module PebcMaximal {
  import opened Domain
  import opened Pebc
  import opened PebcEnergy
  import opened PebcResampling
  import opened PebcGuarantees

  type Offer = Domain.Offer

  // ----- Kept segments

  /** A power the baseline can be lowered, or raised, by within the band and the ramp. */
  predicate FitsDown(s: Segment, band: Band, c: real) {
    0.0 <= c <= band.ramp && band.low <= s.baseline - c
  }

  predicate FitsUp(s: Segment, band: Band, c: real) {
    0.0 <= c <= band.ramp && s.baseline + c <= band.high
  }

  ghost predicate TakesAll(s: Segment, band: Band) {
    && FitsDown(s, band, s.up) && (forall c :: FitsDown(s, band, c) ==> c <= s.up)
    && FitsUp(s, band, s.down) && (forall c :: FitsUp(s, band, c) ==> c <= s.down)
  }

  /** A kept segment may be moved by exactly what the band and the ramp allow, in both directions. */
  lemma {:induction false} KeptTakeAll(start: Time, elements: seq<Element>, horizon: Horizon, band: Band, i: nat)
    requires band.ramp >= 0.0 && KeptSegments(start, elements, horizon, band).Ok?
    requires i < |KeptSegments(start, elements, horizon, band).value|
    ensures TakesAll(KeptSegments(start, elements, horizon, band).value[i], band)
  {
    var init := elements[..|elements| - 1];
    if i < |KeptSegments(start, init, horizon, band).value| {
      KeptTakeAll(start, init, horizon, band, i);
    }
  }

  ghost predicate IsOfElement(s: Segment, start: Time, elements: seq<Element>, horizon: Horizon, j: nat) {
    && j < |elements|
    && Kept(elements[j], CursorAfter(start, elements[..j]), horizon)
    && s.start == CursorAfter(start, elements[..j]) && s.end == s.start + Micros(elements[j])
    && s.baseline == Supported(elements[j].values)[0].expected
    && s.confidence == Pebc.Confidence(Supported(elements[j].values)[0])
  }

  /** The segments are those of the elements with one supported value inside the horizon, one each. */
  lemma {:induction false} KeptExactly(start: Time, elements: seq<Element>, horizon: Horizon, band: Band)
      returns (p: seq<nat>)
    requires KeptSegments(start, elements, horizon, band).Ok?
    ensures var segments := KeptSegments(start, elements, horizon, band).value;
            && |p| == |segments|
            && (forall i :: 0 <= i < |p| ==> IsOfElement(segments[i], start, elements, horizon, p[i]))
            && (forall i, j :: 0 <= i < j < |p| ==> p[i] < p[j])
            && (forall j :: 0 <= j < |elements| && Kept(elements[j], CursorAfter(start, elements[..j]), horizon) ==> j in p)
  {
    p := [];
    if elements != [] {
      var n := |elements| - 1;
      var init := elements[..n];
      p := KeptExactly(start, init, horizon, band);
      ElementsStay(start, elements, horizon, KeptSegments(start, init, horizon, band).value, p);
      if Kept(elements[n], CursorAfter(start, init), horizon) {
        var longer := p + [n];
        assert longer[|p|] == n;
        forall j | 0 <= j <= n && Kept(elements[j], CursorAfter(start, elements[..j]), horizon)
          ensures j in longer
        {
          if j < n {
            assert j in p;
          }
        }
        p := longer;
      }
    }
  }

  lemma ElementsStay(start: Time, elements: seq<Element>, horizon: Horizon, segments: seq<Segment>, p: seq<nat>)
    requires elements != [] && |p| == |segments|
    requires var init := elements[..|elements| - 1];
             && (forall i :: 0 <= i < |p| ==> IsOfElement(segments[i], start, init, horizon, p[i]))
             && (forall j :: 0 <= j < |init| && Kept(init[j], CursorAfter(start, init[..j]), horizon) ==> j in p)
    ensures forall i :: 0 <= i < |p| ==> IsOfElement(segments[i], start, elements, horizon, p[i])
    ensures forall j :: 0 <= j < |elements| - 1 && Kept(elements[j], CursorAfter(start, elements[..j]), horizon) ==> j in p
  {
    var init := elements[..|elements| - 1];
    forall j | 0 <= j < |init|
      ensures init[..j] == elements[..j] && init[j] == elements[j]
    {
    }
    forall i | 0 <= i < |p|
      ensures IsOfElement(segments[i], start, elements, horizon, p[i])
    {
      assert IsOfElement(segments[i], start, init, horizon, p[i]);
      assert init[..p[i]] == elements[..p[i]];
    }
    forall j | 0 <= j < |init| && Kept(elements[j], CursorAfter(start, elements[..j]), horizon)
      ensures j in p
    {
      assert Kept(init[j], CursorAfter(start, init[..j]), horizon);
    }
  }

  // ----- One bucket

  /** Every overlapped segment can sustain this power. */
  ghost predicate Sustained(segments: seq<Segment>, q: Quantity, from: Time, until: Time, watts: real) {
    forall i :: 0 <= i < |segments| && Overlaps(segments[i], from, until) ==> watts <= Watts(segments[i], q)
  }

  ghost predicate Trusted(segments: seq<Segment>, from: Time, until: Time, c: real) {
    forall i :: 0 <= i < |segments| && Overlaps(segments[i], from, until) ==> c <= segments[i].confidence
  }

  lemma {:induction false} OverlappingHas(segments: seq<Segment>, from: Time, until: Time, s: Segment)
    ensures s in Overlapping(segments, from, until) <==> s in segments && Overlaps(s, from, until)
  {
    if segments != [] {
      assert segments == segments[..|segments| - 1] + [segments[|segments| - 1]];
      OverlappingHas(segments[..|segments| - 1], from, until, s);
    }
  }

  lemma {:induction false} LeastWattsIsGreatest(overlaps: seq<Segment>, q: Quantity, c: real)
    requires overlaps != []
    ensures c <= LeastWatts(overlaps, q) <==> forall s :: s in overlaps ==> c <= Watts(s, q)
  {
    var init, last := overlaps[..|overlaps| - 1], overlaps[|overlaps| - 1];
    assert overlaps == init + [last];
    if init != [] {
      LeastWattsIsGreatest(init, q, c);
    }
  }

  lemma {:induction false} LeastConfidenceIsGreatest(overlaps: seq<Segment>, c: real)
    requires overlaps != []
    ensures c <= Pebc.LeastConfidence(overlaps) <==> forall s :: s in overlaps ==> c <= s.confidence
  {
    var init, last := overlaps[..|overlaps| - 1], overlaps[|overlaps| - 1];
    assert overlaps == init + [last];
    if init != [] {
      LeastConfidenceIsGreatest(init, c);
    }
  }

  lemma SustainedIs(segments: seq<Segment>, q: Quantity, from: Time, until: Time, c: real)
    ensures Sustained(segments, q, from, until, c) <==>
              forall s :: s in Overlapping(segments, from, until) ==> c <= Watts(s, q)
  {
    forall s
      ensures s in Overlapping(segments, from, until) <==> s in segments && Overlaps(s, from, until)
    {
      OverlappingHas(segments, from, until, s);
    }
    forall i | 0 <= i < |segments| && Overlaps(segments[i], from, until)
      ensures segments[i] in Overlapping(segments, from, until)
    {
      assert segments[i] in segments;
    }
  }

  lemma TrustedIs(segments: seq<Segment>, from: Time, until: Time, c: real)
    ensures Trusted(segments, from, until, c) <==>
              forall s :: s in Overlapping(segments, from, until) ==> c <= s.confidence
  {
    forall s
      ensures s in Overlapping(segments, from, until) <==> s in segments && Overlaps(s, from, until)
    {
      OverlappingHas(segments, from, until, s);
    }
    forall i | 0 <= i < |segments| && Overlaps(segments[i], from, until)
      ensures segments[i] in Overlapping(segments, from, until)
    {
      assert segments[i] in segments;
    }
  }

  /** An offer's capacities and confidence are the greatest that every overlapped segment sustains. */
  lemma BucketTakesAll(
      o: Offer, segments: seq<Segment>, from: Time, until: Time, source: Source, constraints: Constraints, c: real)
    requires OffersBucket(o, segments, from, until, source, constraints)
    ensures c <= o.up * 1000.0 <==> Sustained(segments, Up, from, until, c)
    ensures c <= o.down * 1000.0 <==> Sustained(segments, Down, from, until, c)
    ensures c <= o.confidence <==> Trusted(segments, from, until, c)
  {
    var overlaps := Overlapping(segments, from, until);
    SustainedIs(segments, Up, from, until, c);
    SustainedIs(segments, Down, from, until, c);
    TrustedIs(segments, from, until, c);
    LeastWattsIsGreatest(overlaps, Up, c);
    LeastWattsIsGreatest(overlaps, Down, c);
    LeastConfidenceIsGreatest(overlaps, c);
    assert o.up * 1000.0 == LeastWatts(overlaps, Up) && o.down * 1000.0 == LeastWatts(overlaps, Down);
  }

  lemma WorkIsEnergy(watts: real, micros: int)
    ensures Energy(watts, micros) == Work(watts, micros) / 1000.0 / MICROS_PER_HOUR
  {
  }

  lemma {:induction false} WeightedIsEnergy(overlaps: seq<Segment>, q: Quantity, from: Time, until: Time)
    ensures EnergyIn(overlaps, q, from, until) == Weighted(overlaps, q, from, until) / 1000.0 / MICROS_PER_HOUR
  {
    if overlaps != [] {
      var last := overlaps[|overlaps| - 1];
      WeightedIsEnergy(overlaps[..|overlaps| - 1], q, from, until);
      WorkIsEnergy(Watts(last, q), Shared(last, from, until));
    }
  }

  lemma MeanEnergy(work: real, micros: int)
    requires micros > 0
    ensures Energy(work / micros as real, micros) == work / 1000.0 / MICROS_PER_HOUR
  {
    var mean := work / micros as real;
    assert mean * micros as real == work;
    WorkIsEnergy(mean, micros);
  }

  /** An offer's energies, and that of its mean baseline, are what the segments pass between its ends. */
  ghost predicate Passes(o: Offer, segments: seq<Segment>) {
    && o.upEnergy == EnergyUntil(segments, Of(Up), o.end) - EnergyUntil(segments, Of(Up), o.start)
    && o.downEnergy == EnergyUntil(segments, Of(Down), o.end) - EnergyUntil(segments, Of(Down), o.start)
    && Energy(o.baseline * 1000.0, o.end - o.start)
    == EnergyUntil(segments, Of(Baseline), o.end) - EnergyUntil(segments, Of(Baseline), o.start)
  }

  lemma BucketPasses(o: Offer, segments: seq<Segment>, from: Time, until: Time, source: Source, constraints: Constraints)
    requires OffersBucket(o, segments, from, until, source, constraints) && Ordered(segments)
    ensures Passes(o, segments)
  {
    var overlaps := Overlapping(segments, from, until);
    EnergyInIsDifference(segments, Up, from, until);
    EnergyInIsDifference(segments, Down, from, until);
    EnergyInIsDifference(segments, Baseline, from, until);
    WeightedIsEnergy(overlaps, Baseline, from, until);
    MeanEnergy(Weighted(overlaps, Baseline, from, until), until - from);
    assert o.baseline * 1000.0 == Weighted(overlaps, Baseline, from, until) / (until - from) as real;
  }

  // ----- Which buckets are offered

  lemma {:induction false} EmittedIsOffered(
      segments: seq<Segment>, first: Time, n: nat, resolution: int, source: Source, constraints: Constraints, m: nat)
      returns (k: nat)
    requires resolution > 0 && constraints.validUntil.Some? && m < n
    requires Emitted(segments, Edge(first, m, resolution), Edge(first, m, resolution) + resolution)
    ensures k < |Buckets(segments, first, n, resolution, source, constraints)|
    ensures Buckets(segments, first, n, resolution, source, constraints)[k].start == Edge(first, m, resolution)
    decreases n
  {
    if m == n - 1 {
      k := |Buckets(segments, first, n - 1, resolution, source, constraints)|;
    } else {
      k := EmittedIsOffered(segments, first, n - 1, resolution, source, constraints, m);
    }
  }

  /** The times at which a bucket may start: the multiples of the resolution that leave it inside. */
  predicate Fits(t: Time, resolution: int, start: Time, final: Time)
    requires resolution > 0
  {
    t % resolution == 0 && start <= t && t + resolution <= final
  }

  lemma Divides(a: int, resolution: int) returns (n: int)
    requires resolution > 0 && a % resolution == 0
    ensures a == n * resolution
  {
    n := a / resolution;
  }

  lemma AlignedUpIs(start: Time, resolution: int)
    requires resolution > 0
    ensures AlignedUp(start, resolution) % resolution == 0
    ensures start <= AlignedUp(start, resolution) < start + resolution
  {
    var n := -start / resolution;
    assert n * resolution <= -start < n * resolution + resolution;
    assert -n * resolution == -(n * resolution);
    MultipleOf(-n, resolution);
  }

  lemma InOrder(a: int, b: int, resolution: int)
    requires resolution > 0
    ensures a <= b ==> a * resolution <= b * resolution
  {
  }

  lemma Sum(a: int, b: int, resolution: int)
    ensures (a + b) * resolution == a * resolution + b * resolution
    ensures (a - b) * resolution == a * resolution - b * resolution
  {
  }

  lemma MultipleOf(n: int, resolution: int)
    requires resolution > 0
    ensures n * resolution % resolution == 0
  {
    var q, r := n * resolution / resolution, n * resolution % resolution;
    assert q * resolution + r == n * resolution;
    Sum(n, q, resolution);
    InOrder(1, n - q, resolution);
    InOrder(n - q, -1, resolution);
  }

  /** Such a time is the start of one of the buckets that are counted, and the other way round. */
  lemma StartsCounted(t: Time, resolution: int, start: Time, final: Time) returns (n: nat)
    requires resolution > 0 && Fits(t, resolution, start, final)
    ensures n < BucketCount(AlignedUp(start, resolution), final, resolution)
    ensures Edge(AlignedUp(start, resolution), n, resolution) == t
  {
    var first := AlignedUp(start, resolution);
    AlignedUpIs(start, resolution);
    var a := Divides(t, resolution);
    var b := Divides(first, resolution);
    Sum(a, b, resolution);
    InOrder(a - b, -1, resolution);
    n := a - b;
    EdgeIs(first, n, resolution);
    CountExceeds(final - first, n, resolution);
  }

  lemma CountExceeds(span: int, n: nat, resolution: int)
    requires resolution > 0 && n * resolution + resolution <= span
    ensures n < span / resolution
  {
    var q := span / resolution;
    assert span < q * resolution + resolution;
    InOrder(q, n, resolution);
  }

  lemma CountFits(n: nat, resolution: int, first: Time, final: Time)
    requires resolution > 0 && n < BucketCount(first, final, resolution)
    ensures first + n * resolution + resolution <= final
  {
    var q := (final - first) / resolution;
    assert q * resolution <= final - first;
    InOrder(n + 1, q, resolution);
    Sum(n, 1, resolution);
  }

  lemma CountedStarts(n: nat, resolution: int, start: Time, first: Time, final: Time)
    requires resolution > 0 && first == AlignedUp(start, resolution) && n < BucketCount(first, final, resolution)
    ensures Fits(Edge(first, n, resolution), resolution, start, final)
  {
    AlignedUpIs(start, resolution);
    EdgeIs(first, n, resolution);
    EdgeAfter(first, n, resolution);
    CountFits(n, resolution, first, final);
    EdgeAligned(first, n, resolution);
  }

  lemma EdgeAligned(first: Time, n: nat, resolution: int)
    requires resolution > 0 && first % resolution == 0
    ensures Edge(first, n, resolution) % resolution == 0
  {
    var b := Divides(first, resolution);
    EdgeIs(first, n, resolution);
    Sum(b, n, resolution);
    MultipleOf(b + n, resolution);
  }

  lemma {:induction false} OfferStarts(
      segments: seq<Segment>, first: Time, n: nat, resolution: int, source: Source, constraints: Constraints, k: nat)
      returns (m: nat)
    requires resolution > 0 && constraints.validUntil.Some?
    requires k < |Buckets(segments, first, n, resolution, source, constraints)|
    ensures m < n && Buckets(segments, first, n, resolution, source, constraints)[k].start == Edge(first, m, resolution)
    decreases n
  {
    LastBucket(segments, first, n, resolution, source, constraints);
    if k < |Buckets(segments, first, n - 1, resolution, source, constraints)| {
      m := OfferStarts(segments, first, n - 1, resolution, source, constraints, k);
    } else {
      m := n - 1;
    }
  }

  predicate OffersFrom(offers: seq<Offer>, t: Time) {
    exists k :: 0 <= k < |offers| && offers[k].start == t
  }

  /** Offered exactly are the buckets between the first segment and the end that are covered closely. */
  lemma ResampledExactly(
      segments: seq<Segment>, resolution: int, source: Source, constraints: Constraints, t: Time)
    requires segments != [] && resolution > 0 && constraints.validUntil.Some?
    ensures var offers := Resampled(segments, resolution, source, constraints);
            var final := Earlier(segments[|segments| - 1].end, constraints.validUntil.value);
            OffersFrom(offers, t) <==> Fits(t, resolution, segments[0].start, final) && Emitted(segments, t, t + resolution)
  {
    var offers := Resampled(segments, resolution, source, constraints);
    var final := Earlier(segments[|segments| - 1].end, constraints.validUntil.value);
    var first := AlignedUp(segments[0].start, resolution);
    var n := BucketCount(first, final, resolution);
    if Fits(t, resolution, segments[0].start, final) && Emitted(segments, t, t + resolution) {
      var m := StartsCounted(t, resolution, segments[0].start, final);
      var k := EmittedIsOffered(segments, first, n, resolution, source, constraints, m);
    }
    if k :| 0 <= k < |offers| && offers[k].start == t {
      var m := OfferStarts(segments, first, n, resolution, source, constraints, k);
      OfferIsOfBucket(segments, first, n, resolution, source, constraints, k);
      CountedStarts(m, resolution, segments[0].start, first, final);
    }
  }

  // ----- Of everything the normaliser returns

  lemma OfferedBucket(
      source: Source, envelope: Envelope, constraints: Constraints, forecast: Forecast, settings: Settings,
      offers: seq<Offer>, k: nat) returns (raw: seq<Segment>)
    requires Normalized(source, envelope, constraints, forecast, settings) == Ok(offers) && k < |offers|
    ensures HasLimits(constraints) && RawSegments(envelope, constraints, forecast, settings) == Ok(raw)
    ensures Ready(raw, envelope) && Ordered(LimitedOf(raw, envelope))
    ensures OffersBucket(offers[k], LimitedOf(raw, envelope), offers[k].start, offers[k].end, source, constraints)
    ensures offers[k].end == offers[k].start + settings.resolution
  {
    raw := NormalizedPassed(source, envelope, constraints, forecast, settings, offers);
    OfferIsBucket(raw, envelope, settings.resolution, source, constraints, k);
    LimitedOrdered(raw, envelope);
  }

  /** Of every offer: a power is within its capacity exactly if every limited segment it overlaps can
      sustain it, and so is its confidence. */
  lemma OfferTakesAll(
      source: Source, envelope: Envelope, constraints: Constraints, forecast: Forecast, settings: Settings,
      offers: seq<Offer>, k: nat, c: real)
    requires Normalized(source, envelope, constraints, forecast, settings) == Ok(offers) && k < |offers|
    ensures HasLimits(constraints) && RawSegments(envelope, constraints, forecast, settings).Ok?
    ensures Ready(RawSegments(envelope, constraints, forecast, settings).value, envelope)
    ensures var limited, o := LimitedOf(RawSegments(envelope, constraints, forecast, settings).value, envelope), offers[k];
            && (c <= o.up * 1000.0 <==> Sustained(limited, Up, o.start, o.end, c))
            && (c <= o.down * 1000.0 <==> Sustained(limited, Down, o.start, o.end, c))
            && (c <= o.confidence <==> Trusted(limited, o.start, o.end, c))
  {
    var raw := OfferedBucket(source, envelope, constraints, forecast, settings, offers, k);
    BucketTakesAll(offers[k], LimitedOf(raw, envelope), offers[k].start, offers[k].end, source, constraints, c);
  }

  /** Its energies, and that of its mean baseline, are what those segments pass between its ends. */
  lemma OfferPasses(
      source: Source, envelope: Envelope, constraints: Constraints, forecast: Forecast, settings: Settings,
      offers: seq<Offer>, k: nat)
    requires Normalized(source, envelope, constraints, forecast, settings) == Ok(offers) && k < |offers|
    ensures HasLimits(constraints) && RawSegments(envelope, constraints, forecast, settings).Ok?
    ensures Ready(RawSegments(envelope, constraints, forecast, settings).value, envelope)
    ensures Passes(offers[k], LimitedOf(RawSegments(envelope, constraints, forecast, settings).value, envelope))
  {
    var raw := OfferedBucket(source, envelope, constraints, forecast, settings, offers, k);
    BucketPasses(offers[k], LimitedOf(raw, envelope), offers[k].start, offers[k].end, source, constraints);
  }

  /** And every segment it is drawn from may be moved by all the band and the ramp allow. */
  lemma SegmentsTakeAll(
      source: Source, envelope: Envelope, constraints: Constraints, forecast: Forecast, settings: Settings,
      offers: seq<Offer>, i: nat)
    requires Normalized(source, envelope, constraints, forecast, settings) == Ok(offers) && offers != []
    requires HasLimits(constraints) && RawSegments(envelope, constraints, forecast, settings).Ok?
    requires i < |RawSegments(envelope, constraints, forecast, settings).value|
    ensures TakesAll(RawSegments(envelope, constraints, forecast, settings).value[i], BandOf(constraints.ranges, envelope, settings))
  {
    var raw := NormalizedChecked(source, envelope, constraints, forecast, settings, offers);
    RampNonnegative(constraints.ranges, envelope, settings);
    KeptTakeAll(forecast.start, forecast.elements, Horizon(constraints.validFrom, constraints.validUntil.value),
                BandOf(constraints.ranges, envelope, settings), i);
  }

  /** A bucket that the normaliser should offer: at a multiple of the resolution, between the first
      segment and the end, and closely covered by the limited segments. */
  ghost predicate ShouldOffer(raw: seq<Segment>, envelope: Envelope, constraints: Constraints, resolution: int, t: Time)
    requires Ready(raw, envelope) && raw != [] && resolution > 0 && constraints.validUntil.Some?
  {
    && Fits(t, resolution, raw[0].start, Earlier(raw[|raw| - 1].end, constraints.validUntil.value))
    && Emitted(LimitedOf(raw, envelope), t, t + resolution)
  }

  lemma ResampledOffers(
      raw: seq<Segment>, envelope: Envelope, source: Source, constraints: Constraints, resolution: int,
      offers: seq<Offer>, t: Time)
    requires Ready(raw, envelope) && raw != [] && resolution > 0 && constraints.validUntil.Some?
    requires offers == Resampled(LimitedOf(raw, envelope), resolution, source, constraints)
    ensures OffersFrom(offers, t) <==> ShouldOffer(raw, envelope, constraints, resolution, t)
  {
    LimitedSpan(raw, envelope);
    ResampledExactly(LimitedOf(raw, envelope), resolution, source, constraints, t);
  }

  /** Those are exactly the buckets that are offered. */
  lemma OffersExactly(
      source: Source, envelope: Envelope, constraints: Constraints, forecast: Forecast, settings: Settings,
      offers: seq<Offer>, t: Time) returns (raw: seq<Segment>)
    requires Normalized(source, envelope, constraints, forecast, settings) == Ok(offers)
    requires offers != [] || HasSegments(envelope, constraints, forecast, settings)
    ensures HasLimits(constraints) && RawSegments(envelope, constraints, forecast, settings) == Ok(raw)
    ensures Ready(raw, envelope) && raw != [] && settings.resolution > 0
    ensures OffersFrom(offers, t) <==> ShouldOffer(raw, envelope, constraints, settings.resolution, t)
  {
    raw := NormalizedResampled(source, envelope, constraints, forecast, settings, offers);
    ResampledOffers(raw, envelope, source, constraints, settings.resolution, offers, t);
  }

  lemma NormalizedResampled(
      source: Source, envelope: Envelope, constraints: Constraints, forecast: Forecast, settings: Settings, offers: seq<Offer>)
      returns (raw: seq<Segment>)
    requires Normalized(source, envelope, constraints, forecast, settings) == Ok(offers)
    requires offers != [] || HasSegments(envelope, constraints, forecast, settings)
    ensures HasLimits(constraints) && RawSegments(envelope, constraints, forecast, settings) == Ok(raw)
    ensures Ready(raw, envelope) && raw != [] && settings.resolution > 0
    ensures offers == Resampled(LimitedOf(raw, envelope), settings.resolution, source, constraints)
  {
    raw := NormalizedPassed(source, envelope, constraints, forecast, settings, offers);
  }

  lemma LimitedSpan(raw: seq<Segment>, envelope: Envelope)
    requires Ready(raw, envelope) && raw != []
    ensures var limited := LimitedOf(raw, envelope);
            limited[0].start == raw[0].start && limited[|raw| - 1].end == raw[|raw| - 1].end
  {
  }

  predicate NamesSource(o: Offer, source: Source, constraints: Constraints) {
    && o.tenant == "development" && o.resource == source.resource && o.zone == source.zone
    && o.epoch == source.epoch && o.sequence == source.sequence && o.observedAt == source.observedAt
    && o.consequence == constraints.consequence && o.sourceVersion == constraints.id
    && constraints.validUntil == Some(o.expiresAt)
  }

  lemma OffersNameSource(
      source: Source, envelope: Envelope, constraints: Constraints, forecast: Forecast, settings: Settings,
      offers: seq<Offer>, k: nat)
    requires Normalized(source, envelope, constraints, forecast, settings) == Ok(offers) && k < |offers|
    ensures NamesSource(offers[k], source, constraints)
  {
    var raw := NormalizedPassed(source, envelope, constraints, forecast, settings, offers);
    OfferIsBucket(raw, envelope, settings.resolution, source, constraints, k);
  }

  // ----- Refusals

  /** Which source, clocks and envelope are accepted, and what each refusal says. */
  lemma ChecksExactly(source: Source, envelope: Envelope, settings: Settings)
    ensures var refused := CheckSource(source, envelope, settings);
            && (refused.None? <==>
                  && settings.maximumAge >= 0 && settings.maximumSkew >= 0
                  && source.receivedAt - settings.maximumAge <= source.observedAt <= source.receivedAt + settings.maximumSkew
                  && envelope.minPower <= envelope.maxPower
                  && envelope.minEnergy <= envelope.initialEnergy <= envelope.maxEnergy
                  && envelope.rampRate >= 0.0 && settings.responseTime > 0)
            && (refused == Some(ObservationTooOld) ==> source.receivedAt - source.observedAt > settings.maximumAge)
            && (refused == Some(ObservationInFuture) ==> source.observedAt - source.receivedAt > settings.maximumSkew)
            && (refused == Some(BadPowerEnvelope) ==> envelope.maxPower < envelope.minPower)
  {
  }

  /** The forward pass refuses exactly if the baseline leaves the envelope by more than the tolerance
      in some segment, starting from the clamped energy before it. */
  lemma {:induction false} ForwardRefusesExactly(segments: seq<Segment>, envelope: Envelope)
    requires envelope.minEnergy <= envelope.initialEnergy <= envelope.maxEnergy
    ensures EndEnergies(segments, envelope).Err? <==> exists i :: LeavesAt(segments, envelope, i)
    ensures EndEnergies(segments, envelope).Err? ==> EndEnergies(segments, envelope).error == BaselineOutsideEnergy
  {
    if segments != [] {
      var n := |segments| - 1;
      ForwardRefusesExactly(segments[..n], envelope);
      forall i | 0 <= i < n
        ensures LeavesAt(segments[..n], envelope, i) <==> LeavesAt(segments, envelope, i)
      {
        assert segments[..n][..i] == segments[..i];
      }
      assert LeavesAt(segments, envelope, n) <==> EndEnergies(segments[..n], envelope).Ok? && EndEnergies(segments, envelope).Err?;
      if i :| LeavesAt(segments[..n], envelope, i) {
        assert LeavesAt(segments, envelope, i);
      }
    }
  }

  ghost predicate LeavesAt(segments: seq<Segment>, envelope: Envelope, i: int) {
    && 0 <= i < |segments| && EndEnergies(segments[..i], envelope).Ok?
    && var before := EndEnergies(segments[..i], envelope).value;
       var energy := (if i == 0 then envelope.initialEnergy else before[i - 1]) + Energy(segments[i].baseline, Length(segments[i]));
       energy < envelope.minEnergy - ENERGY_TOLERANCE || energy > envelope.maxEnergy + ENERGY_TOLERANCE
  }
}
