/** What the PEBC normaliser computes (src/der_flex/adapters/s2/pebc.py): offers within the
    provisioned power, energy and ramp envelopes. Power is in watts, energy in kilowatt-hours,
    both exact; time is in microseconds, forecast durations in milliseconds. Positive power
    stores energy, so an upward offer lowers the stored energy. Messages are already parsed,
    all numbers finite, and the resource found in the registry. */
module Pebc {
  import opened Domain

  type Offer = Domain.Offer

  /** The provisioned envelope of a resource. */
  datatype Envelope = Envelope(
    minPower: real, maxPower: real, minEnergy: real, maxEnergy: real, initialEnergy: real, rampRate: real)

  /** One allowed range; only ranges for the supported quantity and normal conditions count. */
  datatype LimitRange = LimitRange(supported: bool, upper: bool, abnormal: bool, start: real, end: real)

  datatype Constraints = Constraints(
    id: string, validFrom: Time, validUntil: Option<Time>, consequence: Consequence, ranges: seq<LimitRange>)

  datatype PowerValue = PowerValue(supported: bool, expected: real, lower: Option<real>, upper: Option<real>)

  datatype Element = Element(milliseconds: nat, values: seq<PowerValue>)

  datatype Forecast = Forecast(start: Time, elements: seq<Element>)

  datatype Source = Source(resource: string, zone: string, epoch: nat, sequence: nat, observedAt: Time, receivedAt: Time)

  datatype Settings = Settings(resolution: int, responseTime: int, maximumAge: int, maximumSkew: int)

  const DEFAULT_SETTINGS := Settings(900_000_000, 60_000_000, 900_000_000, 120_000_000)

  datatype Segment = Segment(start: Time, end: Time, baseline: real, up: real, down: real, confidence: real)

  datatype Error =
    | NegativeTolerance
    | ObservationTooOld
    | ObservationInFuture
    | BadPowerEnvelope
    | BadEnergyEnvelope
    | BadRampEnvelope
    | HorizonTooLong
    | NoOverlap
    | BadResolution
    | BaselineOutsidePower
    | BaselineOutsideEnergy
    | DivisionByZero

  datatype Result<+T> = Ok(value: T) | Err(error: Error)

  const DAY: int := 86_400_000_000
  const ENERGY_TOLERANCE: real := 0.000000001

  function Earlier(a: Time, b: Time): Time {
    if b < a then b else a
  }

  function Later(a: Time, b: Time): Time {
    if a < b then b else a
  }

  /** The energy of a power over a time. */
  function Energy(watts: real, micros: int): real {
    watts / 1000.0 * (micros as real / MICROS_PER_HOUR)
  }

  function Length(s: Segment): int {
    s.end - s.start
  }

  // ----- Checks before anything is parsed

  function CheckSource(source: Source, envelope: Envelope, settings: Settings): Option<Error> {
    if settings.maximumAge < 0 || settings.maximumSkew < 0 then Some(NegativeTolerance)
    else if source.observedAt < source.receivedAt - settings.maximumAge then Some(ObservationTooOld)
    else if source.observedAt > source.receivedAt + settings.maximumSkew then Some(ObservationInFuture)
    else if envelope.minPower > envelope.maxPower then Some(BadPowerEnvelope)
    else if !(envelope.minEnergy <= envelope.initialEnergy <= envelope.maxEnergy) then Some(BadEnergyEnvelope)
    else if envelope.rampRate < 0.0 || settings.responseTime <= 0 then Some(BadRampEnvelope)
    else None
  }

  // ----- The power band

  function Limits(ranges: seq<LimitRange>, upper: bool): seq<LimitRange> {
    if ranges == [] then []
    else
      var last := ranges[|ranges| - 1];
      Limits(ranges[..|ranges| - 1], upper) + (if last.supported && last.upper == upper && !last.abnormal then [last] else [])
  }

  function LeastStart(ranges: seq<LimitRange>): real
    requires ranges != []
  {
    var last := ranges[|ranges| - 1].start;
    if |ranges| == 1 then last else Min(LeastStart(ranges[..|ranges| - 1]), last)
  }

  function GreatestEnd(ranges: seq<LimitRange>): real
    requires ranges != []
  {
    var last := ranges[|ranges| - 1].end;
    if |ranges| == 1 then last else Max(GreatestEnd(ranges[..|ranges| - 1]), last)
  }

  /** The watts a baseline may have, and the most it may be moved by in the response time. */
  datatype Band = Band(low: real, high: real, ramp: real)

  function BandOf(ranges: seq<LimitRange>, envelope: Envelope, settings: Settings): Band
    requires Limits(ranges, true) != [] && Limits(ranges, false) != []
  {
    Band(
      Max(LeastStart(Limits(ranges, true)), envelope.minPower * 1000.0),
      Min(GreatestEnd(Limits(ranges, false)), envelope.maxPower * 1000.0),
      envelope.rampRate * (settings.responseTime as real / 60_000_000.0) * 1000.0)
  }

  // ----- Segments kept from the forecast

  function Supported(values: seq<PowerValue>): seq<PowerValue> {
    if values == [] then []
    else
      var last := values[|values| - 1];
      Supported(values[..|values| - 1]) + (if last.supported then [last] else [])
  }

  function Confidence(value: PowerValue): (c: real)
    ensures 0.0 <= c <= 1.0
  {
    if value.lower.None? || value.upper.None? then 0.5
    else
      var magnitude := if value.expected < 0.0 then -value.expected else value.expected;
      var scale := Max(magnitude * 2.0, 1000.0);
      Max(0.0, Min(1.0, 1.0 - (value.upper.value - value.lower.value) / scale))
  }

  function Micros(element: Element): int {
    element.milliseconds * 1000
  }

  function CursorAfter(start: Time, elements: seq<Element>): Time {
    if elements == [] then start
    else CursorAfter(start, elements[..|elements| - 1]) + Micros(elements[|elements| - 1])
  }

  /** The horizon a segment must lie in. */
  datatype Horizon = Horizon(from: Time, until: Time)

  predicate Kept(element: Element, cursor: Time, horizon: Horizon) {
    |Supported(element.values)| == 1 && cursor >= horizon.from && cursor + Micros(element) <= horizon.until
  }

  function SegmentOf(value: PowerValue, cursor: Time, micros: int, band: Band): Segment {
    Segment(cursor, cursor + micros, value.expected,
            Min(Max(0.0, value.expected - band.low), band.ramp),
            Min(Max(0.0, band.high - value.expected), band.ramp),
            Confidence(value))
  }

  function KeptSegments(start: Time, elements: seq<Element>, horizon: Horizon, band: Band): Result<seq<Segment>> {
    if elements == [] then Ok([])
    else
      var init, last := elements[..|elements| - 1], elements[|elements| - 1];
      var before := KeptSegments(start, init, horizon, band);
      var cursor := CursorAfter(start, init);
      if before.Err? || !Kept(last, cursor, horizon) then before
      else
        var value := Supported(last.values)[0];
        if !(band.low <= value.expected <= band.high) then Err(BaselineOutsidePower)
        else Ok(before.value + [SegmentOf(value, cursor, Micros(last), band)])
  }

  // ----- Energy

  /** The stored energy after each segment when the baseline is followed, kept inside the envelope. */
  function EndEnergies(segments: seq<Segment>, envelope: Envelope): (r: Result<seq<real>>)
    ensures r.Ok? ==> |r.value| == |segments|
  {
    if segments == [] then Ok([])
    else
      var last := segments[|segments| - 1];
      var before := EndEnergies(segments[..|segments| - 1], envelope);
      if before.Err? then before
      else
        var start := if before.value == [] then envelope.initialEnergy else before.value[|before.value| - 1];
        var end := start + Energy(last.baseline, Length(last));
        if end < envelope.minEnergy - ENERGY_TOLERANCE || end > envelope.maxEnergy + ENERGY_TOLERANCE
        then Err(BaselineOutsideEnergy)
        else Ok(before.value + [Max(envelope.minEnergy, Min(envelope.maxEnergy, end))])
  }

  function Least(xs: seq<real>): real
    requires xs != []
  {
    if |xs| == 1 then xs[0] else Min(Least(xs[1..]), xs[0])
  }

  function SumOf(xs: seq<real>): real {
    if xs == [] then 0.0 else SumOf(xs[..|xs| - 1]) + xs[|xs| - 1]
  }

  /** As much as wanted of what the least headroom from here on leaves. */
  function GrantOf(wanted: real, headroom: seq<real>, used: real): real
    requires headroom != []
  {
    Min(wanted, Max(0.0, Max(0.0, Least(headroom)) - used))
  }

  /** Forward greedy: as much as wanted, up to what every later headroom leaves. */
  function Grants(wanted: seq<real>, headroom: seq<real>): (g: seq<real>)
    requires |wanted| <= |headroom|
    ensures |g| == |wanted|
  {
    if wanted == [] then []
    else
      var k := |wanted| - 1;
      var before := Grants(wanted[..k], headroom);
      before + [GrantOf(wanted[k], headroom[k..], SumOf(before))]
  }

  function UpWanted(segments: seq<Segment>): (w: seq<real>)
    ensures |w| == |segments|
  {
    seq(|segments|, i requires 0 <= i < |segments| => Energy(segments[i].up, Length(segments[i])))
  }

  function DownWanted(segments: seq<Segment>): (w: seq<real>)
    ensures |w| == |segments|
  {
    seq(|segments|, i requires 0 <= i < |segments| => Energy(segments[i].down, Length(segments[i])))
  }

  function UpHeadroom(ends: seq<real>, envelope: Envelope): (h: seq<real>)
    ensures |h| == |ends|
  {
    seq(|ends|, i requires 0 <= i < |ends| => ends[i] - envelope.minEnergy)
  }

  function DownHeadroom(ends: seq<real>, envelope: Envelope): (h: seq<real>)
    ensures |h| == |ends|
  {
    seq(|ends|, i requires 0 <= i < |ends| => envelope.maxEnergy - ends[i])
  }

  /** The constant power that yields an energy over a time. */
  function PowerFor(energy: real, micros: int): real
    requires micros > 0
  {
    energy / (micros as real / MICROS_PER_HOUR) * 1000.0
  }

  predicate AllPositive(segments: seq<Segment>) {
    forall i :: 0 <= i < |segments| ==> Length(segments[i]) > 0
  }

  function Limited(segments: seq<Segment>, ups: seq<real>, downs: seq<real>): (limited: seq<Segment>)
    requires |ups| == |downs| == |segments| && AllPositive(segments)
    ensures |limited| == |segments|
  {
    seq(|segments|, i requires 0 <= i < |segments| =>
      segments[i].(up := PowerFor(ups[i], Length(segments[i])), down := PowerFor(downs[i], Length(segments[i]))))
  }

  function LimitedSegments(segments: seq<Segment>, ends: seq<real>, envelope: Envelope): seq<Segment>
    requires |ends| == |segments| && AllPositive(segments)
  {
    Limited(segments, Grants(UpWanted(segments), UpHeadroom(ends, envelope)), Grants(DownWanted(segments), DownHeadroom(ends, envelope)))
  }

  // ----- Resampling

  predicate Overlaps(s: Segment, from: Time, until: Time) {
    s.start < until && s.end > from
  }

  function Overlapping(segments: seq<Segment>, from: Time, until: Time): seq<Segment> {
    if segments == [] then []
    else
      var last := segments[|segments| - 1];
      Overlapping(segments[..|segments| - 1], from, until) + (if Overlaps(last, from, until) then [last] else [])
  }

  function Shared(s: Segment, from: Time, until: Time): int {
    Earlier(s.end, until) - Later(s.start, from)
  }

  function Covered(segments: seq<Segment>, from: Time, until: Time): int {
    if segments == [] then 0
    else Covered(segments[..|segments| - 1], from, until) + Shared(segments[|segments| - 1], from, until)
  }

  /** isclose with its relative tolerance of a billionth, multiplied out. */
  predicate IsClose(a: int, b: int) {
    (if a < b then b - a else a - b) * 1_000_000_000 <= Later(a, b)
  }

  datatype Quantity = Baseline | Up | Down

  function Watts(s: Segment, q: Quantity): real {
    match q
    case Baseline => s.baseline
    case Up => s.up
    case Down => s.down
  }

  function Work(watts: real, micros: int): real {
    watts * micros as real
  }

  /** Watt-microseconds of a quantity inside a bucket. */
  function Weighted(segments: seq<Segment>, q: Quantity, from: Time, until: Time): real {
    if segments == [] then 0.0
    else
      var last := segments[|segments| - 1];
      Weighted(segments[..|segments| - 1], q, from, until) + Work(Watts(last, q), Shared(last, from, until))
  }

  function EnergyIn(segments: seq<Segment>, q: Quantity, from: Time, until: Time): real {
    if segments == [] then 0.0
    else
      var last := segments[|segments| - 1];
      EnergyIn(segments[..|segments| - 1], q, from, until) + Energy(Watts(last, q), Shared(last, from, until))
  }

  function LeastWatts(segments: seq<Segment>, q: Quantity): real
    requires segments != []
  {
    var last := Watts(segments[|segments| - 1], q);
    if |segments| == 1 then last else Min(LeastWatts(segments[..|segments| - 1], q), last)
  }

  function LeastConfidence(segments: seq<Segment>): real
    requires segments != []
  {
    var last := segments[|segments| - 1].confidence;
    if |segments| == 1 then last else Min(LeastConfidence(segments[..|segments| - 1]), last)
  }

  function BucketOffer(overlaps: seq<Segment>, from: Time, until: Time, source: Source, constraints: Constraints): Offer
    requires overlaps != [] && until > from && constraints.validUntil.Some?
  {
    Offer.Offer(
      "development", source.resource, source.zone, from, until,
      Weighted(overlaps, Baseline, from, until) / (until - from) as real / 1000.0,
      LeastWatts(overlaps, Up) / 1000.0,
      LeastWatts(overlaps, Down) / 1000.0,
      EnergyIn(overlaps, Up, from, until),
      EnergyIn(overlaps, Down, from, until),
      LeastConfidence(overlaps),
      constraints.consequence, constraints.id, source.epoch, source.sequence, source.observedAt,
      constraints.validUntil.value)
  }

  predicate Emitted(segments: seq<Segment>, from: Time, until: Time) {
    var overlaps := Overlapping(segments, from, until);
    overlaps != [] && IsClose(Covered(overlaps, from, until), until - from)
  }

  function Bucket(segments: seq<Segment>, from: Time, until: Time, source: Source, constraints: Constraints): seq<Offer>
    requires from < until && constraints.validUntil.Some?
  {
    if Emitted(segments, from, until)
    then [BucketOffer(Overlapping(segments, from, until), from, until, source, constraints)]
    else []
  }

  /** Where the n-th bucket ends and the next one starts. */
  function Edge(first: Time, n: nat, resolution: int): Time {
    if n == 0 then first else Edge(first, n - 1, resolution) + resolution
  }

  /** The offers of the first n buckets. */
  function Buckets(
      segments: seq<Segment>, first: Time, n: nat, resolution: int, source: Source, constraints: Constraints): seq<Offer>
    requires resolution > 0 && constraints.validUntil.Some?
  {
    if n == 0 then []
    else
      Buckets(segments, first, n - 1, resolution, source, constraints) +
      Bucket(segments, Edge(first, n - 1, resolution), Edge(first, n, resolution), source, constraints)
  }

  /** The first multiple of the resolution that is not before a time. */
  function AlignedUp(t: Time, resolution: int): Time
    requires resolution > 0
  {
    -(-t / resolution) * resolution
  }

  function BucketCount(first: Time, final: Time, resolution: int): nat
    requires resolution > 0
  {
    if first + resolution <= final then (final - first) / resolution else 0
  }

  function Resampled(segments: seq<Segment>, resolution: int, source: Source, constraints: Constraints): seq<Offer>
    requires segments != [] && resolution > 0 && constraints.validUntil.Some?
  {
    var first := AlignedUp(segments[0].start, resolution);
    var final := Earlier(segments[|segments| - 1].end, constraints.validUntil.value);
    Buckets(segments, first, BucketCount(first, final, resolution), resolution, source, constraints)
  }

  // ----- The whole

  function FromSegments(
      raw: seq<Segment>, source: Source, envelope: Envelope, constraints: Constraints, settings: Settings): Result<seq<Offer>>
    requires settings.resolution > 0 && constraints.validUntil.Some?
  {
    if raw == [] then Ok([])
    else
      var ends := EndEnergies(raw, envelope);
      if ends.Err? then Err(ends.error)
      else if !AllPositive(raw) then Err(DivisionByZero)
      else Ok(Resampled(LimitedSegments(raw, ends.value, envelope), settings.resolution, source, constraints))
  }

  function Normalized(
      source: Source, envelope: Envelope, constraints: Constraints, forecast: Forecast, settings: Settings): Result<seq<Offer>>
  {
    var refused := CheckSource(source, envelope, settings);
    if refused.Some? then Err(refused.value)
    else if Limits(constraints.ranges, true) == [] || Limits(constraints.ranges, false) == [] || constraints.validUntil.None?
    then Ok([])
    else if constraints.validUntil.value - constraints.validFrom > DAY then Err(HorizonTooLong)
    else
      var band := BandOf(constraints.ranges, envelope, settings);
      if band.low > band.high then Err(NoOverlap)
      else if settings.resolution <= 0 then Err(BadResolution)
      else
        var horizon := Horizon(constraints.validFrom, constraints.validUntil.value);
        var raw := KeptSegments(forecast.start, forecast.elements, horizon, band);
        if raw.Err? then Err(raw.error)
        else FromSegments(raw.value, source, envelope, constraints, settings)
  }
}
