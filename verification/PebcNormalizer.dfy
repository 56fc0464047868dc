/** The normaliser itself: its loops move a cursor, run energies forward and backward, grant
    greedily and walk the buckets, and compute what the specification says. */
module PebcNormalizer {
  import opened Domain
  import opened Pebc
  import opened PebcEnergy
  import opened PebcResampling
  import opened Sequences

  type Offer = Domain.Offer

  /** The first refusal is final. */
  lemma {:induction false} RefusalStays(start: Time, elements: seq<Element>, horizon: Horizon, band: Band, k: nat)
    requires k <= |elements| && KeptSegments(start, elements[..k], horizon, band).Err?
    ensures KeptSegments(start, elements, horizon, band) == KeptSegments(start, elements[..k], horizon, band)
    decreases |elements|
  {
    if k < |elements| {
      var init := elements[..|elements| - 1];
      assert init[..k] == elements[..k];
      RefusalStays(start, init, horizon, band, k);
    } else {
      assert elements[..k] == elements;
    }
  }

  method KeepSegments(
      start: Time, elements: seq<Element>, horizon: Horizon, band: Band) returns (result: Result<seq<Segment>>)
    ensures result == KeptSegments(start, elements, horizon, band)
  {
    var cursor, raw := start, [];
    for i := 0 to |elements|
      invariant cursor == CursorAfter(start, elements[..i])
      invariant KeptSegments(start, elements[..i], horizon, band) == Ok(raw)
    {
      InitOf(elements, i);
      var element := elements[i];
      var end := cursor + Micros(element);
      var values := Supported(element.values);
      if |values| == 1 && cursor >= horizon.from && end <= horizon.until {
        var value := values[0];
        if !(band.low <= value.expected <= band.high) {
          RefusalStays(start, elements, horizon, band, i + 1);
          return Err(BaselineOutsidePower);
        }
        raw := raw + [SegmentOf(value, cursor, Micros(element), band)];
      }
      cursor := end;
    }
    assert elements[..|elements|] == elements;
    return Ok(raw);
  }

  lemma {:induction false} BreachStays(segments: seq<Segment>, envelope: Envelope, k: nat)
    requires k <= |segments| && EndEnergies(segments[..k], envelope).Err?
    ensures EndEnergies(segments, envelope) == EndEnergies(segments[..k], envelope)
    decreases |segments|
  {
    if k < |segments| {
      var init := segments[..|segments| - 1];
      assert init[..k] == segments[..k];
      BreachStays(init, envelope, k);
    } else {
      assert segments[..k] == segments;
    }
  }

  method RunForward(segments: seq<Segment>, envelope: Envelope) returns (result: Result<seq<real>>)
    ensures result == EndEnergies(segments, envelope)
  {
    var energy, ends := envelope.initialEnergy, [];
    for i := 0 to |segments|
      invariant EndEnergies(segments[..i], envelope) == Ok(ends)
      invariant energy == if ends == [] then envelope.initialEnergy else ends[|ends| - 1]
    {
      InitOf(segments, i);
      energy := energy + Energy(segments[i].baseline, Length(segments[i]));
      if energy < envelope.minEnergy - ENERGY_TOLERANCE || energy > envelope.maxEnergy + ENERGY_TOLERANCE {
        BreachStays(segments, envelope, i + 1);
        return Err(BaselineOutsideEnergy);
      }
      energy := Max(envelope.minEnergy, Min(envelope.maxEnergy, energy));
      ends := ends + [energy];
    }
    assert segments[..|segments|] == segments;
    return Ok(ends);
  }

  /** The running minimum, which starts at infinity. */
  function Lower(running: Option<real>, x: real): real {
    if running.None? then x else Min(running.value, x)
  }

  method RunBackward(ends: seq<real>, envelope: Envelope) returns (up: array<real>, down: array<real>)
    ensures fresh(up) && fresh(down) && up.Length == down.Length == |ends|
    ensures forall i :: 0 <= i < |ends| ==>
              && up[i] == Max(0.0, Least(UpHeadroom(ends, envelope)[i..]))
              && down[i] == Max(0.0, Least(DownHeadroom(ends, envelope)[i..]))
  {
    up, down := new real[|ends|](_ => 0.0), new real[|ends|](_ => 0.0);
    ghost var upHeadroom, downHeadroom := UpHeadroom(ends, envelope), DownHeadroom(ends, envelope);
    var upLeast: Option<real>, downLeast: Option<real> := None, None;
    for i := |ends| downto 0
      invariant upLeast == if i == |ends| then None else Some(Least(upHeadroom[i..]))
      invariant downLeast == if i == |ends| then None else Some(Least(downHeadroom[i..]))
      invariant forall j :: i <= j < |ends| ==>
                  up[j] == Max(0.0, Least(upHeadroom[j..])) && down[j] == Max(0.0, Least(downHeadroom[j..]))
    {
      assert upHeadroom[i..][0] == upHeadroom[i] && upHeadroom[i..][1..] == upHeadroom[i + 1..];
      assert downHeadroom[i..][0] == downHeadroom[i] && downHeadroom[i..][1..] == downHeadroom[i + 1..];
      upLeast := Some(Lower(upLeast, ends[i] - envelope.minEnergy));
      downLeast := Some(Lower(downLeast, envelope.maxEnergy - ends[i]));
      up[i] := Max(0.0, upLeast.value);
      down[i] := Max(0.0, downLeast.value);
    }
  }

  /** Grant as much as wanted of what the budgets leave, or fail at a segment without a length. */
  method Grant(raw: seq<Segment>, ends: seq<real>, up: array<real>, down: array<real>, envelope: Envelope)
      returns (result: Result<seq<Segment>>)
    requires EndEnergies(raw, envelope) == Ok(ends) && up.Length == down.Length == |ends|
    requires forall i :: 0 <= i < |raw| ==> Length(raw[i]) >= 0
    requires forall i :: 0 <= i < |ends| ==> up[i] == Max(0.0, Least(UpHeadroom(ends, envelope)[i..]))
    requires forall i :: 0 <= i < |ends| ==> down[i] == Max(0.0, Least(DownHeadroom(ends, envelope)[i..]))
    ensures result == if AllPositive(raw) then Ok(LimitedOf(raw, envelope)) else Err(DivisionByZero)
  {
    ghost var upGrants, downGrants := UpGrants(raw, envelope), DownGrants(raw, envelope);
    var segments: seq<Segment> := [];
    var upUsed, downUsed := 0.0, 0.0;
    for i := 0 to |raw|
      invariant |segments| == i && AllPositive(raw[..i])
      invariant upUsed == SumOf(upGrants[..i]) && downUsed == SumOf(downGrants[..i])
      invariant segments == Limited(raw[..i], upGrants[..i], downGrants[..i])
    {
      NextUpGrant(raw, ends, envelope, i, up[i], upUsed);
      NextDownGrant(raw, ends, envelope, i, down[i], downUsed);
      SumNext(upGrants, i);
      SumNext(downGrants, i);
      var length := Length(raw[i]);
      var upEnergy := Min(Energy(raw[i].up, length), Max(0.0, up[i] - upUsed));
      var downEnergy := Min(Energy(raw[i].down, length), Max(0.0, down[i] - downUsed));
      upUsed, downUsed := upUsed + upEnergy, downUsed + downEnergy;
      if length == 0 {
        return Err(DivisionByZero);
      }
      segments := segments + [raw[i].(up := PowerFor(upEnergy, length), down := PowerFor(downEnergy, length))];
      LimitedNext(raw, upGrants, downGrants, i);
    }
    assert raw[..|raw|] == raw && upGrants[..|raw|] == upGrants && downGrants[..|raw|] == downGrants;
    return Ok(segments);
  }

  lemma NextGrant(wanted: seq<real>, headroom: seq<real>, i: nat, budget: real, used: real)
    requires i < |wanted| <= |headroom|
    requires budget == Max(0.0, Least(headroom[i..])) && used == SumOf(Grants(wanted, headroom)[..i])
    ensures Grants(wanted, headroom)[i] == Min(wanted[i], Max(0.0, budget - used))
  {
    GrantAt(wanted, headroom, i);
  }

  lemma NextUpGrant(raw: seq<Segment>, ends: seq<real>, envelope: Envelope, i: nat, budget: real, used: real)
    requires EndEnergies(raw, envelope) == Ok(ends) && i < |raw|
    requires budget == Max(0.0, Least(UpHeadroom(ends, envelope)[i..])) && used == SumOf(UpGrants(raw, envelope)[..i])
    ensures UpGrants(raw, envelope)[i] == Min(Energy(raw[i].up, Length(raw[i])), Max(0.0, budget - used))
  {
    NextGrant(UpWanted(raw), UpHeadroom(ends, envelope), i, budget, used);
  }

  lemma NextDownGrant(raw: seq<Segment>, ends: seq<real>, envelope: Envelope, i: nat, budget: real, used: real)
    requires EndEnergies(raw, envelope) == Ok(ends) && i < |raw|
    requires budget == Max(0.0, Least(DownHeadroom(ends, envelope)[i..])) && used == SumOf(DownGrants(raw, envelope)[..i])
    ensures DownGrants(raw, envelope)[i] == Min(Energy(raw[i].down, Length(raw[i])), Max(0.0, budget - used))
  {
    NextGrant(DownWanted(raw), DownHeadroom(ends, envelope), i, budget, used);
  }

  lemma LimitedNext(raw: seq<Segment>, ups: seq<real>, downs: seq<real>, i: nat)
    requires i < |raw| == |ups| == |downs| && AllPositive(raw[..i]) && Length(raw[i]) > 0
    ensures AllPositive(raw[..i + 1])
    ensures Limited(raw[..i + 1], ups[..i + 1], downs[..i + 1])
         == Limited(raw[..i], ups[..i], downs[..i]) +
            [raw[i].(up := PowerFor(ups[i], Length(raw[i])), down := PowerFor(downs[i], Length(raw[i])))]
  {
    assert forall j :: 0 <= j < i ==> raw[..i + 1][j] == raw[..i][j];
  }

  lemma OneMoreBucket(first: Time, final: Time, n: nat, resolution: int)
    requires resolution > 0 && n <= BucketCount(first, final, resolution)
    ensures Edge(first, n, resolution) + resolution <= final <==> n < BucketCount(first, final, resolution)
  {
    EdgeIs(first, n, resolution);
    if first + resolution <= final {
      QuotientExceeds(final - first, n, resolution);
    }
  }

  lemma QuotientExceeds(x: int, n: nat, divisor: int)
    requires divisor > 0 && x >= 0
    ensures n * divisor + divisor <= x <==> n < x / divisor
  {
    var q := x / divisor;
    if n < q {
      assert (n + 1) * divisor <= q * divisor;
    } else {
      assert q * divisor <= n * divisor;
    }
  }

  method Resample(
      segments: seq<Segment>, resolution: int, source: Source,
      constraints: Constraints) returns (offers: seq<Offer>)
    requires segments != [] && resolution > 0 && constraints.validUntil.Some?
    ensures offers == Resampled(segments, resolution, source, constraints)
  {
    var from := AlignedUp(segments[0].start, resolution);
    var final := Earlier(segments[|segments| - 1].end, constraints.validUntil.value);
    ghost var first, n := from, 0;
    ghost var count := BucketCount(first, final, resolution);
    offers := [];
    OneMoreBucket(first, final, 0, resolution);
    while from + resolution <= final
      invariant n <= count && from == Edge(first, n, resolution)
      invariant from + resolution <= final <==> n < count
      invariant offers == Buckets(segments, first, n, resolution, source, constraints)
      decreases final - from
    {
      var until := from + resolution;
      var overlaps := Overlapping(segments, from, until);
      if overlaps != [] && IsClose(Covered(overlaps, from, until), resolution) {
        offers := offers + [BucketOffer(overlaps, from, until, source, constraints)];
      }
      from := until;
      n := n + 1;
      OneMoreBucket(first, final, n, resolution);
    }
  }

  method NormalizePebcOffer(
      source: Source, envelope: Envelope, constraints: Constraints, forecast: Forecast, settings: Settings)
      returns (result: Result<seq<Offer>>)
    ensures result == Normalized(source, envelope, constraints, forecast, settings)
  {
    var refused := CheckSource(source, envelope, settings);
    if refused.Some? {
      return Err(refused.value);
    }
    var uppers, lowers := Limits(constraints.ranges, true), Limits(constraints.ranges, false);
    if uppers == [] || lowers == [] || constraints.validUntil.None? {
      return Ok([]);
    }
    if constraints.validUntil.value - constraints.validFrom > DAY {
      return Err(HorizonTooLong);
    }
    var band := BandOf(constraints.ranges, envelope, settings);
    if band.low > band.high {
      return Err(NoOverlap);
    }
    if settings.resolution <= 0 {
      return Err(BadResolution);
    }
    var horizon := Horizon(constraints.validFrom, constraints.validUntil.value);
    var raw := KeepSegments(forecast.start, forecast.elements, horizon, band);
    if raw.Err? {
      return Err(raw.error);
    }
    if raw.value == [] {
      return Ok([]);
    }
    var ends := RunForward(raw.value, envelope);
    if ends.Err? {
      return Err(ends.error);
    }
    NoNegativeLength(source, envelope, constraints, forecast, settings);
    var up, down := RunBackward(ends.value, envelope);
    var segments := Grant(raw.value, ends.value, up, down, envelope);
    if segments.Err? {
      return Err(segments.error);
    }
    var offers := Resample(segments.value, settings.resolution, source, constraints);
    return Ok(offers);
  }

  /** No kept segment has a negative length. */
  lemma NoNegativeLength(
      source: Source, envelope: Envelope, constraints: Constraints, forecast: Forecast, settings: Settings)
    requires CheckSource(source, envelope, settings).None?
    requires Limits(constraints.ranges, true) != [] && Limits(constraints.ranges, false) != [] && constraints.validUntil.Some?
    ensures var raw := KeptSegments(forecast.start, forecast.elements, Horizon(constraints.validFrom, constraints.validUntil.value),
                                    BandOf(constraints.ranges, envelope, settings));
            raw.Ok? ==> forall i :: 0 <= i < |raw.value| ==> Length(raw.value[i]) >= 0
  {
    var horizon, band := Horizon(constraints.validFrom, constraints.validUntil.value), BandOf(constraints.ranges, envelope, settings);
    if KeptSegments(forecast.start, forecast.elements, horizon, band).Ok? {
      KeptSegmentsAre(forecast.start, forecast.elements, horizon, band);
    }
  }
}
