/** What the normaliser makes of its limits: the power band and the confidences it reads, and that no
    safe plan moves more energy than the grants (src/der_flex/adapters/s2/pebc.py:121-263 and 337-349). */
module PebcPlans {
  import opened Domain
  import opened Pebc
  import opened PebcEnergy
  import opened PebcResampling
  import opened PebcGuarantees

  type Offer = Domain.Offer

  // ----- The band

  /** A range that says how far up, or how far down, power may be in normal operation. */
  predicate Says(range: LimitRange, upper: bool) {
    range.supported && !range.abnormal && range.upper == upper
  }

  lemma {:induction false} LimitsAre(ranges: seq<LimitRange>, upper: bool, range: LimitRange)
    ensures range in Limits(ranges, upper) <==> range in ranges && Says(range, upper)
  {
    if ranges != [] {
      var init, last := ranges[..|ranges| - 1], ranges[|ranges| - 1];
      LimitsAre(init, upper, range);
      assert ranges == init + [last];
    }
  }

  lemma {:induction false} LeastStartIs(ranges: seq<LimitRange>, watts: real)
    requires ranges != []
    ensures LeastStart(ranges) <= watts <==> exists range :: range in ranges && range.start <= watts
  {
    var init, last := ranges[..|ranges| - 1], ranges[|ranges| - 1];
    assert ranges == init + [last];
    assert last in ranges;
    if init != [] {
      LeastStartIs(init, watts);
    }
  }

  lemma {:induction false} GreatestEndIs(ranges: seq<LimitRange>, watts: real)
    requires ranges != []
    ensures watts <= GreatestEnd(ranges) <==> exists range :: range in ranges && watts <= range.end
  {
    var init, last := ranges[..|ranges| - 1], ranges[|ranges| - 1];
    assert ranges == init + [last];
    assert last in ranges;
    if init != [] {
      GreatestEndIs(init, watts);
    }
  }

  /** A power is in the band exactly if the physical envelope allows it, some upper limit starts at or
      below it and some lower limit ends at or above it; ranges for other quantities or abnormal
      conditions say nothing. */
  lemma BandExactly(ranges: seq<LimitRange>, envelope: Envelope, settings: Settings, watts: real)
    requires Limits(ranges, true) != [] && Limits(ranges, false) != []
    ensures var band := BandOf(ranges, envelope, settings);
            && (band.low <= watts <= band.high <==>
                  && envelope.minPower * 1000.0 <= watts <= envelope.maxPower * 1000.0
                  && (exists range :: range in ranges && Says(range, true) && range.start <= watts)
                  && (exists range :: range in ranges && Says(range, false) && watts <= range.end))
  {
    forall range, upper
      ensures range in Limits(ranges, upper) <==> range in ranges && Says(range, upper)
    {
      LimitsAre(ranges, upper, range);
    }
    LeastStartIs(Limits(ranges, true), watts);
    GreatestEndIs(Limits(ranges, false), watts);
  }

  lemma {:induction false} LimitsSome(ranges: seq<LimitRange>, upper: bool)
    ensures Limits(ranges, upper) != [] <==> exists range :: range in ranges && Says(range, upper)
  {
    if ranges != [] {
      var init, last := ranges[..|ranges| - 1], ranges[|ranges| - 1];
      LimitsSome(init, upper);
      assert ranges == init + [last];
      assert last in ranges;
    }
  }

  /** Constraints can be used exactly if they say something of both kinds and end. */
  lemma LimitsNeeded(constraints: Constraints)
    ensures HasLimits(constraints) <==>
              && constraints.validUntil.Some?
              && (exists range :: range in constraints.ranges && Says(range, true))
              && (exists range :: range in constraints.ranges && Says(range, false))
  {
    LimitsSome(constraints.ranges, true);
    LimitsSome(constraints.ranges, false);
  }

  // ----- Confidence

  /** The forecast's own scale: twice the expected power, and at least a kilowatt. */
  predicate IsScale(scale: real, expected: real) {
    && scale >= 2.0 * expected && scale >= -2.0 * expected && scale >= 1000.0
    && (scale == 1000.0 || scale == 2.0 * expected || scale == -2.0 * expected)
  }

  /** A forecast without both bounds is trusted by half; another loses the share of its spread in the
      scale, and no more than all. */
  lemma ConfidenceIs(value: PowerValue, scale: real)
    requires IsScale(scale, value.expected)
    ensures value.lower.None? || value.upper.None? ==> Pebc.Confidence(value) == 0.5
    ensures value.lower.Some? && value.upper.Some? ==>
              var spread := value.upper.value - value.lower.value;
              var lost := (1.0 - Pebc.Confidence(value)) * scale;
              lost == if spread <= 0.0 then 0.0 else if spread >= scale then scale else spread
  {
    if value.lower.Some? && value.upper.Some? {
      LostShare(value.upper.value - value.lower.value, scale, Pebc.Confidence(value));
    }
  }

  lemma LostShare(spread: real, scale: real, confidence: real)
    requires scale > 0.0 && confidence == Max(0.0, Min(1.0, 1.0 - spread / scale))
    ensures (1.0 - confidence) * scale == if spread <= 0.0 then 0.0 else if spread >= scale then scale else spread
  {
    var share := spread / scale;
    assert share * scale == spread;
    ShareSigns(share, spread, scale);
  }

  lemma ShareSigns(share: real, spread: real, scale: real)
    requires scale > 0.0 && share * scale == spread
    ensures share <= 0.0 <==> spread <= 0.0
    ensures share >= 1.0 <==> spread >= scale
  {
    RestSigns(1.0 - share, scale);
    assert (1.0 - share) * scale == scale - spread;
  }

  lemma RestSigns(rest: real, scale: real)
    requires scale > 0.0
    ensures rest <= 0.0 <==> rest * scale <= 0.0
  {
  }

  // ----- Plans

  /** Other powers for the same segments, no higher than theirs. */
  ghost predicate PlanFor(plan: seq<Segment>, raw: seq<Segment>) {
    && |plan| == |raw|
    && forall i :: 0 <= i < |raw| ==> IsPart(plan[i], raw[i])
  }

  predicate IsPart(s: Segment, whole: Segment) {
    s == whole.(up := s.up, down := s.down) && 0.0 <= s.up <= whole.up && 0.0 <= s.down <= whole.down
  }

  /** After every segment the stored energy, less all the upward energy so far or plus all the
      downward, is inside the envelope. */
  ghost predicate PlanIsSafe(plan: seq<Segment>, raw: seq<Segment>, envelope: Envelope)
    requires EndEnergies(raw, envelope).Ok? && |plan| == |raw|
  {
    forall i :: 0 <= i < |raw| ==>
      && EndEnergies(raw, envelope).value[i] - Total(plan[..i + 1], Of(Up)) >= envelope.minEnergy
      && EndEnergies(raw, envelope).value[i] + Total(plan[..i + 1], Of(Down)) <= envelope.maxEnergy
  }

  function Energies(plan: seq<Segment>, q: Quantity): (e: seq<real>)
    ensures |e| == |plan|
  {
    seq(|plan|, i requires 0 <= i < |plan| => Energy(Watts(plan[i], q), Length(plan[i])))
  }

  lemma {:induction false} EnergiesTotal(plan: seq<Segment>, q: Quantity, k: nat)
    requires k <= |plan|
    ensures SumOf(Energies(plan, q)[..k]) == Total(plan[..k], Of(q))
  {
    if k > 0 {
      EnergiesTotal(plan, q, k - 1);
      SumNext(Energies(plan, q), k - 1);
      assert plan[..k][..k - 1] == plan[..k - 1];
    }
  }

  lemma MoreWatts(watts: real, more: real, micros: int)
    requires 0.0 <= watts <= more && micros >= 0
    ensures 0.0 <= Energy(watts, micros) <= Energy(more, micros)
  {
    EnergyNonnegative(watts, micros);
    EnergyNonnegative(more - watts, micros);
    EnergySplits(watts, more, micros);
  }

  lemma EnergySplits(watts: real, more: real, micros: int)
    ensures Energy(more - watts, micros) == Energy(more, micros) - Energy(watts, micros)
  {
  }

  lemma EnergiesWanted(plan: seq<Segment>, raw: seq<Segment>, i: nat)
    requires PlanFor(plan, raw) && AllPositive(raw) && i < |raw|
    ensures 0.0 <= Energies(plan, Up)[i] <= UpWanted(raw)[i]
    ensures 0.0 <= Energies(plan, Down)[i] <= DownWanted(raw)[i]
  {
    assert IsPart(plan[i], raw[i]);
    MoreWatts(plan[i].up, raw[i].up, Length(raw[i]));
    MoreWatts(plan[i].down, raw[i].down, Length(raw[i]));
  }

  lemma PlansAreSafe(plan: seq<Segment>, raw: seq<Segment>, envelope: Envelope)
    requires Ready(raw, envelope) && PlanFor(plan, raw) && PlanIsSafe(plan, raw, envelope)
    ensures var ends := EndEnergies(raw, envelope).value;
            && SafePlan(Energies(plan, Up), UpWanted(raw), UpHeadroom(ends, envelope))
            && SafePlan(Energies(plan, Down), DownWanted(raw), DownHeadroom(ends, envelope))
  {
    var ends := EndEnergies(raw, envelope).value;
    forall i | 0 <= i < |raw|
      ensures 0.0 <= Energies(plan, Up)[i] <= UpWanted(raw)[i]
      ensures 0.0 <= Energies(plan, Down)[i] <= DownWanted(raw)[i]
      ensures SumOf(Energies(plan, Up)[..i + 1]) <= UpHeadroom(ends, envelope)[i]
      ensures SumOf(Energies(plan, Down)[..i + 1]) <= DownHeadroom(ends, envelope)[i]
    {
      EnergiesWanted(plan, raw, i);
      EnergiesTotal(plan, Up, i + 1);
      EnergiesTotal(plan, Down, i + 1);
    }
  }

  /** Up to any segment, no safe plan moves more energy up, nor more down, than the limited segments. */
  lemma NoPlanIsAhead(plan: seq<Segment>, raw: seq<Segment>, envelope: Envelope, k: nat)
    requires Ready(raw, envelope) && PlanFor(plan, raw) && PlanIsSafe(plan, raw, envelope) && k <= |raw|
    ensures Total(plan[..k], Of(Up)) <= Total(LimitedOf(raw, envelope)[..k], Of(Up))
    ensures Total(plan[..k], Of(Down)) <= Total(LimitedOf(raw, envelope)[..k], Of(Down))
  {
    var ends := EndEnergies(raw, envelope).value;
    PlansAreSafe(plan, raw, envelope);
    GreedyIsAhead(Energies(plan, Up), UpWanted(raw), UpHeadroom(ends, envelope), k);
    GreedyIsAhead(Energies(plan, Down), DownWanted(raw), DownHeadroom(ends, envelope), k);
    EnergiesTotal(plan, Up, k);
    EnergiesTotal(plan, Down, k);
    LimitedTotals(raw, UpGrants(raw, envelope), DownGrants(raw, envelope), k);
  }

  /** And the limited segments are such a plan. */
  lemma LimitedIsPlan(raw: seq<Segment>, envelope: Envelope)
    requires Ready(raw, envelope)
    ensures PlanFor(LimitedOf(raw, envelope), raw) && PlanIsSafe(LimitedOf(raw, envelope), raw, envelope)
  {
    var limited := LimitedOf(raw, envelope);
    forall i | 0 <= i < |raw|
      ensures IsPart(limited[i], raw[i])
    {
      GrantIsPart(raw, envelope, i);
    }
    forall i | 0 <= i < |raw|
      ensures EndEnergies(raw, envelope).value[i] - Total(limited[..i + 1], Of(Up)) >= envelope.minEnergy
      ensures EndEnergies(raw, envelope).value[i] + Total(limited[..i + 1], Of(Down)) <= envelope.maxEnergy
    {
      GrantsFitEnds(raw, envelope, i);
      LimitedTotals(raw, UpGrants(raw, envelope), DownGrants(raw, envelope), i + 1);
    }
  }

  lemma LessWatts(watts: real, more: real, micros: int)
    requires micros > 0 && 0.0 <= Energy(watts, micros) <= Energy(more, micros)
    ensures 0.0 <= watts <= more
  {
    if watts < 0.0 {
      PositiveEnergy(-watts, micros);
      EnergySplits(watts, 0.0, micros);
    }
    if more < watts {
      PositiveEnergy(watts - more, micros);
      EnergySplits(more, watts, micros);
    }
  }

  lemma PositiveEnergy(watts: real, micros: int)
    requires watts > 0.0 && micros > 0
    ensures Energy(watts, micros) > 0.0 && Energy(0.0, micros) == 0.0
  {
  }

  lemma GrantIsPart(raw: seq<Segment>, envelope: Envelope, i: nat)
    requires Ready(raw, envelope) && i < |raw|
    ensures IsPart(LimitedOf(raw, envelope)[i], raw[i])
  {
    var s := LimitedOf(raw, envelope)[i];
    WantedNonnegative(raw);
    GrantedEnergy(raw, envelope, i);
    GrantsBounded(UpWanted(raw), UpHeadroom(EndEnergies(raw, envelope).value, envelope));
    GrantsBounded(DownWanted(raw), DownHeadroom(EndEnergies(raw, envelope).value, envelope));
    LessWatts(s.up, raw[i].up, Length(raw[i]));
    LessWatts(s.down, raw[i].down, Length(raw[i]));
  }
}
