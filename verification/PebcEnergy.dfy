/** Energy safety of the allocation, segment by segment: what the clamped forward pass, the
    suffix-minimum pass and the greedy pass guarantee together. */
module PebcEnergy {
  import opened Domain
  import opened Pebc

  // ----- Sums

  lemma {:induction false} SumMonotone(xs: seq<real>, ys: seq<real>)
    requires |xs| == |ys| && forall i :: 0 <= i < |xs| ==> xs[i] <= ys[i]
    ensures SumOf(xs) <= SumOf(ys)
  {
    if xs != [] {
      SumMonotone(xs[..|xs| - 1], ys[..|ys| - 1]);
    }
  }

  lemma {:induction false} SumNonnegative(xs: seq<real>)
    requires forall i :: 0 <= i < |xs| ==> xs[i] >= 0.0
    ensures SumOf(xs) >= 0.0
  {
    if xs != [] {
      SumNonnegative(xs[..|xs| - 1]);
    }
  }

  lemma SumNext(xs: seq<real>, i: nat)
    requires i < |xs|
    ensures SumOf(xs[..i + 1]) == SumOf(xs[..i]) + xs[i]
  {
    assert xs[..i + 1][..i] == xs[..i];
  }

  lemma {:induction false} SumGrows(xs: seq<real>, i: nat, j: nat)
    requires i <= j <= |xs| && forall k :: 0 <= k < |xs| ==> xs[k] >= 0.0
    ensures SumOf(xs[..i]) <= SumOf(xs[..j])
    decreases j
  {
    if i < j {
      SumGrows(xs, i, j - 1);
      SumNext(xs, j - 1);
    }
  }

  lemma {:induction false} LeastIs(xs: seq<real>)
    requires xs != []
    ensures forall i :: 0 <= i < |xs| ==> Least(xs) <= xs[i]
    ensures exists i :: 0 <= i < |xs| && Least(xs) == xs[i]
  {
    if |xs| > 1 {
      LeastIs(xs[1..]);
      var i :| 0 <= i < |xs[1..]| && Least(xs[1..]) == xs[1..][i];
      assert xs[i + 1] == xs[1..][i];
      forall k | 0 <= k < |xs|
        ensures Least(xs) <= xs[k]
      {
        assert k > 0 ==> xs[k] == xs[1..][k - 1];
      }
      assert Least(xs) == xs[0] || Least(xs) == xs[i + 1];
    } else {
      assert Least(xs) == xs[0];
    }
  }

  // ----- The greedy pass

  predicate Nonnegative(xs: seq<real>) {
    forall i :: 0 <= i < |xs| ==> xs[i] >= 0.0
  }

  lemma {:induction false} GrantsPrefix(wanted: seq<real>, headroom: seq<real>, k: nat)
    requires k <= |wanted| <= |headroom|
    ensures Grants(wanted, headroom)[..k] == Grants(wanted[..k], headroom)
    decreases |wanted|
  {
    if k < |wanted| {
      GrantsPrefix(wanted[..|wanted| - 1], headroom, k);
      assert wanted[..|wanted| - 1][..k] == wanted[..k];
      var g := Grants(wanted, headroom);
      assert g[..|wanted| - 1] == Grants(wanted[..|wanted| - 1], headroom);
      assert g[..k] == g[..|wanted| - 1][..k];
    } else {
      assert wanted[..k] == wanted;
    }
  }

  lemma LastGrant(wanted: seq<real>, headroom: seq<real>, k: nat)
    requires k + 1 == |wanted| <= |headroom|
    ensures Grants(wanted, headroom)[k] == GrantOf(wanted[k], headroom[k..], SumOf(Grants(wanted[..k], headroom)))
  {
  }

  lemma GrantAt(wanted: seq<real>, headroom: seq<real>, k: nat)
    requires k < |wanted| <= |headroom|
    ensures Grants(wanted, headroom)[k] == GrantOf(wanted[k], headroom[k..], SumOf(Grants(wanted, headroom)[..k]))
  {
    GrantsPrefix(wanted, headroom, k);
    GrantsPrefix(wanted, headroom, k + 1);
    LastGrant(wanted[..k + 1], headroom, k);
    assert wanted[..k + 1][..k] == wanted[..k];
    assert Grants(wanted, headroom)[k] == Grants(wanted, headroom)[..k + 1][k];
  }

  /** Every grant is between nothing and what was wanted. */
  lemma {:induction false} GrantsBounded(wanted: seq<real>, headroom: seq<real>)
    requires |wanted| <= |headroom| && Nonnegative(wanted)
    ensures var g := Grants(wanted, headroom);
            Nonnegative(g) && forall i :: 0 <= i < |g| ==> g[i] <= wanted[i]
  {
    forall i | 0 <= i < |wanted|
      ensures 0.0 <= Grants(wanted, headroom)[i] <= wanted[i]
    {
      GrantAt(wanted, headroom, i);
    }
  }

  lemma GrantOfFits(wanted: real, headroom: seq<real>, used: real, bound: real)
    requires headroom != [] && wanted >= 0.0
    requires used <= bound && 0.0 <= bound && Least(headroom) <= bound
    ensures used + GrantOf(wanted, headroom, used) <= bound
  {
  }

  /** What is granted up to a point never exceeds any headroom from there on. */
  lemma {:induction false} GrantsFit(wanted: seq<real>, headroom: seq<real>, i: nat, j: nat)
    requires |wanted| <= |headroom| && Nonnegative(wanted) && Nonnegative(headroom)
    requires i < |wanted| && i <= j < |headroom|
    ensures SumOf(Grants(wanted, headroom)[..i + 1]) <= headroom[j]
    decreases i
  {
    var g := Grants(wanted, headroom);
    if i > 0 {
      GrantsFit(wanted, headroom, i - 1, j);
    }
    assert Least(headroom[i..]) <= headroom[j] by {
      LeastIs(headroom[i..]);
      assert headroom[i..][j - i] == headroom[j];
    }
    GrantAt(wanted, headroom, i);
    SumNext(g, i);
    GrantOfFits(wanted[i], headroom[i..], SumOf(g[..i]), headroom[j]);
  }

  /** A plan that asks for no more than wanted and never exceeds the headroom it has reached. */
  ghost predicate SafePlan(plan: seq<real>, wanted: seq<real>, headroom: seq<real>) {
    && |plan| == |wanted| <= |headroom|
    && Nonnegative(plan)
    && (forall i :: 0 <= i < |plan| ==> plan[i] <= wanted[i] && SumOf(plan[..i + 1]) <= headroom[i])
  }

  /** The greedy grants are such a plan. */
  lemma GrantsAreSafe(wanted: seq<real>, headroom: seq<real>)
    requires |wanted| <= |headroom| && Nonnegative(wanted) && Nonnegative(headroom)
    ensures SafePlan(Grants(wanted, headroom), wanted, headroom)
  {
    GrantsBounded(wanted, headroom);
    forall i | 0 <= i < |wanted|
      ensures SumOf(Grants(wanted, headroom)[..i + 1]) <= headroom[i]
    {
      GrantsFit(wanted, headroom, i, i);
    }
  }

  /** A safe plan, up to any point, fits the least headroom from there on. */
  lemma PlanFits(plan: seq<real>, wanted: seq<real>, headroom: seq<real>, k: nat)
    requires SafePlan(plan, wanted, headroom) && |wanted| == |headroom| && k < |plan|
    ensures SumOf(plan[..k + 1]) <= Least(headroom[k..])
  {
    LeastIs(headroom[k..]);
    var j :| 0 <= j < |headroom[k..]| && Least(headroom[k..]) == headroom[k..][j];
    assert headroom[k..][j] == headroom[k + j];
    SumGrows(plan, k + 1, k + j + 1);
    assert SumOf(plan[..k + j + 1]) <= headroom[k + j];
  }

  /** And no safe plan is ahead of them at any point. */
  lemma {:induction false} GreedyIsAhead(plan: seq<real>, wanted: seq<real>, headroom: seq<real>, i: nat)
    requires SafePlan(plan, wanted, headroom) && |wanted| == |headroom| && i <= |plan|
    ensures SumOf(plan[..i]) <= SumOf(Grants(wanted, headroom)[..i])
  {
    if i > 0 {
      var k := i - 1;
      GreedyIsAhead(plan, wanted, headroom, k);
      SumNext(plan, k);
      SumNext(Grants(wanted, headroom), k);
      GrantAt(wanted, headroom, k);
      PlanFits(plan, wanted, headroom, k);
    }
  }

  // ----- The forward pass

  function BaselineTotal(segments: seq<Segment>): real {
    if segments == [] then 0.0
    else BaselineTotal(segments[..|segments| - 1]) + Energy(segments[|segments| - 1].baseline, Length(segments[|segments| - 1]))
  }

  function Slack(n: nat): real {
    n as real * ENERGY_TOLERANCE
  }

  /** Clamping moves the stored energy by at most the tolerance per segment. */
  lemma {:induction false} EndEnergiesAre(segments: seq<Segment>, envelope: Envelope)
    requires envelope.minEnergy <= envelope.initialEnergy <= envelope.maxEnergy
    requires EndEnergies(segments, envelope).Ok?
    ensures var ends := EndEnergies(segments, envelope).value;
            && (forall i :: 0 <= i < |ends| ==> envelope.minEnergy <= ends[i] <= envelope.maxEnergy)
            && (segments != [] ==>
                  -Slack(|segments|) <= ends[|ends| - 1] - (envelope.initialEnergy + BaselineTotal(segments)) <= Slack(|segments|))
  {
    if segments != [] {
      EndEnergiesAre(segments[..|segments| - 1], envelope);
    }
  }

  lemma {:induction false} EndEnergiesPrefix(segments: seq<Segment>, envelope: Envelope, k: nat)
    requires k <= |segments| && EndEnergies(segments, envelope).Ok?
    ensures EndEnergies(segments[..k], envelope) == Ok(EndEnergies(segments, envelope).value[..k])
    decreases |segments|
  {
    if k < |segments| {
      var init := segments[..|segments| - 1];
      EndEnergiesPrefix(init, envelope, k);
      assert init[..k] == segments[..k];
      assert EndEnergies(segments, envelope).value[..|init|] == EndEnergies(init, envelope).value;
      assert EndEnergies(segments, envelope).value[..k] == EndEnergies(init, envelope).value[..k];
    } else {
      assert segments[..k] == segments;
      assert EndEnergies(segments, envelope).value[..k] == EndEnergies(segments, envelope).value;
    }
  }

  /** The stored energy after segment i when the baseline is followed and nothing is clamped. */
  lemma EndEnergyClose(segments: seq<Segment>, envelope: Envelope, i: nat)
    requires envelope.minEnergy <= envelope.initialEnergy <= envelope.maxEnergy
    requires EndEnergies(segments, envelope).Ok? && i < |segments|
    ensures var ends := EndEnergies(segments, envelope).value;
            -Slack(i + 1) <= ends[i] - (envelope.initialEnergy + BaselineTotal(segments[..i + 1])) <= Slack(i + 1)
  {
    EndEnergiesPrefix(segments, envelope, i + 1);
    EndEnergiesAre(segments[..i + 1], envelope);
  }

  // ----- Safety of every mixed activation

  /** Some of the granted energy, segment by segment. */
  ghost predicate ChosenFrom(choice: seq<real>, granted: seq<real>) {
    && |choice| == |granted|
    && forall i :: 0 <= i < |choice| ==> 0.0 <= choice[i] <= granted[i]
  }

  lemma ChosenSum(choice: seq<real>, granted: seq<real>, k: nat)
    requires ChosenFrom(choice, granted) && k <= |choice|
    ensures 0.0 <= SumOf(choice[..k]) <= SumOf(granted[..k])
  {
    SumMonotone(choice[..k], granted[..k]);
    SumNonnegative(choice[..k]);
  }

  /** What a segment may ask for. */
  predicate Sane(segments: seq<Segment>) {
    forall i :: 0 <= i < |segments| ==> segments[i].up >= 0.0 && segments[i].down >= 0.0 && Length(segments[i]) >= 0
  }

  lemma EnergyNonnegative(watts: real, micros: int)
    requires watts >= 0.0 && micros >= 0
    ensures Energy(watts, micros) >= 0.0
  {
  }

  lemma WantedNonnegative(segments: seq<Segment>)
    requires Sane(segments)
    ensures Nonnegative(UpWanted(segments)) && Nonnegative(DownWanted(segments))
  {
    forall i | 0 <= i < |segments|
      ensures UpWanted(segments)[i] >= 0.0 && DownWanted(segments)[i] >= 0.0
    {
      EnergyNonnegative(segments[i].up, Length(segments[i]));
      EnergyNonnegative(segments[i].down, Length(segments[i]));
    }
  }

  function UpGrants(segments: seq<Segment>, envelope: Envelope): (g: seq<real>)
    requires EndEnergies(segments, envelope).Ok?
    ensures |g| == |segments|
  {
    Grants(UpWanted(segments), UpHeadroom(EndEnergies(segments, envelope).value, envelope))
  }

  function DownGrants(segments: seq<Segment>, envelope: Envelope): (g: seq<real>)
    requires EndEnergies(segments, envelope).Ok?
    ensures |g| == |segments|
  {
    Grants(DownWanted(segments), DownHeadroom(EndEnergies(segments, envelope).value, envelope))
  }

  /** Per-segment energy safety. Whatever part of the upward and of the downward energy is used in
      each segment, the stored energy after every segment stays inside the envelope; measured
      against the unclamped baseline, up to a billionth of a kilowatt-hour per segment so far. */
  lemma SegmentEnergySafety(segments: seq<Segment>, envelope: Envelope, up: seq<real>, down: seq<real>, i: nat)
    requires envelope.minEnergy <= envelope.initialEnergy <= envelope.maxEnergy && Sane(segments)
    requires EndEnergies(segments, envelope).Ok? && i < |segments|
    requires ChosenFrom(up, UpGrants(segments, envelope)) && ChosenFrom(down, DownGrants(segments, envelope))
    ensures var used := SumOf(up[..i + 1]) - SumOf(down[..i + 1]);
            && envelope.minEnergy <= EndEnergies(segments, envelope).value[i] - used <= envelope.maxEnergy
            && envelope.minEnergy - Slack(i + 1) <= envelope.initialEnergy + BaselineTotal(segments[..i + 1]) - used
            && envelope.initialEnergy + BaselineTotal(segments[..i + 1]) - used <= envelope.maxEnergy + Slack(i + 1)
  {
    var ends := EndEnergies(segments, envelope).value;
    WantedNonnegative(segments);
    EndEnergiesAre(segments, envelope);
    GrantsFit(UpWanted(segments), UpHeadroom(ends, envelope), i, i);
    GrantsFit(DownWanted(segments), DownHeadroom(ends, envelope), i, i);
    ChosenSum(up, UpGrants(segments, envelope), i + 1);
    ChosenSum(down, DownGrants(segments, envelope), i + 1);
    EndEnergyClose(segments, envelope, i);
  }
}
