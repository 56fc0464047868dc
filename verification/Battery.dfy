/** The battery simulator (src/der_flex/simulators/battery.py) and the record provisioned from it
    (src/der_flex/simulators/provisioning.py): what it forecasts, the normaliser accepts. */
module Battery {
  import opened Domain
  import P = Pebc

  datatype Battery = Battery(
    resource: string, zone: string, capacity: real, charge: real, power: real,
    maxCharge: real, maxDischarge: real, minCharge: real, maxCharged: real, maxRamp: real,
    consequence: Consequence, epoch: nat, sequence: nat)

  predicate PowerAllowed(b: Battery, power: real) {
    -b.maxDischarge <= power <= b.maxCharge
  }

  /** What the constructor accepts; every operation keeps it. */
  predicate Valid(b: Battery) {
    && b.capacity > 0.0
    && 0.0 <= b.minCharge < b.maxCharged <= 1.0
    && b.minCharge <= b.charge <= b.maxCharged
    && b.maxCharge >= 0.0 && b.maxDischarge >= 0.0 && b.maxRamp >= 0.0
    && PowerAllowed(b, b.power)
  }

  function StoredEnergy(b: Battery): real { b.charge * b.capacity }

  function MinimumEnergy(b: Battery): real { b.minCharge * b.capacity }

  function MaximumEnergy(b: Battery): real { b.maxCharged * b.capacity }

  lemma EnergyInRange(b: Battery)
    requires Valid(b)
    ensures MinimumEnergy(b) <= StoredEnergy(b) <= MaximumEnergy(b) && MinimumEnergy(b) < MaximumEnergy(b)
    ensures b.charge == b.minCharge <==> StoredEnergy(b) == MinimumEnergy(b)
    ensures b.charge == b.maxCharged <==> StoredEnergy(b) == MaximumEnergy(b)
  {
    assert (b.charge - b.minCharge) * b.capacity == StoredEnergy(b) - MinimumEnergy(b);
    assert (b.maxCharged - b.charge) * b.capacity == MaximumEnergy(b) - StoredEnergy(b);
  }

  // ----- Operations

  function SetPower(b: Battery, power: real): Option<Battery> {
    if !PowerAllowed(b, power) then None
    else Some(b.(sequence := if power != b.power then b.sequence + 1 else b.sequence, power := power))
  }

  function Restart(b: Battery, power: Option<real>): Option<Battery> {
    if power.Some? && !PowerAllowed(b, power.value) then None
    else Some(b.(epoch := b.epoch + 1, sequence := 0, power := if power.Some? then power.value else b.power))
  }

  /** The state of charge a constant power leads to. */
  function Charged(charge: real, power: real, minutes: int, capacity: real): real
    requires capacity > 0.0
  {
    charge + power * (minutes as real / 60.0) / capacity
  }

  function Advance(b: Battery, minutes: int): Battery
    requires b.capacity > 0.0
  {
    var next := Charged(b.charge, b.power, minutes, b.capacity);
    var bounded := Max(b.minCharge, Min(b.maxCharged, next));
    b.(sequence := if bounded != b.charge then b.sequence + 1 else b.sequence, charge := bounded)
  }

  // ----- Forecast

  const QUARTER_HOUR: int := 900_000_000

  function LowestPower(b: Battery, energy: real): real {
    Max(-b.maxDischarge, (MinimumEnergy(b) - energy) / 0.25)
  }

  function HighestPower(b: Battery, energy: real): real {
    Min(b.maxCharge, (MaximumEnergy(b) - energy) / 0.25)
  }

  function ForecastPower(b: Battery, energy: real): real {
    Max(LowestPower(b, energy), Min(HighestPower(b, energy), b.power))
  }

  /** The stored energy after n forecast intervals. */
  function ForecastEnergy(b: Battery, n: nat): real {
    if n == 0 then StoredEnergy(b)
    else ForecastEnergy(b, n - 1) + ForecastPower(b, ForecastEnergy(b, n - 1)) * 0.25
  }

  function ElementOf(power: real): P.Element {
    P.Element(900_000, [P.PowerValue(true, power * 1000.0, Some((power - 0.2) * 1000.0), Some((power + 0.2) * 1000.0))])
  }

  function Elements(b: Battery, n: nat): (elements: seq<P.Element>)
    ensures |elements| == n
  {
    if n == 0 then [] else Elements(b, n - 1) + [ElementOf(ForecastPower(b, ForecastEnergy(b, n - 1)))]
  }

  function ChargeLimit(b: Battery): real {
    if b.charge < b.maxCharged then b.maxCharge else 0.0
  }

  function DischargeLimit(b: Battery): real {
    if b.charge > b.minCharge then b.maxDischarge else 0.0
  }

  datatype Messages = Messages(constraints: P.Constraints, forecast: P.Forecast)

  function RangesOf(b: Battery): seq<P.LimitRange> {
    [P.LimitRange(true, true, false, -DischargeLimit(b) * 1000.0, ChargeLimit(b) * 1000.0),
     P.LimitRange(true, false, false, -DischargeLimit(b) * 1000.0, ChargeLimit(b) * 1000.0)]
  }

  /** The constraint identifier, a name-based UUID in the source, is a parameter. */
  function OfferMessages(b: Battery, start: Time, n: int, id: string): Option<Messages> {
    if n < 1 || n > 96 then None
    else
      Some(Messages(
        P.Constraints(id, start, Some(start + n * QUARTER_HOUR), b.consequence, RangesOf(b)),
        P.Forecast(start, Elements(b, n))))
  }

  /** What a provisioned record accepts. */
  predicate Provisionable(e: P.Envelope) {
    && -100_000.0 <= e.minPower <= e.maxPower <= 100_000.0
    && 0.0 <= e.minEnergy <= e.initialEnergy <= e.maxEnergy <= 1_000_000_000.0
    && 0.0 <= e.rampRate <= 100_000.0
  }

  /** The record provisioned from the simulator's own state, if it is within bounds. */
  function Provision(b: Battery): Option<P.Envelope> {
    if Provisionable(EnvelopeOf(b)) then Some(EnvelopeOf(b)) else None
  }

  /** A valid battery is only refused a record for being too large. */
  lemma ProvisionedExactly(b: Battery)
    requires Valid(b)
    ensures Provision(b).Some? <==>
              && b.maxDischarge <= 100_000.0 && b.maxCharge <= 100_000.0
              && MaximumEnergy(b) <= 1_000_000_000.0 && b.maxRamp <= 100_000.0
  {
    EnergyInRange(b);
    assert b.minCharge * b.capacity >= 0.0;
  }

  function EnvelopeOf(b: Battery): P.Envelope {
    P.Envelope(-b.maxDischarge, b.maxCharge, MinimumEnergy(b), MaximumEnergy(b), StoredEnergy(b), b.maxRamp)
  }

  // ----- The forecast stays in range

  lemma PowerInRange(b: Battery, energy: real)
    requires Valid(b) && MinimumEnergy(b) <= energy <= MaximumEnergy(b)
    ensures PowerAllowed(b, ForecastPower(b, energy))
    ensures MinimumEnergy(b) <= energy + ForecastPower(b, energy) * 0.25 <= MaximumEnergy(b)
  {
  }

  /** The forecast keeps the stored energy and the power in range, interval by interval. */
  lemma {:induction false} ForecastInRange(b: Battery, n: nat)
    requires Valid(b)
    ensures MinimumEnergy(b) <= ForecastEnergy(b, n) <= MaximumEnergy(b)
    ensures PowerAllowed(b, ForecastPower(b, ForecastEnergy(b, n)))
  {
    if n == 0 {
      EnergyInRange(b);
    } else {
      ForecastInRange(b, n - 1);
      PowerInRange(b, ForecastEnergy(b, n - 1));
    }
    PowerInRange(b, ForecastEnergy(b, n));
  }

  /** An empty battery never forecasts a discharge, nor a full one a charge: the limits it sends
      in its constraints hold for every interval. */
  lemma {:induction false} LimitsHold(b: Battery, n: nat)
    requires Valid(b)
    ensures b.charge == b.minCharge && b.power < 0.0 ==> ForecastEnergy(b, n) == MinimumEnergy(b)
    ensures b.charge == b.maxCharged && b.power > 0.0 ==> ForecastEnergy(b, n) == MaximumEnergy(b)
    ensures -DischargeLimit(b) <= ForecastPower(b, ForecastEnergy(b, n)) <= ChargeLimit(b)
  {
    EnergyInRange(b);
    ForecastInRange(b, n);
    if n > 0 {
      LimitsHold(b, n - 1);
    }
  }

  // ----- The forecast follows the set power

  /** A power the battery can keep up for some hours from a stored energy. */
  predicate Lasts(b: Battery, energy: real, power: real, hours: real) {
    PowerAllowed(b, power) && MinimumEnergy(b) <= energy + power * hours <= MaximumEnergy(b)
  }

  function Distance(x: real, y: real): real {
    if x <= y then y - x else x - y
  }

  /** Each interval forecasts the power that was set, if the battery can keep it up for a quarter of
      an hour, and else the nearest that it can. */
  lemma ForecastFollows(b: Battery, n: nat, power: real)
    requires Valid(b)
    ensures var energy := ForecastEnergy(b, n);
            && Lasts(b, energy, ForecastPower(b, energy), 0.25)
            && (Lasts(b, energy, b.power, 0.25) ==> ForecastPower(b, energy) == b.power)
            && (Lasts(b, energy, power, 0.25) ==>
                  Distance(ForecastPower(b, energy), b.power) <= Distance(power, b.power))
  {
    ForecastInRange(b, n);
    PowerInRange(b, ForecastEnergy(b, n));
  }

  lemma {:induction false} ElementAt(b: Battery, n: nat, k: nat)
    requires k < n
    ensures Elements(b, n)[k] == ElementOf(ForecastPower(b, ForecastEnergy(b, k)))
  {
    if k < n - 1 {
      ElementAt(b, n - 1, k);
    }
  }

  /** Its messages forecast, quarter of an hour by quarter of an hour, that power within 0.2 kW, and
      hold for exactly the forecast's time. */
  lemma MessagesForecast(b: Battery, start: Time, n: nat, id: string, messages: Messages, k: nat)
    requires Valid(b) && OfferMessages(b, start, n, id) == Some(messages) && k < n
    ensures messages.constraints.validFrom == messages.forecast.start == start
    ensures |messages.forecast.elements| == n
    ensures messages.constraints.validUntil == Some(P.CursorAfter(start, messages.forecast.elements))
    ensures var element, watts := messages.forecast.elements[k], ForecastPower(b, ForecastEnergy(b, k)) * 1000.0;
            && element.milliseconds == 15 * 60 * 1000
            && element.values == [P.PowerValue(true, watts, Some(watts - 200.0), Some(watts + 200.0))]
  {
    ElementAt(b, n, k);
    CursorAfterAll(b, start, n);
  }

  lemma {:induction false} CursorAfterAll(b: Battery, start: Time, n: nat)
    ensures P.CursorAfter(start, Elements(b, n)) == start + n * QUARTER_HOUR
  {
    if n > 0 {
      CursorAfterAll(b, start, n - 1);
      assert Elements(b, n)[..n - 1] == Elements(b, n - 1);
    }
  }

  /** The limits a battery sends admit exactly the powers it can keep up for some time. */
  lemma LimitsExactly(b: Battery, power: real)
    requires Valid(b)
    ensures -DischargeLimit(b) <= power <= ChargeLimit(b) <==>
              exists hours: real :: hours > 0.0 && Lasts(b, StoredEnergy(b), power, hours)
  {
    EnergyInRange(b);
    if -DischargeLimit(b) <= power <= ChargeLimit(b) {
      var hours := Endurance(b, power);
      assert hours > 0.0 && Lasts(b, StoredEnergy(b), power, hours);
    }
    forall hours: real | hours > 0.0 && Lasts(b, StoredEnergy(b), power, hours)
      ensures -DischargeLimit(b) <= power <= ChargeLimit(b)
    {
      SameSign(power, hours);
    }
  }

  /** So each range of its constraints holds exactly those powers, for its own quantity and for normal
      conditions, one range of each kind. */
  lemma RangesExactly(b: Battery, power: real, range: P.LimitRange)
    requires Valid(b) && range in RangesOf(b)
    ensures range.start <= power * 1000.0 <= range.end <==>
              exists hours: real :: hours > 0.0 && Lasts(b, StoredEnergy(b), power, hours)
    ensures range.supported && !range.abnormal && |RangesOf(b)| == 2
    ensures exists other :: other in RangesOf(b) && other == range.(upper := !range.upper)
  {
    LimitsExactly(b, power);
    assert RangesOf(b)[0] in RangesOf(b) && RangesOf(b)[1] in RangesOf(b);
  }

  lemma SameSign(power: real, hours: real)
    requires hours > 0.0
    ensures power > 0.0 <==> power * hours > 0.0
    ensures power < 0.0 <==> power * hours < 0.0
  {
  }

  /** How long a power within the limits can be kept up. */
  lemma Endurance(b: Battery, power: real) returns (hours: real)
    requires Valid(b) && -DischargeLimit(b) <= power <= ChargeLimit(b)
    ensures hours > 0.0 && Lasts(b, StoredEnergy(b), power, hours)
  {
    EnergyInRange(b);
    if power == 0.0 {
      return 1.0;
    }
    var room := if power > 0.0 then MaximumEnergy(b) - StoredEnergy(b) else MinimumEnergy(b) - StoredEnergy(b);
    hours := room / power;
    assert hours * power == room;
    SameSignQuotient(room, power, hours);
  }

  lemma SameSignQuotient(room: real, power: real, hours: real)
    requires hours * power == room && ((room > 0.0 && power > 0.0) || (room < 0.0 && power < 0.0))
    ensures hours > 0.0
  {
  }

  // ----- Time moves the charge

  lemma ScaledClamp(low: real, high: real, x: real, factor: real)
    requires factor > 0.0
    ensures Max(low, Min(high, x)) * factor == Max(low * factor, Min(high * factor, x * factor))
  {
    ProductsOrdered(low, Min(high, x), factor);
    ProductsOrdered(high, x, factor);
  }

  lemma ProductsOrdered(x: real, y: real, factor: real)
    requires factor > 0.0
    ensures x <= y <==> x * factor <= y * factor
  {
    assert (y - x) * factor == y * factor - x * factor;
  }

  lemma ChargedEnergy(charge: real, power: real, minutes: int, capacity: real)
    requires capacity > 0.0
    ensures Charged(charge, power, minutes, capacity) * capacity == charge * capacity + power * (minutes as real / 60.0)
  {
    var delta := power * (minutes as real / 60.0);
    assert delta / capacity * capacity == delta;
  }

  /** Time adds power times hours to the stored energy, as far as it stays in the battery's range. */
  lemma AdvanceStores(b: Battery, minutes: int)
    requires Valid(b)
    ensures StoredEnergy(Advance(b, minutes)) ==
              Max(MinimumEnergy(b), Min(MaximumEnergy(b), StoredEnergy(b) + b.power * (minutes as real / 60.0)))
    ensures Advance(b, minutes).power == b.power
  {
    ChargedEnergy(b.charge, b.power, minutes, b.capacity);
    Bounded(b, Charged(b.charge, b.power, minutes, b.capacity), StoredEnergy(b) + b.power * (minutes as real / 60.0));
  }

  lemma Bounded(b: Battery, next: real, energy: real)
    requires b.capacity > 0.0 && next * b.capacity == energy
    ensures Max(b.minCharge, Min(b.maxCharged, next)) * b.capacity == Max(MinimumEnergy(b), Min(MaximumEnergy(b), energy))
  {
    ScaledClamp(b.minCharge, b.maxCharged, next, b.capacity);
  }

  /** A quarter of an hour at the set power reaches the energy its forecast begins with. */
  lemma AdvanceMeetsForecast(b: Battery)
    requires Valid(b)
    ensures StoredEnergy(Advance(b, 15)) == ForecastEnergy(b, 1)
  {
    AdvanceStores(b, 15);
    EnergyInRange(b);
  }

  // ----- Positions

  datatype Operation = Setting(power: real) | Restarting(newPower: Option<real>) | Advancing(minutes: int)

  /** A refused operation raises and changes nothing. */
  function After(b: Battery, operation: Operation): Battery
    requires b.capacity > 0.0
  {
    match operation
    case Setting(power) => if SetPower(b, power).Some? then SetPower(b, power).value else b
    case Restarting(power) => if Restart(b, power).Some? then Restart(b, power).value else b
    case Advancing(minutes) => Advance(b, minutes)
  }

  lemma OperationKeeps(b: Battery, operation: Operation)
    requires Valid(b)
    ensures Valid(After(b, operation))
  {
  }

  /** A setting within the limits is taken over and a restart opens the next session; the sequence
      counts the changes within one, and nothing else of the battery changes. */
  lemma SettingsTake(b: Battery, power: real)
    requires b.capacity > 0.0
    ensures var changed := After(b, Setting(power));
            && changed == b.(power := changed.power, sequence := changed.sequence)
            && changed.power == (if -b.maxDischarge <= power <= b.maxCharge then power else b.power)
            && changed.sequence == (if changed.power == b.power then b.sequence else b.sequence + 1)
    ensures var restarted := After(b, Restarting(Some(power)));
            if -b.maxDischarge <= power <= b.maxCharge
            then restarted == b.(power := power, epoch := b.epoch + 1, sequence := 0)
            else restarted == b
    ensures After(b, Restarting(None)) == b.(epoch := b.epoch + 1, sequence := 0)
  {
  }

  ghost predicate Run(states: seq<Battery>, operations: seq<Operation>) {
    && |states| == |operations| + 1 && Valid(states[0])
    && forall k :: 0 <= k < |operations| ==>
         states[k].capacity > 0.0 && states[k + 1] == After(states[k], operations[k])
  }

  /** A battery that was accepted once stays valid, whatever is asked of it. */
  lemma {:induction false} StaysValid(states: seq<Battery>, operations: seq<Operation>, k: nat)
    requires Run(states, operations) && k < |states|
    ensures Valid(states[k])
  {
    if k > 0 {
      StaysValid(states, operations, k - 1);
      OperationKeeps(states[k - 1], operations[k - 1]);
    }
  }

  predicate NotAfter(b: Battery, c: Battery) {
    b.epoch < c.epoch || (b.epoch == c.epoch && b.sequence <= c.sequence)
  }

  /** A source position is used for one state only: along any run positions never go back, and two
      moments with the same position have the same state. */
  lemma {:induction false} PositionIdentifiesState(states: seq<Battery>, operations: seq<Operation>, j: nat, k: nat)
    requires Run(states, operations) && j <= k < |states|
    ensures NotAfter(states[j], states[k])
    ensures states[j].epoch == states[k].epoch && states[j].sequence == states[k].sequence ==> states[j] == states[k]
  {
    if j < k {
      PositionIdentifiesState(states, operations, j, k - 1);
      var b := states[k - 1];
      assert states[k] == After(b, operations[k - 1]);
      assert NotAfter(b, states[k]);
    }
  }

  // ----- The simulator

  class BatterySimulator {
    const resource: string
    const zone: string
    const capacity: real
    var charge: real
    var power: real
    const maxCharge: real
    const maxDischarge: real
    const minCharge: real
    const maxCharged: real
    const maxRamp: real
    const consequence: Consequence
    var epoch: nat
    var sequence: nat

    function Model(): Battery
      reads this
    {
      Battery(resource, zone, capacity, charge, power, maxCharge, maxDischarge, minCharge, maxCharged, maxRamp,
              consequence, epoch, sequence)
    }

    constructor (b: Battery)
      requires Valid(b) && b.epoch == 0 == b.sequence
      ensures Model() == b
    {
      resource, zone, capacity, charge, power := b.resource, b.zone, b.capacity, b.charge, b.power;
      maxCharge, maxDischarge, minCharge, maxCharged := b.maxCharge, b.maxDischarge, b.minCharge, b.maxCharged;
      maxRamp, consequence, epoch, sequence := b.maxRamp, b.consequence, 0, 0;
    }

    method ChangePower(power: real) returns (accepted: bool)
      requires Valid(Model())
      modifies this`power, this`sequence
      ensures Valid(Model()) && Model() == After(old(Model()), Setting(power))
      ensures accepted <==> PowerAllowed(old(Model()), power)
    {
      if !(-maxDischarge <= power <= maxCharge) {
        return false;
      }
      if power != this.power {
        sequence := sequence + 1;
      }
      this.power := power;
      return true;
    }

    method RestartSession(power: Option<real>) returns (accepted: bool)
      requires Valid(Model())
      modifies this`epoch, this`sequence, this`power
      ensures Valid(Model()) && Model() == After(old(Model()), Restarting(power))
      ensures accepted <==> power.None? || PowerAllowed(old(Model()), power.value)
    {
      if power.Some? && !(-maxDischarge <= power.value <= maxCharge) {
        return false;
      }
      epoch := epoch + 1;
      sequence := 0;
      if power.Some? {
        this.power := power.value;
      }
      return true;
    }

    method AdvanceTime(minutes: int)
      requires Valid(Model())
      modifies this`charge, this`sequence
      ensures Valid(Model()) && Model() == After(old(Model()), Advancing(minutes))
    {
      var next := Charged(charge, power, minutes, capacity);
      var bounded := Max(minCharge, Min(maxCharged, next));
      if bounded != charge {
        sequence := sequence + 1;
      }
      charge := bounded;
    }

    method S2OfferMessages(start: Time, intervals: int, id: string) returns (messages: Option<Messages>)
      requires Valid(Model())
      ensures messages == OfferMessages(Model(), start, intervals, id)
    {
      if intervals < 1 || intervals > 96 {
        return None;
      }
      var elements: seq<P.Element> := [];
      var energy := StoredEnergy(Model());
      for i := 0 to intervals
        invariant elements == Elements(Model(), i) && energy == ForecastEnergy(Model(), i)
      {
        var forecast := ForecastPower(Model(), energy);
        elements := elements + [ElementOf(forecast)];
        energy := energy + forecast * 0.25;
      }
      return Some(Messages(
        P.Constraints(id, start, Some(start + intervals * QUARTER_HOUR), consequence, RangesOf(Model())),
        P.Forecast(start, elements)));
    }
  }
}
