/** A change of the residual that no residual stage sees: a reservation is made and cancelled between
    two requests, and the cell stays published. */
module UnobservedResidual {
  import opened Domain
  import opened Rounding
  import opened Publication
  import OS = OfferStore
  import OfferOrdering
  import L = Ledger
  import LedgerRuns
  import LE = LedgerExamples
  import RC = ResidualCapacity
  import SF = SampleFleet

  type Offer = Domain.Offer

  lemma {:induction false} RunExtends(
      states: seq<State>, steps: seq<Step>, step: Step, after: State, minimum: nat, p: Policy)
    requires ValidPolicy(p) && Run(states, steps, minimum, p) && Enabled(states[|steps|], step)
    requires Apply(states[|steps|], step, minimum, p) == after
    ensures Run(states + [after], steps + [step], minimum, p)
  {
    var longer, all := states + [after], steps + [step];
    forall k | 0 <= k < |all|
      ensures Enabled(longer[k], all[k]) && longer[k + 1] == Apply(longer[k], all[k], minimum, p)
    {
      if k < |steps| {
        assert longer[k] == states[k] && longer[k + 1] == states[k + 1] && all[k] == steps[k];
      }
    }
  }

  // ----- Delivering offers

  ghost function Delivered(offers: seq<Offer>): State {
    Init().(store := OfferOrdering.AdmitAll(OS.EMPTY, offers))
  }

  ghost function DeliveryStates(offers: seq<Offer>): (states: seq<State>)
    ensures |states| == |offers| + 1 && states[|offers|] == Delivered(offers)
  {
    if offers == [] then [Init()]
    else DeliveryStates(offers[..|offers| - 1]) + [Delivered(offers)]
  }

  function DeliverySteps(offers: seq<Offer>): (steps: seq<Step>)
    ensures |steps| == |offers|
  {
    if offers == [] then [] else DeliverySteps(offers[..|offers| - 1]) + [Ingest(offers[|offers| - 1])]
  }

  lemma {:induction false} DeliveryRuns(offers: seq<Offer>, minimum: nat, p: Policy)
    requires ValidPolicy(p)
    ensures Run(DeliveryStates(offers), DeliverySteps(offers), minimum, p)
  {
    if offers != [] {
      var init, last := offers[..|offers| - 1], offers[|offers| - 1];
      DeliveryRuns(init, minimum, p);
      RunExtends(DeliveryStates(init), DeliverySteps(init), Ingest(last), Delivered(offers), minimum, p);
    }
  }

  // ----- One cell, asked for twice

  function Whole(cell: Cell): OS.Window {
    OS.Window(cell.tenant, cell.zone, cell.start, cell.end)
  }

  /** A store with one cell of offers only, of enough participants and never suppressed, answers it. */
  ghost predicate Answering(s: OS.Store, cell: Cell, cohort: set<string>, numbers: Numbers) {
    && OS.VisibleCells(s.offers, Whole(cell), 0) == [cell]
    && s.suppressed == {} && cell.start < cell.end
    && (s.cohorts == map[] || s.cohorts == map[cell := cohort])
    && var live := OS.LiveIn(s.offers, cell, 0);
       live != [] && OS.CohortOf(live) == cohort && |cohort| == 10 && OS.NumbersOf(live) == numbers
  }

  lemma AnswerIs(s: OS.Store, cell: Cell, cohort: set<string>, numbers: Numbers)
    requires Answering(s, cell, cohort, numbers)
    ensures OS.Query(s, Whole(cell), 0, 10) == OS.Answer(s.(cohorts := map[cell := cohort]), [Aggregate(cell, numbers, 0)])
    ensures Answering(OS.Query(s, Whole(cell), 0, 10).store, cell, cohort, numbers)
  {
    assert [cell][..0] == [];
    assert OS.PublishAll(s, [], 0, 10) == OS.Answer(s, []);
    assert s.cohorts[cell := cohort] == map[cell := cohort];
    assert !OS.DiffersNextDoor(s.cohorts, cell, cohort);
    assert OS.Publish(s, cell, 0, 10) == OS.Answer(s.(cohorts := map[cell := cohort]), [Aggregate(cell, numbers, 0)]);
  }

  lemma {:induction false} FleetVisible(tenant: string, n: nat, up: real)
    requires n > 0
    ensures OS.VisibleCells(SF.Fleet(tenant, n, up), Whole(SF.CellAt(tenant)), 0) == [SF.CellAt(tenant)]
  {
    SF.FleetIs(tenant, n, up);
    var fleet := SF.Fleet(tenant, n, up);
    assert fleet[..n - 1] == SF.Fleet(tenant, n - 1, up);
    if n > 1 {
      FleetVisible(tenant, n - 1, up);
    }
  }

  // ----- The run

  function Shown(cell: Cell, numbers: Numbers): Aggregate {
    Aggregate(cell, numbers, 0)
  }

  function OnePublished(cell: Cell, numbers: Numbers): Residuals {
    Residuals(map[cell := Remember(Residual(numbers, cell, []))], {})
  }

  lemma AdjustedTwice(cell: Cell, numbers: Numbers)
    ensures AdjustAll(Residuals(map[], {}), [Shown(cell, numbers)], [])
         == Adjusted(OnePublished(cell, numbers), [Shown(cell, Residual(numbers, cell, []))])
    ensures AdjustAll(OnePublished(cell, numbers), [Shown(cell, numbers)], [])
         == Adjusted(OnePublished(cell, numbers), [Shown(cell, Residual(numbers, cell, []))])
  {
    var x, nothing: seq<Aggregate>, none: map<Cell, Remembered> := Shown(cell, numbers), [], map[];
    assert [x][..0] == nothing;
    assert AdjustAll(Residuals(none, {}), nothing, []) == Adjusted(Residuals(none, {}), []);
    assert none[cell := Remember(Residual(numbers, cell, []))] == OnePublished(cell, numbers).published;
    assert OnePublished(cell, numbers).published[cell := Remember(Residual(numbers, cell, []))] == OnePublished(cell, numbers).published;
  }

  ghost function Asked(s: OS.Store, cell: Cell, cohort: set<string>, numbers: Numbers, residuals: Residuals, adjusted: set<Aggregate>): State {
    State(s.(cohorts := map[cell := cohort]), residuals, map[], {Shown(cell, numbers)}, adjusted, {})
  }

  /** The state between requests. */
  ghost function Published(s: OS.Store, cell: Cell, cohort: set<string>, numbers: Numbers): State {
    Asked(s, cell, cohort, numbers, OnePublished(cell, numbers), {Shown(cell, Residual(numbers, cell, []))})
  }

  lemma AskStep(s: State, cell: Cell, cohort: set<string>, numbers: Numbers, p: Policy)
    requires ValidPolicy(p) && Answering(s.store, cell, cohort, numbers)
    ensures Apply(s, Ask(Whole(cell), 0), 10, p) ==
              s.(store := s.store.(cohorts := map[cell := cohort]), queried := s.queried + {Shown(cell, numbers)})
  {
    AnswerIs(s.store, cell, cohort, numbers);
    assert SetOf([Shown(cell, numbers)]) == {Shown(cell, numbers)};
  }

  lemma AdjustStep(s: State, cell: Cell, numbers: Numbers, p: Policy)
    requires ValidPolicy(p)
    requires s.residuals == Residuals(map[], {}) || s.residuals == OnePublished(cell, numbers)
    ensures Apply(s, Adjust([Shown(cell, numbers)], []), 10, p) ==
              s.(residuals := OnePublished(cell, numbers),
                 adjusted := s.adjusted + {Shown(cell, Residual(numbers, cell, []))})
  {
    AdjustedTwice(cell, numbers);
    var passed := Shown(cell, Residual(numbers, cell, []));
    assert SetOf([passed]) == {passed};
  }

  ghost function AfterAsk(s: State, cell: Cell, cohort: set<string>, numbers: Numbers): State {
    s.(store := s.store.(cohorts := map[cell := cohort]), queried := s.queried + {Shown(cell, numbers)})
  }

  /** One request: query and residual stage, with nothing reserved. */
  lemma Request(
      states: seq<State>, steps: seq<Step>, s: State, store: OS.Store, cell: Cell, cohort: set<string>, numbers: Numbers, p: Policy)
    requires ValidPolicy(p) && Run(states, steps, 10, p) && states[|steps|] == s
    requires s == Init().(store := store) || s == Published(store, cell, cohort, numbers)
    requires Answering(s.store, cell, cohort, numbers)
    ensures Run(states + [AfterAsk(s, cell, cohort, numbers)] + [Published(store, cell, cohort, numbers)],
                steps + [Ask(Whole(cell), 0)] + [Adjust([Shown(cell, numbers)], [])], 10, p)
  {
    var asked, after := AfterAsk(s, cell, cohort, numbers), Published(store, cell, cohort, numbers);
    AskStep(s, cell, cohort, numbers, p);
    RunExtends(states, steps, Ask(Whole(cell), 0), asked, 10, p);
    AdjustStep(asked, cell, numbers, p);
    RunExtends(states + [asked], steps + [Ask(Whole(cell), 0)], Adjust([Shown(cell, numbers)], []), after, 10, p);
  }

  lemma PublishedAnswers(store: OS.Store, cell: Cell, cohort: set<string>, numbers: Numbers)
    requires Answering(store, cell, cohort, numbers)
    ensures Answering(Published(store, cell, cohort, numbers).store, cell, cohort, numbers)
  {
    AnswerIs(store, cell, cohort, numbers);
  }

  // ----- The reservation in between

  const KEY := "key"

  function Reserved(): L.Book {
    LE.FirstBook("a", KEY, 0)
  }

  function CalledOff(): L.Book {
    L.Cancel(Reserved(), 1, 0).book
  }

  lemma CalledOffIs()
    ensures CalledOff().entries == [LE.FirstEntry("a", KEY, 0).(reservation := LE.FirstEntry("a", KEY, 0).reservation.(status := CANCELLED))]
    ensures Reserved().entries == [LE.FirstEntry("a", KEY, 0)]
  {
    LE.NotExpiredYet("a", KEY);
    assert Reserved().entries == [LE.FirstEntry("a", KEY, 0)];
    assert L.IndexOf(Reserved().entries, 1) == 0;
  }

  lemma LedgerRun(s: OS.Store, scope: L.Scope)
    requires LE.Supplied(s, "a", 0)
    ensures LedgerRuns.Run([L.EMPTY_BOOK, Reserved(), CalledOff()],
                           [LE.FirstStep("a", KEY, s, 0), LedgerRuns.CallOff(1, 0)], scope)
  {
    LE.FirstRuns("a", KEY, s, scope, 0);
    LE.TwoSteps(LE.FirstStep("a", KEY, s, 0), Reserved(), LedgerRuns.CallOff(1, 0), scope);
  }

  lemma ActiveBetween()
    ensures RC.ActiveReservations(L.EMPTY_BOOK.entries) == [] == RC.ActiveReservations(CalledOff().entries)
    ensures RC.ActiveReservations(Reserved().entries) == [LE.FirstEntry("a", KEY, 0).reservation]
  {
    CalledOffIs();
    assert Reserved().entries[..0] == [] && CalledOff().entries[..0] == [];
    assert RC.ActiveReservations([]) == [];
  }

  lemma ReservedIsLess(numbers: Numbers)
    requires numbers.up == 10.0
    ensures Remember(Residual(numbers, SF.CellAt("a"), [])) !=
            Remember(Residual(numbers, SF.CellAt("a"), [LE.FirstEntry("a", KEY, 0).reservation]))
  {
    var r, cell := LE.FirstEntry("a", KEY, 0).reservation, SF.CellAt("a");
    assert [r][..0] == [];
    assert LE.FIRST[..0] == [];
    assert L.Power([]) == 0.0;
    assert r.allocatedPower == 1.0;
    assert ReservedPower([], cell, UPWARD) == 0.0;
    assert ReservedPower([r], cell, UPWARD) == 1.0;
    Round6Error(10.0);
    Round6Error(9.0);
  }

  /** A reservation that was made and cancelled between two requests leaves the cell published, though
      the residual was another meanwhile, as a stage would have noticed. */
  lemma UnobservedChange(
      s: OS.Store, cohort: set<string>, numbers: Numbers, states: seq<State>, steps: seq<Step>, p: Policy, scope: L.Scope)
    requires ValidPolicy(p) && LE.Supplied(s, "a", 0) && numbers.up == 10.0
    requires Answering(s, SF.CellAt("a"), cohort, numbers)
    requires Run(states, steps, 10, p) && states[|steps|] == Init().(store := s)
    ensures var cell, published := SF.CellAt("a"), Published(s, SF.CellAt("a"), cohort, numbers);
            var first := Adjust([Shown(cell, numbers)], RC.ActiveReservations(L.EMPTY_BOOK.entries));
            var second := Adjust([Shown(cell, numbers)], RC.ActiveReservations(CalledOff().entries));
            && LedgerRuns.Run([L.EMPTY_BOOK, Reserved(), CalledOff()],
                              [LE.FirstStep("a", KEY, s, 0), LedgerRuns.CallOff(1, 0)], scope)
            && Run(states + [AfterAsk(Init().(store := s), cell, cohort, numbers)] + [published]
                          + [AfterAsk(published, cell, cohort, numbers)] + [published],
                   steps + [Ask(Whole(cell), 0)] + [first] + [Ask(Whole(cell), 0)] + [second], 10, p)
            && Notices(published.residuals, [Shown(cell, numbers)], RC.ActiveReservations(Reserved().entries), cell)
            && cell !in published.residuals.suppressed
            && Carries(AdjustAll(published.residuals, second.aggregates, second.reservations).aggregates, cell)
  {
    var cell, published := SF.CellAt("a"), Published(s, SF.CellAt("a"), cohort, numbers);
    ActiveBetween();
    LedgerRun(s, scope);
    Request(states, steps, Init().(store := s), s, cell, cohort, numbers, p);
    PublishedAnswers(s, cell, cohort, numbers);
    Request(states + [AfterAsk(Init().(store := s), cell, cohort, numbers)] + [published],
            steps + [Ask(Whole(cell), 0)] + [Adjust([Shown(cell, numbers)], [])], published, s, cell, cohort, numbers, p);
    AdjustedTwice(cell, numbers);
    ReservedIsLess(numbers);
    assert Shown(cell, numbers) in [Shown(cell, numbers)];
    assert Shown(cell, Residual(numbers, cell, [])) in [Shown(cell, Residual(numbers, cell, []))];
  }

  /** Such a store is reached: ten offers of a kilowatt delivered to an empty one. */
  lemma FleetAnswers(p: Policy)
    requires ValidPolicy(p)
    ensures var fleet, s := SF.Fleet("a", 10, 1.0), SF.FleetStore("a", 10, 1.0);
            && fleet != [] && OS.NumbersOf(fleet).up == 10.0
            && LE.Supplied(s, "a", 0) && Answering(s, SF.CellAt("a"), OS.CohortOf(fleet), OS.NumbersOf(fleet))
            && Run(DeliveryStates(fleet), DeliverySteps(fleet), 10, p) && DeliveryStates(fleet)[|fleet|] == Init().(store := s)
  {
    var fleet := SF.Fleet("a", 10, 1.0);
    SF.FleetStored("a", 10, 1.0, 0);
    SF.FleetIs("a", 10, 1.0);
    SF.FleetCohort("a", 10, 1.0);
    LE.FleetSupplies("a", 0);
    FleetVisible("a", 10, 1.0);
    SF.FleetSourcesDistinct("a", 10, 1.0);
    SF.AllDelivered(fleet);
    RC.FleetSum("a", 10, 1.0);
    RC.TenTimes(1.0);
    RC.SumIsCapacity(fleet, UPWARD);
    Round6Error(10.0);
    DeliveryRuns(fleet, 10, p);
  }
}
