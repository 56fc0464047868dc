/** Exactly when the order in which a distribution lists its requirements is irrelevant to the first-in
    first-out closure. A marker that holds without extras but not with some extra makes it matter: its
    requirement keeps the edge if its package is processed before that extra is asked of it. */
module DependencyOrder {
  import opened Domain
  import opened DependencyClosure
  import opened DependencyInventory

  type Marker = string -> bool

  // ----- The same requirements in another order

  ghost predicate SameRequirements(installed: Installed, other: Installed) {
    && installed.Keys == other.Keys
    && forall n :: n in installed ==> multiset(installed[n]) == multiset(other[n])
  }

  /** Every requirement's marker is this one, or there is none. */
  ghost predicate BuiltFrom(installed: Installed, marker: Marker) {
    forall n, i :: n in installed && 0 <= i < |installed[n]| ==> installed[n][i].marker in {None, Some(marker)}
  }

  ghost predicate MonotoneAlways(marker: Marker) {
    marker("") ==> forall e :: marker(e)
  }

  lemma BuiltIsMonotone(installed: Installed, marker: Marker)
    requires BuiltFrom(installed, marker) && MonotoneAlways(marker)
    ensures Monotone(installed)
  {
  }

  lemma SameMembers(requirements: seq<Requirement>, others: seq<Requirement>, r: Requirement)
    requires multiset(requirements) == multiset(others) && r in requirements
    ensures r in others
  {
    assert r in multiset(requirements);
  }

  lemma SameBuilt(installed: Installed, other: Installed, marker: Marker)
    requires SameRequirements(installed, other) && BuiltFrom(installed, marker)
    ensures BuiltFrom(other, marker)
  {
    forall n, i | n in other && 0 <= i < |other[n]|
      ensures other[n][i].marker in {None, Some(marker)}
    {
      SameMembers(other[n], installed[n], other[n][i]);
      var k :| 0 <= k < |installed[n]| && installed[n][k] == other[n][i];
    }
  }

  /** What is closed does not depend on the order of the requirements. */
  lemma SameClosed(installed: Installed, other: Installed, root: string, x: Resolution)
    requires SameRequirements(installed, other) && Closed(installed, root, x)
    ensures Closed(other, root, x)
  {
    var s := State(x.extras, [], x.graph);
    forall n | n in x.graph
      ensures RecordedUpTo(s, n, other[n])
    {
      assert RecordedUpTo(s, n, installed[n]);
      forall i | 0 <= i < |other[n]|
        ensures Recorded(s, n, other[n][i])
      {
        SameMembers(other[n], installed[n], other[n][i]);
        var k :| 0 <= k < |installed[n]| && installed[n][k] == other[n][i];
        assert Recorded(s, n, installed[n][k]);
      }
    }
  }

  lemma SameLeast(installed: Installed, other: Installed, root: string, x: Resolution)
    requires SameRequirements(installed, other) && Least(installed, root, x)
    ensures Least(other, root, x)
  {
    SameClosed(installed, other, root, x);
    forall y | Closed(other, root, y)
      ensures Within(x, y)
    {
      SameClosed(other, installed, root, y);
    }
  }

  /** A finished run that always takes the package waiting longest. */
  ghost predicate FirstInFirstOut(installed: Installed, root: string, states: seq<State>, choices: seq<nat>) {
    && Order(installed, root, states, choices) && states[|choices|].pending == []
    && forall i :: 0 <= i < |choices| ==> choices[i] == 0
  }

  lemma MonotoneAgrees(
      marker: Marker, installed: Installed, other: Installed, root: string,
      states: seq<State>, choices: seq<nat>, others: seq<State>, picks: seq<nat>)
    requires MonotoneAlways(marker) && BuiltFrom(installed, marker) && SameRequirements(installed, other)
    requires FirstInFirstOut(installed, root, states, choices) && FirstInFirstOut(other, root, others, picks)
    ensures ResolutionOf(states[|choices|]) == ResolutionOf(others[|picks|])
  {
    SameBuilt(installed, other, marker);
    BuiltIsMonotone(installed, marker);
    BuiltIsMonotone(other, marker);
    AnyOrderResolves(installed, root, states, choices);
    AnyOrderResolves(other, root, others, picks);
    SameLeast(installed, other, root, ResolutionOf(states[|choices|]));
    LeastIsUnique(other, root, ResolutionOf(states[|choices|]), ResolutionOf(others[|picks|]));
  }

  // ----- For any other marker, an inventory where the order matters

  function Plain(target: string): Requirement {
    Requirement(target, {}, None)
  }

  function OnlyWithoutExtras(marker: Marker): Requirement {
    Requirement("c", {}, Some(marker))
  }

  function AskingForExtra(x: string): Requirement {
    Requirement("a", {x}, None)
  }

  /** r needs a and b, in either order; a needs c under the marker; b asks a for the extra x. */
  function Example(marker: Marker, x: string, roots: seq<Requirement>): Installed {
    map["r" := roots, "a" := [OnlyWithoutExtras(marker)], "b" := [AskingForExtra(x)], "c" := []]
  }

  function AB(): seq<Requirement> {
    [Plain("a"), Plain("b")]
  }

  function BA(): seq<Requirement> {
    [Plain("b"), Plain("a")]
  }

  function RootDone(pending: seq<string>): State {
    State(map["r" := {}, "a" := {}, "b" := {}], pending, map["r" := {"a", "b"}])
  }

  // a listed first: c is found before the extra is asked for.

  function AFirst(): State {
    State(map["r" := {}, "a" := {}, "b" := {}, "c" := {}], ["b", "c"], map["r" := {"a", "b"}, "a" := {"c"}])
  }

  function ThenB(x: string): State {
    State(map["r" := {}, "a" := {x}, "b" := {}, "c" := {}], ["c", "a"], map["r" := {"a", "b"}, "a" := {"c"}, "b" := {"a"}])
  }

  function ThenC(x: string): State {
    State(map["r" := {}, "a" := {x}, "b" := {}, "c" := {}], ["a"], map["r" := {"a", "b"}, "a" := {"c"}, "b" := {"a"}, "c" := {}])
  }

  function WithC(x: string): State {
    ThenC(x).(pending := [])
  }

  // b listed first: a is only processed with its extra.

  function BFirst(x: string): State {
    State(map["r" := {}, "a" := {x}, "b" := {}], ["a"], map["r" := {"a", "b"}, "b" := {"a"}])
  }

  function WithoutC(x: string): State {
    State(map["r" := {}, "a" := {x}, "b" := {}], [], map["r" := {"a", "b"}, "a" := {}, "b" := {"a"}])
  }

  lemma VisitOne(installed: Installed, s: State, parent: string, r: Requirement)
    requires parent in s.extras && parent in s.graph
    ensures VisitAll(installed, s, parent, [r]) == Visit(installed, s, parent, r)
  {
    assert [r][..0] == [];
    assert VisitAll(installed, s, parent, []) == Some(s);
  }

  /** A visit, with the state it leads to spelled out. */
  lemma VisitTo(
      installed: Installed, s: State, parent: string, r: Requirement, previous: set<string>,
      asked: set<string>, edges: set<string>, after: State)
    requires parent in s.extras && parent in s.graph && r.target in installed && Applies(r, s.extras[parent])
    requires previous == if r.target in s.extras then s.extras[r.target] else {}
    requires r.target !in s.graph || r.extras - previous != {}
    requires asked == previous + r.extras && edges == s.graph[parent] + {r.target}
    requires after.extras == s.extras[r.target := asked]
    requires after.pending == if r.target !in s.pending then s.pending + [r.target] else s.pending
    requires after.graph == s.graph[parent := edges]
    ensures Visit(installed, s, parent, r) == Some(after)
  {
  }

  lemma MarkerHolds(marker: Marker, x: string)
    requires marker("") && !marker(x)
    ensures Applies(OnlyWithoutExtras(marker), {}) && !Applies(OnlyWithoutExtras(marker), {x})
  {
    var none: set<string> := {};
    assert "" in Contexts(none);
    assert Contexts({x}) == {x};
  }

  lemma RootStep(marker: Marker, x: string, first: string, second: string, roots: seq<Requirement>)
    requires (first == "a" && second == "b") || (first == "b" && second == "a")
    requires roots == [Plain(first), Plain(second)]
    ensures Chosen(Example(marker, x, roots), Start("r"), 0, RootDone([first, second]))
  {
    var installed := Example(marker, x, roots);
    var taken := State(map["r" := {}], [], map["r" := {}]);
    var found := State(map["r" := {}, first := {}], [first], map["r" := {first}]);
    assert Taken(Start("r"), 0) == taken;
    VisitTo(installed, taken, "r", Plain(first), {}, {}, {first}, found);
    VisitOne(installed, taken, "r", Plain(first));
    VisitTo(installed, found, "r", Plain(second), {}, {}, {"a", "b"}, RootDone([first, second]));
    assert roots[..1] == [Plain(first)];
  }

  lemma AFirstStep(marker: Marker, x: string)
    requires marker("") && !marker(x)
    ensures Chosen(Example(marker, x, AB()), RootDone(["a", "b"]), 0, AFirst())
  {
    var taken := State(RootDone(["a", "b"]).extras, ["b"], map["r" := {"a", "b"}, "a" := {}]);
    assert Taken(RootDone(["a", "b"]), 0) == taken by {
      assert Taken(RootDone(["a", "b"]), 0).graph == taken.graph;
    }
    MarkerHolds(marker, x);
    VisitTo(Example(marker, x, AB()), taken, "a", OnlyWithoutExtras(marker), {}, {}, {"c"}, AFirst());
    VisitOne(Example(marker, x, AB()), taken, "a", OnlyWithoutExtras(marker));
  }

  lemma ThenBStep(marker: Marker, x: string)
    ensures Chosen(Example(marker, x, AB()), AFirst(), 0, ThenB(x))
  {
    var taken := State(AFirst().extras, ["c"], map["r" := {"a", "b"}, "a" := {"c"}, "b" := {}]);
    assert Taken(AFirst(), 0) == taken by {
      assert Taken(AFirst(), 0).graph == taken.graph;
    }
    assert x in AskingForExtra(x).extras - {};
    VisitTo(Example(marker, x, AB()), taken, "b", AskingForExtra(x), {}, {x}, {"a"}, ThenB(x));
    VisitOne(Example(marker, x, AB()), taken, "b", AskingForExtra(x));
  }

  lemma ThenCStep(marker: Marker, x: string)
    ensures Chosen(Example(marker, x, AB()), ThenB(x), 0, ThenC(x))
  {
    assert Taken(ThenB(x), 0) == ThenC(x) by {
      assert Taken(ThenB(x), 0).graph == ThenC(x).graph;
    }
  }

  lemma LastAStep(marker: Marker, x: string)
    requires marker("") && !marker(x)
    ensures Chosen(Example(marker, x, AB()), ThenC(x), 0, WithC(x))
  {
    assert Taken(ThenC(x), 0) == WithC(x);
    MarkerHolds(marker, x);
    VisitOne(Example(marker, x, AB()), WithC(x), "a", OnlyWithoutExtras(marker));
  }

  lemma BFirstStep(marker: Marker, x: string)
    ensures Chosen(Example(marker, x, BA()), RootDone(["b", "a"]), 0, BFirst(x))
  {
    var taken := State(RootDone(["b", "a"]).extras, ["a"], map["r" := {"a", "b"}, "b" := {}]);
    assert Taken(RootDone(["b", "a"]), 0) == taken by {
      assert Taken(RootDone(["b", "a"]), 0).graph == taken.graph;
    }
    assert x in AskingForExtra(x).extras - {};
    VisitTo(Example(marker, x, BA()), taken, "b", AskingForExtra(x), {}, {x}, {"a"}, BFirst(x));
    VisitOne(Example(marker, x, BA()), taken, "b", AskingForExtra(x));
  }

  lemma OnlyAStep(marker: Marker, x: string)
    requires marker("") && !marker(x)
    ensures Chosen(Example(marker, x, BA()), BFirst(x), 0, WithoutC(x))
  {
    assert Taken(BFirst(x), 0) == WithoutC(x) by {
      assert Taken(BFirst(x), 0).graph == WithoutC(x).graph;
    }
    MarkerHolds(marker, x);
    VisitOne(Example(marker, x, BA()), WithoutC(x), "a", OnlyWithoutExtras(marker));
  }

  function AThenB(x: string): seq<State> {
    [Start("r"), RootDone(["a", "b"]), AFirst(), ThenB(x), ThenC(x), WithC(x)]
  }

  function BThenA(x: string): seq<State> {
    [Start("r"), RootDone(["b", "a"]), BFirst(x), WithoutC(x)]
  }

  lemma FiveSteps(installed: Installed, s0: State, s1: State, s2: State, s3: State, s4: State, s5: State)
    requires "r" in installed && s0 == Start("r") && s5.pending == []
    requires Chosen(installed, s0, 0, s1) && Chosen(installed, s1, 0, s2) && Chosen(installed, s2, 0, s3)
    requires Chosen(installed, s3, 0, s4) && Chosen(installed, s4, 0, s5)
    ensures FirstInFirstOut(installed, "r", [s0, s1, s2, s3, s4, s5], [0, 0, 0, 0, 0])
  {
  }

  lemma ThreeSteps(installed: Installed, s0: State, s1: State, s2: State, s3: State)
    requires "r" in installed && s0 == Start("r") && s3.pending == []
    requires Chosen(installed, s0, 0, s1) && Chosen(installed, s1, 0, s2) && Chosen(installed, s2, 0, s3)
    ensures FirstInFirstOut(installed, "r", [s0, s1, s2, s3], [0, 0, 0])
  {
  }

  lemma AThenBIsOrder(marker: Marker, x: string)
    requires marker("") && !marker(x)
    ensures FirstInFirstOut(Example(marker, x, AB()), "r", AThenB(x), [0, 0, 0, 0, 0])
  {
    RootStep(marker, x, "a", "b", AB());
    AFirstStep(marker, x);
    ThenBStep(marker, x);
    ThenCStep(marker, x);
    LastAStep(marker, x);
    FiveSteps(Example(marker, x, AB()), Start("r"), RootDone(["a", "b"]), AFirst(), ThenB(x), ThenC(x), WithC(x));
  }

  lemma BThenAIsOrder(marker: Marker, x: string)
    requires marker("") && !marker(x)
    ensures FirstInFirstOut(Example(marker, x, BA()), "r", BThenA(x), [0, 0, 0])
  {
    RootStep(marker, x, "b", "a", BA());
    BFirstStep(marker, x);
    OnlyAStep(marker, x);
    ThreeSteps(Example(marker, x, BA()), Start("r"), RootDone(["b", "a"]), BFirst(x), WithoutC(x));
  }

  lemma ExampleIsBuilt(marker: Marker, x: string)
    ensures BuiltFrom(Example(marker, x, AB()), marker)
    ensures SameRequirements(Example(marker, x, AB()), Example(marker, x, BA()))
  {
    assert multiset(AB()) == multiset{Plain("a"), Plain("b")} == multiset(BA());
  }

  /** For a marker that holds without extras but not with x: r's two requirements in either order, and
      the closure contains c or not. */
  lemma OrderCanMatter(marker: Marker, x: string)
    requires marker("") && !marker(x)
    ensures var installed, other := Example(marker, x, AB()), Example(marker, x, BA());
            && BuiltFrom(installed, marker) && SameRequirements(installed, other)
            && FirstInFirstOut(installed, "r", AThenB(x), [0, 0, 0, 0, 0])
            && FirstInFirstOut(other, "r", BThenA(x), [0, 0, 0])
    ensures "c" in ResolutionOf(AThenB(x)[5]).graph && "c" !in ResolutionOf(BThenA(x)[3]).graph
  {
    ExampleIsBuilt(marker, x);
    AThenBIsOrder(marker, x);
    BThenAIsOrder(marker, x);
  }

  /** Finished runs agree over every inventory built from the marker, however its requirements are ordered. */
  ghost predicate OrderFree(marker: Marker) {
    forall installed, other, root, states, choices, others, picks ::
      BuiltFrom(installed, marker) && SameRequirements(installed, other)
      && FirstInFirstOut(installed, root, states, choices) && FirstInFirstOut(other, root, others, picks) ==>
        ResolutionOf(states[|choices|]) == ResolutionOf(others[|picks|])
  }

  /** The order of requirements is irrelevant exactly for the markers that, holding without extras, hold
      with any. */
  lemma OrderFreeExactly(marker: Marker)
    ensures OrderFree(marker) <==> MonotoneAlways(marker)
  {
    if MonotoneAlways(marker) {
      forall installed, other, root, states, choices, others, picks
        | BuiltFrom(installed, marker) && SameRequirements(installed, other)
          && FirstInFirstOut(installed, root, states, choices) && FirstInFirstOut(other, root, others, picks)
        ensures ResolutionOf(states[|choices|]) == ResolutionOf(others[|picks|])
      {
        MonotoneAgrees(marker, installed, other, root, states, choices, others, picks);
      }
    } else {
      var x :| !marker(x);
      OrderCanMatter(marker, x);
      var installed, other := Example(marker, x, AB()), Example(marker, x, BA());
      assert FirstInFirstOut(installed, "r", AThenB(x), [0, 0, 0, 0, 0]);
      assert AThenB(x)[|[0, 0, 0, 0, 0]|] == WithC(x) && BThenA(x)[|[0, 0, 0]|] == WithoutC(x);
    }
  }
}
