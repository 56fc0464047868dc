/** The worklist that resolves the dependency closure, and why its order does not matter. */
module DependencyInventory {
  import opened Domain
  import opened Sequences
  import opened DependencyClosure

  // ----- Any order

  /** A run that takes up pending packages in whatever order. */
  ghost predicate Order(installed: Installed, root: string, states: seq<State>, choices: seq<nat>) {
    && root in installed
    && |states| == |choices| + 1 && states[0] == Start(root)
    && forall i :: 0 <= i < |choices| ==> Chosen(installed, states[i], choices[i], states[i + 1])
  }

  ghost predicate Chosen(installed: Installed, s: State, k: nat, after: State) {
    && k < |s.pending| && s.pending[k] in s.extras && s.pending[k] in installed
    && Process(installed, s, k) == Some(after)
  }

  lemma StartInv(installed: Installed, root: string)
    requires root in installed
    ensures Inv(installed, Start(root), root)
  {
  }

  lemma {:induction false} OrderKeeps(installed: Installed, root: string, states: seq<State>, choices: seq<nat>, i: nat)
    requires Order(installed, root, states, choices) && i < |states|
    ensures Inv(installed, states[i], root)
  {
    if i == 0 {
      StartInv(installed, root);
    } else {
      OrderKeeps(installed, root, states, choices, i - 1);
      assert Chosen(installed, states[i - 1], choices[i - 1], states[i]);
      ProcessKeeps(installed, states[i - 1], root, choices[i - 1]);
    }
  }

  lemma {:induction false} OrderWithin(
      installed: Installed, root: string, states: seq<State>, choices: seq<nat>, i: nat, other: Resolution)
    requires Order(installed, root, states, choices) && i < |states|
    requires Monotone(installed) && Closed(installed, root, other)
    ensures Within(ResolutionOf(states[i]), other)
  {
    if i > 0 {
      OrderWithin(installed, root, states, choices, i - 1, other);
      OrderKeeps(installed, root, states, choices, i - 1);
      assert Chosen(installed, states[i - 1], choices[i - 1], states[i]);
      ProcessWithin(installed, states[i - 1], root, choices[i - 1], other);
    }
  }

  /** Whatever the order, what a finished run leaves is closed, and least if markers are monotone. */
  lemma AnyOrderResolves(installed: Installed, root: string, states: seq<State>, choices: seq<nat>)
    requires Order(installed, root, states, choices) && states[|choices|].pending == []
    ensures Closed(installed, root, ResolutionOf(states[|choices|]))
    ensures Monotone(installed) ==> Least(installed, root, ResolutionOf(states[|choices|]))
  {
    OrderKeeps(installed, root, states, choices, |choices|);
    DoneIsClosed(installed, states[|choices|], root);
    if Monotone(installed) {
      forall other | Closed(installed, root, other)
        ensures Within(ResolutionOf(states[|choices|]), other)
      {
        OrderWithin(installed, root, states, choices, |choices|, other);
      }
    }
  }

  /** With monotone markers two finished runs agree, whatever their orders. */
  lemma OrderIsIrrelevant(
      installed: Installed, root: string, states: seq<State>, choices: seq<nat>, others: seq<State>, picks: seq<nat>)
    requires Monotone(installed)
    requires Order(installed, root, states, choices) && states[|choices|].pending == []
    requires Order(installed, root, others, picks) && others[|picks|].pending == []
    ensures ResolutionOf(states[|choices|]) == ResolutionOf(others[|picks|])
  {
    AnyOrderResolves(installed, root, states, choices);
    AnyOrderResolves(installed, root, others, picks);
    LeastIsUnique(installed, root, ResolutionOf(states[|choices|]), ResolutionOf(others[|picks|]));
  }

  // ----- First in, first out

  ghost predicate WithinAll(installed: Installed, root: string, s: State) {
    forall other :: Closed(installed, root, other) ==> Within(ResolutionOf(s), other)
  }

  ghost predicate SomethingMissing(installed: Installed) {
    exists n, i :: n in installed && 0 <= i < |installed[n]| && installed[n][i].target !in installed
  }

  lemma {:induction false} MissingStops(
      installed: Installed, s: State, parent: string, requirements: seq<Requirement>, k: nat)
    requires parent in s.extras && parent in s.graph && k <= |requirements|
    requires VisitAll(installed, s, parent, requirements[..k]).None?
    ensures VisitAll(installed, s, parent, requirements).None?
    decreases |requirements|
  {
    if k < |requirements| {
      var init := requirements[..|requirements| - 1];
      assert init[..k] == requirements[..k];
      MissingStops(installed, s, parent, init, k);
    } else {
      assert requirements[..k] == requirements;
    }
  }

  /** A run that stops for a missing distribution leaves nothing that could be closed. */
  lemma StoppedIsHopeless(installed: Installed, s: State, root: string)
    requires Inv(installed, s, root) && s.pending != [] && Process(installed, s, 0).None?
    requires Monotone(installed) && WithinAll(installed, root, s)
    ensures forall other :: !Closed(installed, root, other)
  {
    forall other | Closed(installed, root, other)
      ensures false
    {
      ProcessWithin(installed, s, root, 0, other);
    }
  }

  lemma ProcessWithinAll(installed: Installed, s: State, root: string)
    requires Inv(installed, s, root) && s.pending != [] && Process(installed, s, 0).Some?
    requires Monotone(installed) && WithinAll(installed, root, s)
    ensures WithinAll(installed, root, Process(installed, s, 0).value)
  {
    forall other | Closed(installed, root, other)
      ensures Within(ResolutionOf(Process(installed, s, 0).value), other)
    {
      ProcessWithin(installed, s, root, 0, other);
    }
  }

  /** One package off the front: its requirements one after the other. */
  method ProcessFirst(installed: Installed, s: State, ghost root: string) returns (after: Option<State>)
    requires Inv(installed, s, root) && s.pending != []
    ensures after == Process(installed, s, 0)
    ensures after.None? ==> SomethingMissing(installed)
  {
    var parent := s.pending[0];
    assert Without(s.pending, 0) == s.pending[1..];
    var extras, pending, graph := s.extras, s.pending[1..], s.graph;
    if parent !in graph {
      graph := graph[parent := {}];
    }
    ghost var start := State(extras, pending, graph);
    var requirements := installed[parent];
    for i := 0 to |requirements|
      invariant parent in extras && parent in graph
      invariant VisitAll(installed, start, parent, requirements[..i]) == Some(State(extras, pending, graph))
    {
      InitOf(requirements, i);
      var r := requirements[i];
      ghost var before := State(extras, pending, graph);
      if Applies(r, extras[parent]) {
        if r.target !in installed {
          MissingStops(installed, start, parent, requirements, i + 1);
          return None;
        }
        graph := graph[parent := graph[parent] + {r.target}];
        var previous := if r.target in extras then extras[r.target] else {};
        extras := extras[r.target := previous];
        if r.target !in graph || r.extras - previous != {} {
          extras := extras[r.target := previous + r.extras];
          if r.target !in pending {
            pending := pending + [r.target];
          }
        }
      }
      VisitMatches(installed, before, parent, r, State(extras, pending, graph));
    }
    assert requirements[..|requirements|] == requirements;
    return Some(State(extras, pending, graph));
  }

  /** Looking for the child after the edge is drawn makes no difference: the parent is in the graph already. */
  lemma VisitMatches(installed: Installed, s: State, parent: string, r: Requirement, after: State)
    requires parent in s.extras && parent in s.graph
    requires if !Applies(r, s.extras[parent]) then after == s
             else
               && r.target in installed
               && after.graph == s.graph[parent := s.graph[parent] + {r.target}]
               && var previous := if r.target in s.extras then s.extras[r.target] else {};
                  if r.target !in after.graph || r.extras - previous != {}
                  then
                    && after.extras == s.extras[r.target := previous][r.target := previous + r.extras]
                    && after.pending == if r.target !in s.pending then s.pending + [r.target] else s.pending
                  else after.extras == s.extras[r.target := previous] && after.pending == s.pending
    ensures Visit(installed, s, parent, r) == Some(after)
  {
    if Applies(r, s.extras[parent]) {
      var previous := if r.target in s.extras then s.extras[r.target] else {};
      assert s.extras[r.target := previous][r.target := previous + r.extras] == s.extras[r.target := previous + r.extras];
    }
  }

  /** The worklist ends on every finite graph, cyclic or not. What it resolves is closed, and with
      monotone markers least; it then gives up exactly when no closed resolution exists. */
  method Resolve(installed: Installed, root: string) returns (result: Option<Resolution>)
    ensures result.Some? ==> Closed(installed, root, result.value)
    ensures result.None? ==> root !in installed || SomethingMissing(installed)
    ensures Monotone(installed) && result.Some? ==> Least(installed, root, result.value)
    ensures Monotone(installed) && result.None? ==> forall other :: !Closed(installed, root, other)
  {
    if root !in installed {
      return None;
    }
    var s := Start(root);
    StartInv(installed, root);
    while s.pending != []
      invariant Inv(installed, s, root)
      invariant Monotone(installed) ==> WithinAll(installed, root, s)
      decreases Unknown(installed, s), |s.pending|
    {
      ghost var before := s;
      var after := ProcessFirst(installed, s, root);
      if after.None? {
        if Monotone(installed) {
          StoppedIsHopeless(installed, s, root);
        }
        return None;
      }
      s := after.value;
      ProcessKeeps(installed, before, root, 0);
      ProcessProgress(installed, before, root, 0);
      if Monotone(installed) {
        ProcessWithinAll(installed, before, root);
      }
    }
    DoneIsClosed(installed, s, root);
    return Some(ResolutionOf(s));
  }
}
