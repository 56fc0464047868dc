/** The closure of installed dependencies with growing extras (scripts/verify_release.py:301-335).
    A marker is a predicate on the extra it is evaluated with; names are already canonical. */
module DependencyClosure {
  import opened Domain

  datatype Requirement = Requirement(target: string, extras: set<string>, marker: Option<string -> bool>)

  /** What is installed, with the requirements each distribution declares. */
  type Installed = map<string, seq<Requirement>>

  function Contexts(extras: set<string>): set<string> {
    if extras == {} then {""} else extras
  }

  /** A requirement without a marker always applies; another, if its marker holds for some extra. */
  predicate Applies(r: Requirement, extras: set<string>) {
    r.marker.None? || exists e :: e in Contexts(extras) && r.marker.value(e)
  }

  datatype State = State(extras: map<string, set<string>>, pending: seq<string>, graph: map<string, set<string>>)

  function Start(root: string): State {
    State(map[root := {}], [root], map[])
  }

  // ----- One package

  /** One requirement of a package being processed; nothing if its distribution is missing. */
  function Visit(installed: Installed, s: State, parent: string, r: Requirement): Option<State>
    requires parent in s.extras && parent in s.graph
  {
    if !Applies(r, s.extras[parent]) then Some(s)
    else if r.target !in installed then None
    else
      var previous := if r.target in s.extras then s.extras[r.target] else {};
      var revisit := r.target !in s.graph || r.extras - previous != {};
      Some(State(
        s.extras[r.target := if revisit then previous + r.extras else previous],
        if revisit && r.target !in s.pending then s.pending + [r.target] else s.pending,
        s.graph[parent := s.graph[parent] + {r.target}]))
  }

  function VisitAll(
      installed: Installed, s: State, parent: string, requirements: seq<Requirement>): (after: Option<State>)
    requires parent in s.extras && parent in s.graph
    ensures after.Some? ==> parent in after.value.extras && parent in after.value.graph
  {
    if requirements == [] then Some(s)
    else
      var before := VisitAll(installed, s, parent, requirements[..|requirements| - 1]);
      if before.None? then None
      else Visit(installed, before.value, parent, requirements[|requirements| - 1])
  }

  function Without(pending: seq<string>, k: nat): seq<string>
    requires k < |pending|
  {
    pending[..k] + pending[k + 1..]
  }

  /** The state when the k-th pending package is taken up. */
  function Taken(s: State, k: nat): State
    requires k < |s.pending|
  {
    var parent := s.pending[k];
    s.(pending := Without(s.pending, k), graph := if parent in s.graph then s.graph else s.graph[parent := {}])
  }

  function Process(installed: Installed, s: State, k: nat): Option<State>
    requires k < |s.pending| && s.pending[k] in s.extras && s.pending[k] in installed
  {
    VisitAll(installed, Taken(s, k), s.pending[k], installed[s.pending[k]])
  }

  // ----- What every state satisfies

  /** A requirement that applies has its edge, and the extras it asks for are recorded. */
  ghost predicate Recorded(s: State, n: string, r: Requirement)
    requires n in s.extras && n in s.graph
  {
    Applies(r, s.extras[n]) ==> r.target in s.graph[n] && r.target in s.extras && r.extras <= s.extras[r.target]
  }

  ghost predicate RecordedUpTo(s: State, n: string, requirements: seq<Requirement>)
    requires n in s.extras && n in s.graph
  {
    forall i :: 0 <= i < |requirements| ==> Recorded(s, n, requirements[i])
  }

  predicate Distinct(names: seq<string>) {
    forall i, j :: 0 <= i < j < |names| ==> names[i] != names[j]
  }

  ghost predicate Shape(installed: Installed, s: State, root: string) {
    && root in s.extras && s.extras.Keys <= installed.Keys
    && s.graph.Keys <= s.extras.Keys
    && Distinct(s.pending) && (forall n :: n in s.pending ==> n in s.extras)
    && (forall n :: n in s.extras ==> n in s.graph || n in s.pending)
    && (forall n :: n in s.graph ==> s.graph[n] <= s.extras.Keys)
  }

  /** Every processed package that is not waiting to be processed again is recorded in full. */
  ghost predicate OthersRecorded(installed: Installed, s: State, but: set<string>)
    requires s.graph.Keys <= s.extras.Keys <= installed.Keys
  {
    forall n :: n in s.graph && n !in s.pending && n !in but ==> RecordedUpTo(s, n, installed[n])
  }

  ghost predicate Inv(installed: Installed, s: State, root: string) {
    Shape(installed, s, root) && OthersRecorded(installed, s, {})
  }

  /** Half way through a package: it is waiting again, or its requirements so far are recorded. */
  ghost predicate HalfWay(installed: Installed, s: State, root: string, parent: string, seen: seq<Requirement>) {
    && Shape(installed, s, root) && parent in s.graph
    && OthersRecorded(installed, s, {parent})
    && (parent in s.pending || RecordedUpTo(s, parent, seen))
  }

  lemma TakenHalfWay(installed: Installed, s: State, root: string, k: nat)
    requires Inv(installed, s, root) && k < |s.pending|
    ensures HalfWay(installed, Taken(s, k), root, s.pending[k], [])
  {
    WithoutIs(s.pending, k);
    var after, parent := Taken(s, k), s.pending[k];
    forall n | n in after.graph && n !in after.pending && n != parent
      ensures RecordedUpTo(after, n, installed[n])
    {
      assert RecordedUpTo(s, n, installed[n]);
      forall i | 0 <= i < |installed[n]|
        ensures Recorded(after, n, installed[n][i])
      {
        assert Recorded(s, n, installed[n][i]);
      }
    }
  }

  lemma WithoutIs(pending: seq<string>, k: nat)
    requires Distinct(pending) && k < |pending|
    ensures Distinct(Without(pending, k)) && |Without(pending, k)| == |pending| - 1
    ensures forall n :: n in Without(pending, k) <==> n in pending && n != pending[k]
  {
    var rest := Without(pending, k);
    assert forall i :: 0 <= i < |rest| ==> rest[i] == (if i < k then pending[i] else pending[i + 1]);
    forall n | n in pending && n != pending[k]
      ensures n in rest
    {
      var i :| 0 <= i < |pending| && pending[i] == n;
      assert rest[if i < k then i else i - 1] == n;
    }
  }

  /** What visiting a requirement changes. */
  lemma VisitIs(installed: Installed, s: State, parent: string, r: Requirement)
    requires parent in s.extras && parent in s.graph
    requires Applies(r, s.extras[parent]) && r.target in installed
    ensures var after := Visit(installed, s, parent, r);
            && after.Some?
            && after.value.graph == s.graph[parent := s.graph[parent] + {r.target}]
            && after.value.extras == s.extras[r.target := (if r.target in s.extras then s.extras[r.target] else {}) + r.extras]
    ensures var after := Visit(installed, s, parent, r).value;
            && (forall n :: n in s.pending ==> n in after.pending)
            && (forall n :: n in after.pending ==> n in s.pending || n == r.target)
            && (r.target in s.extras && after.extras[r.target] != s.extras[r.target] ==> r.target in after.pending)
            && (r.target !in s.graph ==> r.target in after.pending)
  {
    var previous := if r.target in s.extras then s.extras[r.target] else {};
    if r.target in s.graph && r.extras - previous == {} {
      forall e | e in r.extras
        ensures e in previous
      {
        assert e !in r.extras - previous;
      }
      assert previous + r.extras == previous;
    }
  }

  lemma VisitKeepsShape(installed: Installed, s: State, root: string, parent: string, r: Requirement)
    requires Shape(installed, s, root) && parent in s.graph
    requires Visit(installed, s, parent, r).Some?
    ensures Shape(installed, Visit(installed, s, parent, r).value, root)
  {
  }

  lemma StillRecorded(s: State, after: State, n: string, requirements: seq<Requirement>)
    requires n in s.extras && n in s.graph && RecordedUpTo(s, n, requirements)
    requires n in after.extras && n in after.graph && after.extras[n] == s.extras[n] && s.graph[n] <= after.graph[n]
    requires forall m :: m in s.extras ==> m in after.extras && s.extras[m] <= after.extras[m]
    ensures RecordedUpTo(after, n, requirements)
  {
    forall i | 0 <= i < |requirements|
      ensures Recorded(after, n, requirements[i])
    {
      assert Recorded(s, n, requirements[i]);
    }
  }

  lemma VisitKeepsOthers(
      installed: Installed, s: State, root: string, parent: string, r: Requirement, n: string,
      requirements: seq<Requirement>)
    requires Shape(installed, s, root) && parent in s.graph && n in s.graph
    requires Visit(installed, s, parent, r).Some? && n !in Visit(installed, s, parent, r).value.pending
    requires RecordedUpTo(s, n, requirements)
    ensures n in Visit(installed, s, parent, r).value.graph && n in Visit(installed, s, parent, r).value.extras
    ensures RecordedUpTo(Visit(installed, s, parent, r).value, n, requirements)
  {
    if Applies(r, s.extras[parent]) {
      VisitIs(installed, s, parent, r);
      StillRecorded(s, Visit(installed, s, parent, r).value, n, requirements);
    }
  }

  lemma VisitHalfWay(
      installed: Installed, s: State, root: string, parent: string, seen: seq<Requirement>, r: Requirement)
    requires HalfWay(installed, s, root, parent, seen) && Visit(installed, s, parent, r).Some?
    ensures HalfWay(installed, Visit(installed, s, parent, r).value, root, parent, seen + [r])
  {
    var after := Visit(installed, s, parent, r).value;
    VisitKeepsShape(installed, s, root, parent, r);
    if Applies(r, s.extras[parent]) {
      VisitIs(installed, s, parent, r);
    }
    forall n | n in after.graph && n !in after.pending && n != parent
      ensures RecordedUpTo(after, n, installed[n])
    {
      VisitKeepsOthers(installed, s, root, parent, r, n, installed[n]);
    }
    if parent !in after.pending {
      VisitKeepsOthers(installed, s, root, parent, r, parent, seen);
      assert Recorded(after, parent, r);
    }
  }

  lemma {:induction false} VisitAllHalfWay(
      installed: Installed, s: State, root: string, parent: string, requirements: seq<Requirement>)
    requires HalfWay(installed, s, root, parent, []) && VisitAll(installed, s, parent, requirements).Some?
    ensures HalfWay(installed, VisitAll(installed, s, parent, requirements).value, root, parent, requirements)
  {
    if requirements != [] {
      var init, last := requirements[..|requirements| - 1], requirements[|requirements| - 1];
      VisitAllHalfWay(installed, s, root, parent, init);
      VisitHalfWay(installed, VisitAll(installed, s, parent, init).value, root, parent, init, last);
      assert init + [last] == requirements;
    }
  }

  lemma ProcessKeeps(installed: Installed, s: State, root: string, k: nat)
    requires Inv(installed, s, root) && k < |s.pending|
    requires Process(installed, s, k).Some?
    ensures Inv(installed, Process(installed, s, k).value, root)
  {
    TakenHalfWay(installed, s, root, k);
    VisitAllHalfWay(installed, Taken(s, k), root, s.pending[k], installed[s.pending[k]]);
  }

  // ----- Termination

  /** What can still become known: a package, or an extra of a package that some requirement asks for. */
  datatype Fact = Found(name: string) | Asked(name: string, extra: string)

  ghost function ExtrasOf(requirements: seq<Requirement>): set<string> {
    set r, e | r in requirements && e in r.extras :: e
  }

  ghost function AllExtras(installed: Installed): set<string> {
    set n, e | n in installed && e in ExtrasOf(installed[n]) :: e
  }

  ghost function AllFacts(installed: Installed): set<Fact> {
    (set n | n in installed :: Found(n)) + (set n, e | n in installed && e in AllExtras(installed) :: Asked(n, e))
  }

  ghost function Known(extras: map<string, set<string>>): set<Fact> {
    (set n | n in extras :: Found(n)) + (set n, e | n in extras && e in extras[n] :: Asked(n, e))
  }

  ghost function Unknown(installed: Installed, s: State): set<Fact> {
    AllFacts(installed) - Known(s.extras)
  }

  /** Packages wait longer only if something became known. */
  ghost predicate Progress(installed: Installed, s: State, after: State) {
    || Unknown(installed, after) < Unknown(installed, s)
    || (Unknown(installed, after) == Unknown(installed, s) && |after.pending| <= |s.pending|)
  }

  lemma KnownGrows(s: State, after: State)
    requires forall m :: m in s.extras ==> m in after.extras && s.extras[m] <= after.extras[m]
    ensures Known(s.extras) <= Known(after.extras)
  {
  }

  lemma VisitProgress(installed: Installed, s: State, root: string, parent: string, r: Requirement)
    requires Shape(installed, s, root) && parent in s.graph && r in installed[parent]
    requires Visit(installed, s, parent, r).Some?
    ensures Progress(installed, s, Visit(installed, s, parent, r).value)
  {
    if Applies(r, s.extras[parent]) {
      VisitIs(installed, s, parent, r);
      var after := Visit(installed, s, parent, r).value;
      KnownGrows(s, after);
      if |after.pending| > |s.pending| {
        NewFact(installed, s, parent, r);
      }
    }
  }

  /** A package is appended only when it, or an extra asked of it, is new. */
  lemma NewFact(installed: Installed, s: State, parent: string, r: Requirement)
    requires s.extras.Keys <= installed.Keys && parent in s.extras && parent in s.graph && r in installed[parent]
    requires forall n :: n in s.extras ==> n in s.graph || n in s.pending
    requires Applies(r, s.extras[parent]) && r.target in installed
    requires |Visit(installed, s, parent, r).value.pending| > |s.pending|
    ensures Unknown(installed, Visit(installed, s, parent, r).value) < Unknown(installed, s)
  {
    var after := Visit(installed, s, parent, r).value;
    VisitIs(installed, s, parent, r);
    KnownGrows(s, after);
    var fact: Fact;
    if r.target !in s.extras {
      fact := Found(r.target);
    } else {
      var e :| e in r.extras - s.extras[r.target];
      assert e in ExtrasOf(installed[parent]);
      assert e in AllExtras(installed);
      fact := Asked(r.target, e);
    }
    assert fact in AllFacts(installed) && fact !in Known(s.extras) && fact in Known(after.extras);
    assert fact in Unknown(installed, s) && fact !in Unknown(installed, after);
  }

  lemma {:induction false} VisitAllProgress(
      installed: Installed, s: State, root: string, parent: string, requirements: seq<Requirement>)
    requires HalfWay(installed, s, root, parent, []) && VisitAll(installed, s, parent, requirements).Some?
    requires forall r :: r in requirements ==> r in installed[parent]
    ensures Progress(installed, s, VisitAll(installed, s, parent, requirements).value)
  {
    if requirements != [] {
      var init, last := requirements[..|requirements| - 1], requirements[|requirements| - 1];
      VisitAllProgress(installed, s, root, parent, init);
      VisitAllHalfWay(installed, s, root, parent, init);
      VisitProgress(installed, VisitAll(installed, s, parent, init).value, root, parent, last);
    }
  }

  /** Processing makes something known, or leaves less to process. */
  lemma ProcessProgress(installed: Installed, s: State, root: string, k: nat)
    requires Inv(installed, s, root) && k < |s.pending| && Process(installed, s, k).Some?
    ensures var after := Process(installed, s, k).value;
            || Unknown(installed, after) < Unknown(installed, s)
            || (Unknown(installed, after) == Unknown(installed, s) && |after.pending| < |s.pending|)
  {
    TakenHalfWay(installed, s, root, k);
    WithoutIs(s.pending, k);
    VisitAllProgress(installed, Taken(s, k), root, s.pending[k], installed[s.pending[k]]);
  }

  // ----- The least closed resolution

  datatype Resolution = Resolution(extras: map<string, set<string>>, graph: map<string, set<string>>)

  function ResolutionOf(s: State): Resolution {
    Resolution(s.extras, s.graph)
  }

  /** Every requirement that applies under a package's own extras has its edge and its extras. */
  ghost predicate Closed(installed: Installed, root: string, other: Resolution) {
    && root in other.extras && other.extras.Keys == other.graph.Keys <= installed.Keys
    && (forall n :: n in other.graph ==> other.graph[n] <= other.graph.Keys)
    && (forall n :: n in other.graph ==> RecordedUpTo(State(other.extras, [], other.graph), n, installed[n]))
  }

  ghost predicate Within(x: Resolution, y: Resolution) {
    && (forall n :: n in x.extras ==> n in y.extras && x.extras[n] <= y.extras[n])
    && (forall n :: n in x.graph ==> n in y.graph && x.graph[n] <= y.graph[n])
  }

  /** A marker that, holding without extras, holds with any. */
  ghost predicate MonotoneMarker(r: Requirement) {
    r.marker.Some? && r.marker.value("") ==> forall e :: r.marker.value(e)
  }

  ghost predicate Monotone(installed: Installed) {
    forall n, i :: n in installed && 0 <= i < |installed[n]| ==> MonotoneMarker(installed[n][i])
  }

  /** Exactly such markers never stop applying when extras grow. */
  lemma MonotoneExactly(r: Requirement)
    ensures MonotoneMarker(r) <==> forall x: set<string>, y: set<string> :: x <= y && Applies(r, x) ==> Applies(r, y)
  {
    if MonotoneMarker(r) {
      forall x: set<string>, y: set<string> | x <= y && Applies(r, x)
        ensures Applies(r, y)
      {
        AppliesMore(r, x, y);
      }
    }
    if r.marker.Some? && r.marker.value("") && exists e :: !r.marker.value(e) {
      var e :| !r.marker.value(e);
      var none: set<string> := {};
      assert "" in Contexts(none);
      assert Applies(r, none) && !Applies(r, {e}) && none <= {e};
    }
  }

  lemma AppliesMore(r: Requirement, x: set<string>, y: set<string>)
    requires MonotoneMarker(r) && x <= y && Applies(r, x)
    ensures Applies(r, y)
  {
    if r.marker.Some? {
      var e :| e in Contexts(x) && r.marker.value(e);
      if x == {} && y != {} {
        var f :| f in y;
        assert f in Contexts(y) && r.marker.value(f);
      } else {
        assert e in Contexts(y);
      }
    }
  }

  lemma VisitWithin(installed: Installed, s: State, root: string, parent: string, r: Requirement, other: Resolution)
    requires Closed(installed, root, other) && Within(ResolutionOf(s), other) && MonotoneMarker(r)
    requires parent in s.extras && parent in s.graph && parent in installed && r in installed[parent]
    ensures Applies(r, s.extras[parent]) ==> r.target in installed
    ensures Visit(installed, s, parent, r).Some? && Within(ResolutionOf(Visit(installed, s, parent, r).value), other)
  {
    if Applies(r, s.extras[parent]) {
      AppliesMore(r, s.extras[parent], other.extras[parent]);
      var i :| 0 <= i < |installed[parent]| && installed[parent][i] == r;
      assert Recorded(State(other.extras, [], other.graph), parent, installed[parent][i]);
      VisitIs(installed, s, parent, r);
    }
  }

  lemma {:induction false} VisitAllWithin(
      installed: Installed, s: State, root: string, parent: string, requirements: seq<Requirement>, other: Resolution)
    requires Monotone(installed) && Closed(installed, root, other) && Within(ResolutionOf(s), other)
    requires parent in s.extras && parent in s.graph && parent in installed
    requires forall r :: r in requirements ==> r in installed[parent]
    ensures VisitAll(installed, s, parent, requirements).Some?
    ensures Within(ResolutionOf(VisitAll(installed, s, parent, requirements).value), other)
  {
    if requirements != [] {
      var init, last := requirements[..|requirements| - 1], requirements[|requirements| - 1];
      VisitAllWithin(installed, s, root, parent, init, other);
      assert last in installed[parent];
      VisitWithin(installed, VisitAll(installed, s, parent, init).value, root, parent, last, other);
    }
  }

  /** Nothing is ever recorded that some closed resolution does without. */
  lemma ProcessWithin(installed: Installed, s: State, root: string, k: nat, other: Resolution)
    requires Inv(installed, s, root) && k < |s.pending|
    requires Monotone(installed) && Closed(installed, root, other) && Within(ResolutionOf(s), other)
    ensures Process(installed, s, k).Some? && Within(ResolutionOf(Process(installed, s, k).value), other)
  {
    var parent := s.pending[k];
    assert parent in s.extras && parent in other.graph;
    VisitAllWithin(installed, Taken(s, k), root, parent, installed[parent], other);
  }

  lemma DoneIsClosed(installed: Installed, s: State, root: string)
    requires Inv(installed, s, root) && s.pending == []
    ensures Closed(installed, root, ResolutionOf(s))
  {
    assert s.extras.Keys == s.graph.Keys;
    forall n | n in s.graph
      ensures RecordedUpTo(State(s.extras, [], s.graph), n, installed[n])
    {
      assert State(s.extras, [], s.graph) == s;
      assert RecordedUpTo(s, n, installed[n]);
    }
  }

  /** Closed, and inside every closed resolution. */
  ghost predicate Least(installed: Installed, root: string, x: Resolution) {
    Closed(installed, root, x) && forall other :: Closed(installed, root, other) ==> Within(x, other)
  }

  lemma LeastIsUnique(installed: Installed, root: string, x: Resolution, y: Resolution)
    requires Least(installed, root, x) && Least(installed, root, y)
    ensures x == y
  {
    assert Within(x, y) && Within(y, x);
    assert x.extras.Keys == y.extras.Keys && x.graph.Keys == y.graph.Keys;
    assert forall n :: n in x.extras ==> x.extras[n] == y.extras[n];
    assert forall n :: n in x.graph ==> x.graph[n] == y.graph[n];
    assert x.extras == y.extras && x.graph == y.graph;
  }
}
