/** What a public request is answered: the epoch's snapshots, of which the request's own candidates
    are recorded where there was none (src/der_flex/domain/store.py:95-138, src/der_flex/api/app.py:290-304). */
module SnapshotAnswers {
  import opened Domain
  import opened OfferStore
  import opened Publication

  /** The first candidate for a cell. */
  ghost predicate FirstFor(candidates: seq<Aggregate>, cell: Cell, a: Aggregate) {
    exists j :: 0 <= j < |candidates| && candidates[j] == a && a.cell == cell
      && forall i :: 0 <= i < j ==> candidates[i].cell != cell
  }

  lemma FirstStays(candidates: seq<Aggregate>, next: Aggregate, cell: Cell, a: Aggregate)
    requires FirstFor(candidates, cell, a)
    ensures FirstFor(candidates + [next], cell, a)
  {
    var j :| 0 <= j < |candidates| && candidates[j] == a && a.cell == cell
      && forall i :: 0 <= i < j ==> candidates[i].cell != cell;
    assert (candidates + [next])[j] == a;
  }

  lemma FirstIsNext(candidates: seq<Aggregate>, next: Aggregate)
    requires !Carries(candidates, next.cell)
    ensures FirstFor(candidates + [next], next.cell, next)
  {
    var longer := candidates + [next];
    assert longer[|candidates|] == next;
    forall i | 0 <= i < |candidates|
      ensures longer[i].cell != next.cell
    {
      assert candidates[i] in candidates;
    }
  }

  lemma CarriesNext(candidates: seq<Aggregate>, next: Aggregate, cell: Cell)
    ensures Carries(candidates + [next], cell) <==> Carries(candidates, cell) || next.cell == cell
  {
    assert next in candidates + [next];
  }

  /** After recording candidates an epoch has a snapshot exactly of the cells it had one of and of the
      candidates'; what was there stays, and of a new cell it is the first candidate. */
  lemma {:induction false} SnapExactly(snapshots: Snapshots, epoch: Time, candidates: seq<Aggregate>, key: SnapshotKey)
    ensures var after := Snap(snapshots, epoch, candidates);
            && (key in after <==> key in snapshots || (key.epoch == epoch && Carries(candidates, key.cell)))
            && (key in snapshots ==> key in after && after[key] == snapshots[key])
            && (key in after && key !in snapshots ==> FirstFor(candidates, key.cell, after[key]))
  {
    if candidates != [] {
      var init, last := candidates[..|candidates| - 1], candidates[|candidates| - 1];
      assert candidates == init + [last];
      SnapExactly(snapshots, epoch, init, key);
      CarriesNext(init, last, key.cell);
      var before := Snap(snapshots, epoch, init);
      if key in before && key !in snapshots {
        FirstStays(init, last, key.cell, before[key]);
      } else if key !in before && key.epoch == epoch && last.cell == key.cell {
        FirstIsNext(init, last);
      }
    }
  }

  /** Aggregates of enough participants, and only they, become candidates. */
  lemma {:induction false} CandidatesAre(p: Policy, public: seq<Aggregate>, epoch: Time, cell: Cell)
    requires ValidPolicy(p)
    ensures Carries(SanitizeAll(p, public, epoch), cell) <==>
              exists x :: x in public && x.numbers.participants >= p.minimumParticipants && x.cell == cell
  {
    if public != [] {
      var init, last := public[..|public| - 1], public[|public| - 1];
      assert public == init + [last];
      CandidatesAre(p, init, epoch, cell);
      if EligibleToPublish(p, last) {
        CarriesNext(SanitizeAll(p, init, epoch), Sanitize(p, last, epoch), cell);
        assert last in public;
      }
    }
  }

  lemma {:induction false} CandidateIs(p: Policy, public: seq<Aggregate>, epoch: Time, a: Aggregate)
    requires ValidPolicy(p) && a in SanitizeAll(p, public, epoch)
    ensures exists x :: x in public && EligibleToPublish(p, x) && a == Sanitize(p, x, epoch)
  {
    var init, last := public[..|public| - 1], public[|public| - 1];
    assert public == init + [last];
    if a in SanitizeAll(p, init, epoch) {
      CandidateIs(p, init, epoch, a);
    } else {
      assert last in public;
    }
  }

  /** Every eligible aggregate in the window has a response for its cell in the answer, and the answer
      holds nothing but the epoch's earlier snapshots and what was eligible. */
  lemma RespondAnswers(s: State, w: Window, epoch: Time, public: seq<Aggregate>, minimum: nat, p: Policy, cell: Cell)
    requires ValidPolicy(p) && InWindow(cell, w)
    ensures var after := Apply(s, Respond(w, epoch, public), minimum, p);
            var answer := Answers(after.snapshots, w, epoch);
            && answer <= after.responses
            && ((exists r :: r in answer && SnapshotKey(epoch, cell) in after.snapshots
                   && r == after.snapshots[SnapshotKey(epoch, cell)]) <==>
                  || SnapshotKey(epoch, cell) in s.snapshots
                  || exists x :: x in public && EligibleToPublish(p, x) && x.cell == cell)
            && (SnapshotKey(epoch, cell) in s.snapshots ==> s.snapshots[SnapshotKey(epoch, cell)] in answer)
            && (SnapshotKey(epoch, cell) in after.snapshots && SnapshotKey(epoch, cell) !in s.snapshots ==>
                  exists x :: x in public && EligibleToPublish(p, x) && x.cell == cell
                    && after.snapshots[SnapshotKey(epoch, cell)] == Sanitize(p, x, epoch))
  {
    var candidates, key := SanitizeAll(p, public, epoch), SnapshotKey(epoch, cell);
    var after := Snap(s.snapshots, epoch, candidates);
    SnapExactly(s.snapshots, epoch, candidates, key);
    CandidatesAre(p, public, epoch, cell);
    if key in after {
      assert after[key] in Answers(after, w, epoch);
      if key !in s.snapshots {
        var j :| 0 <= j < |candidates| && candidates[j] == after[key];
        CandidateIs(p, public, epoch, after[key]);
      }
    }
  }

  /** In every run, a request is answered for each aggregate of its own with enough participants: the response to its
      cell is in the state after. */
  lemma EveryEligibleIsAnswered(
      states: seq<State>, steps: seq<Step>, minimum: nat, p: Policy, k: nat, x: Aggregate)
    requires ValidPolicy(p) && Run(states, steps, minimum, p) && k < |steps| && steps[k].Respond?
    requires x in steps[k].public && x.numbers.participants >= p.minimumParticipants && InWindow(x.cell, steps[k].w)
    ensures exists r :: r in Answers(states[k + 1].snapshots, steps[k].w, steps[k].epoch)
              && r in states[k + 1].responses && r.cell == x.cell
  {
    var key := SnapshotKey(steps[k].epoch, x.cell);
    Reachable(states, steps, minimum, p, k + 1);
    RespondAnswers(states[k], steps[k].w, steps[k].epoch, steps[k].public, minimum, p, x.cell);
    var r := states[k + 1].snapshots[key];
    assert r in Answers(states[k + 1].snapshots, steps[k].w, steps[k].epoch);
  }
}
