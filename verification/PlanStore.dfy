/** The plan transactions as they run over the revision, step and attempt rows. */
module PlanStore {
  import opened Basics
  import PlanDiff
  import opened PlanRevisions

  class PlanTables {
    var revisions: seq<Revision>
    var steps: seq<Step>
    var attempts: map<string, Attempt>
    var inputs: seq<string>
    var intake: set<string>

    function View(): Plans
      reads this
    {
      Plans(revisions, steps, attempts, inputs, intake)
    }

    constructor ()
      ensures View() == EMPTY
    {
      revisions, steps, attempts, inputs, intake := [], [], map[], [], {};
    }

    /** Marks the active plan superseded and finishes its open attempts. */
    method Supersede()
      modifies this`revisions, this`steps
      ensures View() == Superseding(old(View()))
    {
      var active := FindActive(revisions);
      if active.Some? {
        var planId := revisions[active.value].id;
        revisions := revisions[active.value := revisions[active.value].(status := Superseded)];
        var retired: seq<Step> := [];
        for i := 0 to |steps|
          invariant retired == RetireSteps(steps[..i], planId)
        {
          assert steps[..i + 1][..i] == steps[..i];
          var step := steps[i];
          if step.planRevisionId == planId && !step.done {
            step := step.(done := true, outcomeGood := false, failureEmpty := false);
          }
          retired := retired + [step];
        }
        assert steps[..|steps|] == steps;
        steps := retired;
      }
    }

    method SelectPlan(p: Selection) returns (r: Result<Revision, Error>)
      modifies this
      ensures var spec := Select(old(View()), p);
        match spec
        case Err(e) => r == Err(e) && View() == old(View())
        case Ok((s, revision)) => r == Ok(revision) && View() == s
    {
      if p.attemptId !in attempts || attempts[p.attemptId].workInputId != p.workInputId { return Err(AttemptMismatch); }
      var replay := FindHash(revisions, p.hash);
      if replay.Some? {
        var row := revisions[replay.value];
        if row.status != Active { return Err(HistoricalReselection); }
        attempts := attempts[p.attemptId := attempts[p.attemptId].(selected := Some(row.id))];
        return Ok(row);
      }
      var parent := ParentOf(View(), p);
      if parent.Err? { return Err(parent.error); }
      var number := NextNumber(revisions);
      // These two refusals roll back; here they come before the writes.
      if (number == 1) != p.parentId.None? { return Err(OnlyFirstOmitsParent); }
      if FindId(revisions, p.newId).Some? { return Err(InsertRejected); }
      var graph := if parent.value.Some? then Some(revisions[parent.value.value].graph) else None;
      var parentRow := if parent.value.Some? then revisions[parent.value.value].id else "";
      Supersede();
      var safe := if parent.value.Some? then SafeNodes(steps, parentRow) else {};
      var row := Revision(p.newId, number, p.parentId, p.workInputId, p.attemptId, Active, p.hash, p.goalHash, p.graph,
                          PlanDiff.TransitionOf(graph, p.graph, safe), None);
      revisions := revisions + [row];
      attempts := attempts[p.attemptId := attempts[p.attemptId].(selected := Some(p.newId))];
      r := Ok(row);
    }

    method CompletePlan(id: string, proof: Proof) returns (r: Result<bool, Error>)
      modifies this`revisions
      ensures var spec := Complete(old(View()), id, proof);
        match spec
        case Err(e) => r == Err(e) && View() == old(View())
        case Ok((s, done)) => r == Ok(done) && View() == s
    {
      if proof.version != 1 || !proof.verified { return Err(ProofRequired); }
      var at := FindId(revisions, id);
      if at.None? || revisions[at.value].status != Active { return Ok(false); }
      if !Proves(proof, revisions[at.value]) { return Err(ProofMismatch); }
      revisions := revisions[at.value := revisions[at.value].(status := Completed, proof := Some(proof))];
      r := Ok(true);
    }
  }
}
