/** What selecting and completing a plan write, stated on the rows themselves. */
module PlanEffects {
  import opened Basics
  import PlanDiff
  import opened PlanRevisions

  /** The row of a new revision holds what was selected, behind the others and active. */
  ghost predicate Holds(r: Revision, p: Selection, number: nat) {
    && r.id == p.newId && r.number == number && r.parentId == p.parentId && r.workInputId == p.workInputId
    && r.attemptId == p.attemptId && r.hash == p.hash && r.goalHash == p.goalHash && r.graph == p.graph
    && r.status == Active && r.proof == None
  }

  /** The step was open under the plan: it is finished, as blocked, with the plan's end as its
      failure, and keeps whether it was verified. */
  ghost predicate RetiredFrom(before: Step, after: Step, planId: string) {
    if before.planRevisionId == planId && !before.done
    then after.done && !after.outcomeGood && !after.failureEmpty && after.verified == before.verified
      && after.planRevisionId == before.planRevisionId && after.planNodeId == before.planNodeId
    else after == before
  }

  /** A selection of an unknown graph adds one active revision that holds what was selected
      and points the attempt to it. A revision that was active is superseded, and the open
      steps under it are retired; nothing else changes. */
  lemma SelectionWrites(s: Plans, p: Selection)
    requires Chain(s.revisions) && Select(s, p).Ok? && forall r :: r in s.revisions ==> r.hash != p.hash
    ensures var (s', r) := Select(s, p).value; var n := |s.revisions|;
      && |s'.revisions| == n + 1 && s'.revisions[n] == r && Holds(r, p, n + 1)
      && RowsFollow(s.revisions, s'.revisions)
      && p.attemptId in s.attempts && s.attempts[p.attemptId].workInputId == p.workInputId
      && s'.attempts == s.attempts[p.attemptId := Attempt(p.workInputId, Some(p.newId))]
      && s'.inputs == s.inputs && s'.intake == s.intake
      && StepsFollow(s, s')
  {
    var (s', r) := Select(s, p).value;
    LatestIsLast(s.revisions);
    SelectionParts(s, p, s', r, |s.revisions| + 1);
    SupersededRows(s);
    RetiredSteps(s);
  }

  /** Rows that were active are superseded and the others are as they were. */
  ghost predicate RowsFollow(before: seq<Revision>, after: seq<Revision>) {
    && |before| <= |after|
    && forall k :: 0 <= k < |before| ==>
         after[k] == if before[k].status == Active then before[k].(status := Superseded) else before[k]
  }

  lemma SelectionParts(s: Plans, p: Selection, s': Plans, r: Revision, number: nat)
    requires Select(s, p) == Ok((s', r)) && number == NextNumber(s.revisions) && forall r :: r in s.revisions ==> r.hash != p.hash
    ensures s'.revisions == Superseding(s).revisions + [r] && s'.steps == Superseding(s).steps
    ensures Holds(r, p, number)
    ensures p.attemptId in s.attempts && s.attempts[p.attemptId].workInputId == p.workInputId
    ensures s'.attempts == s.attempts[p.attemptId := Attempt(p.workInputId, Some(p.newId))]
    ensures s'.inputs == s.inputs && s'.intake == s.intake
  {
    assert FindHash(s.revisions, p.hash).None?;
  }

  lemma SupersededRows(s: Plans)
    requires Chain(s.revisions)
    ensures |Superseding(s).revisions| == |s.revisions| && RowsFollow(s.revisions, Superseding(s).revisions)
  {
    ActiveIsLast(s.revisions);
    forall k | 0 <= k < |s.revisions| - 1 ensures s.revisions[k].status != Active {
      assert LinkAt(s.revisions, k);
    }
  }

  /** A step counts as safely completed under a plan that the selection supersedes when it was
      verified, open or not, or done well; under a plan that had ended already, only when it
      was done as well. */
  ghost predicate CountsAsCompleted(step: Step, parent: Revision, node: string) {
    && step.planRevisionId == parent.id && step.planNodeId == Some(node) && node != ""
    && (step.verified || (step.outcomeGood && step.failureEmpty))
    && (step.done || (parent.status == Active && step.verified))
  }

  /** The record of a new revision is its difference to the newest one, for the nodes whose
      steps count as safely completed; the record of the first is that of a graph alone. */
  lemma SelectionRecords(s: Plans, p: Selection) returns (safe: set<string>)
    requires Chain(s.revisions) && Select(s, p).Ok? && forall r :: r in s.revisions ==> r.hash != p.hash
    ensures s.revisions == [] ==> Select(s, p).value.1.transition == PlanDiff.TransitionOf(None, p.graph, {})
    ensures s.revisions != [] ==>
      var parent := s.revisions[|s.revisions| - 1];
      && Select(s, p).value.1.transition == PlanDiff.TransitionOf(Some(parent.graph), p.graph, safe)
      && forall node :: node in safe <==> exists step :: step in s.steps && CountsAsCompleted(step, parent, node)
  {
    assert FindHash(s.revisions, p.hash).None?;
    safe := {};
    if s.revisions == [] {
      FirstRecord(s, p);
    } else {
      var parent := s.revisions[|s.revisions| - 1];
      NewRevisionIsCreated(s, p);
      safe := SafeNodes(Superseding(s).steps, parent.id);
      SafeNodesOf(s, parent);
    }
  }

  lemma FirstRecord(s: Plans, p: Selection)
    requires s.revisions == [] && Select(s, p).Ok?
    ensures Select(s, p).value.1.transition == PlanDiff.TransitionOf(None, p.graph, {})
  {
    assert FindActive(s.revisions).None? && NextNumber(s.revisions) == 1;
  }

  lemma SafeNodesOf(s: Plans, parent: Revision)
    requires Chain(s.revisions) && s.revisions != [] && parent == s.revisions[|s.revisions| - 1]
    ensures forall node :: node in SafeNodes(Superseding(s).steps, parent.id) <==>
      exists step :: step in s.steps && CountsAsCompleted(step, parent, node)
  {
    ActiveIsLast(s.revisions);
    if parent.status == Active {
      RetiredSafeNodes(s.steps, parent.id);
      forall node ensures (exists step :: step in s.steps && CountsAsCompleted(step, parent, node)) <==>
        node in SafeNodes(RetireSteps(s.steps, parent.id), parent.id)
      {
        SafeNodeOfActive(s, parent, node);
      }
    } else {
      EndedSafeNodes(s.steps, parent);
    }
  }

  lemma SafeNodeOfActive(s: Plans, parent: Revision, node: string)
    requires parent.status == Active
    ensures (exists step :: step in s.steps && CountsAsCompleted(step, parent, node)) <==>
      node in SafeNodes(RetireSteps(s.steps, parent.id), parent.id)
  {
    RetiredSafeNodes(s.steps, parent.id);
    if step :| step in s.steps && CountsAsCompleted(step, parent, node) {
      assert step.verified || (step.done && step.outcomeGood && step.failureEmpty);
    }
    if node in SafeNodes(RetireSteps(s.steps, parent.id), parent.id) {
      var step :| step in s.steps && step.planNodeId == Some(node) && node != "" && step.planRevisionId == parent.id
        && (step.verified || (step.done && step.outcomeGood && step.failureEmpty));
      assert CountsAsCompleted(step, parent, node);
    }
  }

  lemma EndedSafeNodes(steps: seq<Step>, parent: Revision)
    requires parent.status != Active
    ensures forall node :: node in SafeNodes(steps, parent.id) <==> exists step :: step in steps && CountsAsCompleted(step, parent, node)
  {
    forall step, node | step in steps && CountsAsCompleted(step, parent, node) ensures node in SafeNodes(steps, parent.id) {
      assert SafelyCompleted(step, parent.id);
    }
    forall node | node in SafeNodes(steps, parent.id) ensures exists step :: step in steps && CountsAsCompleted(step, parent, node) {
      var step :| step in steps && SafelyCompleted(step, parent.id) && step.planNodeId == Some(node) && node != "";
      assert CountsAsCompleted(step, parent, node);
    }
  }

  ghost predicate StepsFollow(s: Plans, s': Plans) {
    && |s'.steps| == |s.steps|
    && ((forall r :: r in s.revisions ==> r.status != Active) ==> s'.steps == s.steps)
    && (forall r, k :: r in s.revisions && r.status == Active && 0 <= k < |s.steps| ==>
          RetiredFrom(s.steps[k], s'.steps[k], r.id))
  }

  lemma RetiredSteps(s: Plans)
    requires Chain(s.revisions)
    ensures StepsFollow(s, Superseding(s))
  {
    ActiveIsLast(s.revisions);
    var active := FindActive(s.revisions);
    if active.Some? {
      var r := s.revisions[active.value];
      forall k | 0 <= k < |s.steps| ensures RetiredFrom(s.steps[k], Superseding(s).steps[k], r.id) {
        RetiredAt(s.steps, r.id, k);
      }
      forall other | other in s.revisions && other.status == Active ensures other == r {
        var k :| 0 <= k < |s.revisions| && s.revisions[k] == other;
        assert LinkAt(s.revisions, k);
      }
    }
  }

  /** A selection of the active graph points the attempt to it and changes nothing else. */
  lemma ReselectionWrites(s: Plans, p: Selection)
    requires Select(s, p).Ok? && exists r :: r in s.revisions && r.hash == p.hash
    ensures var (s', r) := Select(s, p).value;
      && r in s.revisions && r.hash == p.hash && r.status == Active
      && p.attemptId in s.attempts && s.attempts[p.attemptId].workInputId == p.workInputId
      && s' == s.(attempts := s.attempts[p.attemptId := Attempt(p.workInputId, Some(r.id))])
  {
    assert FindHash(s.revisions, p.hash).Some?;
  }

  /** An attempt that is unknown, or was made for another input, selects nothing. */
  lemma ForeignAttempt(s: Plans, p: Selection)
    ensures Select(s, p) == Err(AttemptMismatch) <==>
      p.attemptId !in s.attempts || s.attempts[p.attemptId].workInputId != p.workInputId
  {
    assert ParentOf(s, p).Err? ==> ParentOf(s, p).error != AttemptMismatch;
  }

  /** The proof is of version 1 and verified, and names this very revision, its graph and its
      goal in all it says. */
  ghost predicate ProofOf(proof: Proof, r: Revision) {
    && proof.version == 1 && proof.verified && proof.finalRevisionId == r.id && proof.planRevisionId == r.id
    && proof.planHash == r.hash && proof.goalHash == r.goalHash && proof.verificationState == "verified"
    && proof.hasVerifiedAt && proof.hasConditionHash
  }

  /** A revision is completed exactly when it is active and the proof is of it; that proof is
      stored, and nothing else changes. Without a verified proof of version 1 nothing is even
      looked up; a revision that is not active is answered with `false`. */
  lemma CompletedExactly(s: Plans, id: string, proof: Proof, k: nat)
    requires Chain(s.revisions) && k < |s.revisions| && s.revisions[k].id == id
    ensures var r := Complete(s, id, proof);
      && (r.Ok? && r.value.1 <==> s.revisions[k].status == Active && ProofOf(proof, s.revisions[k]))
      && (r.Ok? && r.value.1 ==>
            r.value.0 == s.(revisions := s.revisions[k := s.revisions[k].(status := Completed, proof := Some(proof))]))
      && (r.Ok? && !r.value.1 <==> proof.version == 1 && proof.verified && s.revisions[k].status != Active)
      && (r.Ok? && !r.value.1 ==> r.value.0 == s)
      && (r == Err(ProofRequired) <==> proof.version != 1 || !proof.verified)
  {
    assert FindId(s.revisions, id) == Some(k);
  }

  lemma NothingToComplete(s: Plans, id: string, proof: Proof)
    requires forall r :: r in s.revisions ==> r.id != id
    ensures Complete(s, id, proof) == if proof.version != 1 || !proof.verified then Err(ProofRequired) else Ok((s, false))
  {
    assert FindId(s.revisions, id).None?;
  }
}
