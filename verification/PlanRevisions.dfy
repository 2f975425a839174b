/** The plan revisions of one Work (persistSelectedWorkPlanTx and
    completeWorkPlanRevisionTx in finnor-os/packages/db/index.ts). */
module PlanRevisions {
  import opened Basics
  import PlanDiff

  datatype Status = Active | Superseded | Completed | Blocked | Failed

  /** A logical attempt under a plan: what makes it count as safely completed. */
  datatype Step = Step(planRevisionId: string, planNodeId: Option<string>, done: bool, outcomeGood: bool, failureEmpty: bool, verified: bool)

  datatype Proof = Proof(version: int, verified: bool, finalRevisionId: string, planRevisionId: string, planHash: string,
                         goalHash: string, verificationState: string, hasVerifiedAt: bool, hasConditionHash: bool)

  datatype Revision = Revision(id: string, number: int, parentId: Option<string>, workInputId: string, attemptId: string,
                               status: Status, hash: string, goalHash: string, graph: PlanDiff.Graph,
                               transition: PlanDiff.Transition, proof: Option<Proof>)

  datatype Attempt = Attempt(workInputId: string, selected: Option<string>)

  /** Inputs in order of arrival; `intake` holds those with an intake event in the log. */
  datatype Plans = Plans(revisions: seq<Revision>, steps: seq<Step>, attempts: map<string, Attempt>, inputs: seq<string>, intake: set<string>)

  datatype Selection = Selection(attemptId: string, workInputId: string, parentId: Option<string>, hash: string,
                                 goalHash: string, graph: PlanDiff.Graph, newId: string)

  datatype Error = AttemptMismatch | HistoricalReselection | DifferentActive | NotLatestHistorical | CompletedNeedsNewInput
                 | NotResumable | OnlyFirstOmitsParent | InsertRejected | ProofRequired | ProofMismatch

  // ------------------------------------------------------------------------
  // Queries
  // ------------------------------------------------------------------------

  function FindHash(revisions: seq<Revision>, hash: string): (r: Option<nat>)
    ensures r.Some? ==> r.value < |revisions| && revisions[r.value].hash == hash
    ensures r.None? <==> forall i :: 0 <= i < |revisions| ==> revisions[i].hash != hash
  {
    if revisions == [] then None
    else if revisions[|revisions| - 1].hash == hash then Some(|revisions| - 1)
    else FindHash(revisions[..|revisions| - 1], hash)
  }

  function FindId(revisions: seq<Revision>, id: string): (r: Option<nat>)
    ensures r.Some? ==> r.value < |revisions| && revisions[r.value].id == id
    ensures r.None? <==> forall i :: 0 <= i < |revisions| ==> revisions[i].id != id
  {
    if revisions == [] then None
    else if revisions[|revisions| - 1].id == id then Some(|revisions| - 1)
    else FindId(revisions[..|revisions| - 1], id)
  }

  function FindActive(revisions: seq<Revision>): (r: Option<nat>)
    ensures r.Some? ==> r.value < |revisions| && revisions[r.value].status == Active
    ensures r.None? <==> forall i :: 0 <= i < |revisions| ==> revisions[i].status != Active
  {
    if revisions == [] then None
    else if revisions[|revisions| - 1].status == Active then Some(|revisions| - 1)
    else FindActive(revisions[..|revisions| - 1])
  }

  /** The row with the greatest revision number. */
  function FindLatest(revisions: seq<Revision>): (r: Option<nat>)
    ensures r.Some? ==> r.value < |revisions|
    ensures r.Some? ==> forall i :: 0 <= i < |revisions| ==> revisions[i].number <= revisions[r.value].number
    ensures r.None? <==> revisions == []
  {
    if revisions == [] then None
    else
      var n := |revisions| - 1;
      var before := FindLatest(revisions[..n]);
      if before.Some? && revisions[before.value].number >= revisions[n].number then before else Some(n)
  }

  // ------------------------------------------------------------------------
  // Selecting a plan
  // ------------------------------------------------------------------------

  function Retired(s: Step, planId: string): Step {
    if s.planRevisionId == planId && !s.done then s.(done := true, outcomeGood := false, failureEmpty := false) else s
  }

  /** Replacing a plan finishes its open attempts as blocked. */
  function RetireSteps(steps: seq<Step>, planId: string): (r: seq<Step>)
    ensures |r| == |steps|
  {
    if steps == [] then []
    else
      RetireSteps(steps[..|steps| - 1], planId) + [Retired(steps[|steps| - 1], planId)]
  }

  predicate SafelyCompleted(step: Step, planId: string) {
    step.planRevisionId == planId && step.done && (step.verified || (step.outcomeGood && step.failureEmpty))
  }

  function SafeNodes(steps: seq<Step>, planId: string): set<string> {
    set s | s in steps && SafelyCompleted(s, planId) && s.planNodeId.Some? && s.planNodeId.value != "" :: s.planNodeId.value
  }

  function Current(inputs: seq<string>): Option<string> {
    if inputs == [] then None else Some(inputs[|inputs| - 1])
  }

  /** Which row a selection continues, or why it may not. */
  function ParentOf(s: Plans, p: Selection): Result<Option<nat>, Error> {
    var active := FindActive(s.revisions);
    if active.Some? then
      if Some(s.revisions[active.value].id) != p.parentId then Err(DifferentActive) else Ok(active)
    else if p.parentId.None? then Ok(None)
    else
      var at := FindId(s.revisions, p.parentId.value);
      var latest := FindLatest(s.revisions);
      if at.None? || latest.None? || s.revisions[latest.value].id != s.revisions[at.value].id then Err(NotLatestHistorical)
      else
        var parent := s.revisions[at.value];
        if parent.status == Completed then
          if Current(s.inputs) != Some(p.workInputId) || p.workInputId == parent.workInputId || p.workInputId !in s.intake
          then Err(CompletedNeedsNewInput) else Ok(at)
        else if parent.status == Active then Err(NotResumable)
        else Ok(at)
  }

  function Superseding(s: Plans): Plans {
    var active := FindActive(s.revisions);
    if active.None? then s
    else
      var old_ := s.revisions[active.value];
      s.(revisions := s.revisions[active.value := old_.(status := Superseded)], steps := RetireSteps(s.steps, old_.id))
  }

  function NextNumber(revisions: seq<Revision>): int {
    var latest := FindLatest(revisions);
    (if latest.Some? then revisions[latest.value].number else 0) + 1
  }

  function Select(s: Plans, p: Selection): Result<(Plans, Revision), Error> {
    if p.attemptId !in s.attempts || s.attempts[p.attemptId].workInputId != p.workInputId then Err(AttemptMismatch)
    else
      var replay := FindHash(s.revisions, p.hash);
      if replay.Some? then
        var r := s.revisions[replay.value];
        if r.status != Active then Err(HistoricalReselection)
        else Ok((s.(attempts := s.attempts[p.attemptId := s.attempts[p.attemptId].(selected := Some(r.id))]), r))
      else
        var parent := ParentOf(s, p);
        if parent.Err? then Err(parent.error)
        else
          var s1 := Superseding(s);
          var number := NextNumber(s.revisions);
          if (number == 1) != p.parentId.None? then Err(OnlyFirstOmitsParent)
          else if FindId(s.revisions, p.newId).Some? then Err(InsertRejected)
          else
            var graph := if parent.value.Some? then Some(s.revisions[parent.value.value].graph) else None;
            var safe := if parent.value.Some? then SafeNodes(s1.steps, s.revisions[parent.value.value].id) else {};
            var r := Revision(p.newId, number, p.parentId, p.workInputId, p.attemptId, Active, p.hash, p.goalHash, p.graph,
                              PlanDiff.TransitionOf(graph, p.graph, safe), None);
            Ok((s1.(revisions := s1.revisions + [r],
                    attempts := s1.attempts[p.attemptId := s1.attempts[p.attemptId].(selected := Some(p.newId))]), r))
  }

  // ------------------------------------------------------------------------
  // Completing a plan
  // ------------------------------------------------------------------------

  predicate Proves(proof: Proof, r: Revision) {
    && proof.finalRevisionId == r.id && proof.planRevisionId == r.id && proof.planHash == r.hash && proof.goalHash == r.goalHash
    && proof.verificationState == "verified" && proof.hasVerifiedAt && proof.hasConditionHash
  }

  function Complete(s: Plans, id: string, proof: Proof): Result<(Plans, bool), Error> {
    if proof.version != 1 || !proof.verified then Err(ProofRequired)
    else
      var at := FindId(s.revisions, id);
      if at.None? || s.revisions[at.value].status != Active then Ok((s, false))
      else if !Proves(proof, s.revisions[at.value]) then Err(ProofMismatch)
      else
        var r := s.revisions[at.value];
        Ok((s.(revisions := s.revisions[at.value := r.(status := Completed, proof := Some(proof))]), true))
  }

  // ------------------------------------------------------------------------
  // Runs
  // ------------------------------------------------------------------------

  datatype Op =
    | SelectOp(selection: Selection)
    | CompleteOp(id: string, proof: Proof)
    | RetireOp(to: Status)                      // the loop ends, redirects or fails the active plan
    | StepsOp(steps: seq<Step>)                 // execution of steps
    | InputOp(input: string, recorded: bool)
    | AttemptOp(attempt: string, forInput: string)

  function Apply(s: Plans, op: Op): Plans {
    match op
    case SelectOp(p) =>
      var r := Select(s, p);
      if r.Ok? then r.value.0 else s
    case CompleteOp(id, proof) =>
      var r := Complete(s, id, proof);
      if r.Ok? then r.value.0 else s
    case RetireOp(to) =>
      var active := FindActive(s.revisions);
      if active.None? || to == Active || to == Completed then s
      else s.(revisions := s.revisions[active.value := s.revisions[active.value].(status := to)])
    case StepsOp(steps) => s.(steps := steps)
    case InputOp(input, recorded) =>
      if input in s.inputs then s
      else s.(inputs := s.inputs + [input], intake := if recorded then s.intake + {input} else s.intake)
    case AttemptOp(attempt, forInput) =>
      if attempt in s.attempts then s else s.(attempts := s.attempts[attempt := Attempt(forInput, None)])
  }

  function Run(s: Plans, ops: seq<Op>): Plans {
    if ops == [] then s else Apply(Run(s, ops[..|ops| - 1]), ops[|ops| - 1])
  }

  const EMPTY := Plans([], [], map[], [], {})

  // ------------------------------------------------------------------------
  // The chain
  // ------------------------------------------------------------------------

  /** The record of a revision is the difference to its predecessor, for what was safely
      completed when it was selected. */
  ghost predicate RecordsDifference(r: Revision, parent: Revision) {
    exists safe: set<string> :: r.transition == PlanDiff.TransitionOf(Some(parent.graph), r.graph, safe)
  }

  ghost predicate LinkAt(revisions: seq<Revision>, k: nat)
    requires k < |revisions|
  {
    && revisions[k].number == k + 1
    && (k == 0 ==> revisions[k].parentId.None?)
    && (k > 0 ==> revisions[k].parentId == Some(revisions[k - 1].id))
    && (k > 0 ==> RecordsDifference(revisions[k], revisions[k - 1]))
    && (k > 0 && revisions[k - 1].status == Completed ==> revisions[k].workInputId != revisions[k - 1].workInputId)
    && (k + 1 < |revisions| ==> revisions[k].status != Active)
    && (revisions[k].status == Completed <==> revisions[k].proof.Some?)
    && (revisions[k].status == Completed ==> Proves(revisions[k].proof.value, revisions[k]))
  }

  /** No two revisions share an id or a semantic hash. */
  ghost predicate Apart(revisions: seq<Revision>) {
    && (forall i, k :: 0 <= i < k < |revisions| ==> revisions[i].id != revisions[k].id)
    && (forall i, k :: 0 <= i < k < |revisions| ==> revisions[i].hash != revisions[k].hash)
  }

  /** Revisions are numbered from one; each continues the one before it; only the newest
      may be active; ids and semantic hashes are distinct; a completed plan carries the
      proof that names it, and is continued only for another input. */
  ghost predicate Chain(revisions: seq<Revision>) {
    && (forall k :: 0 <= k < |revisions| ==> LinkAt(revisions, k))
    && Apart(revisions)
  }

  lemma LatestIsLast(revisions: seq<Revision>)
    requires Chain(revisions)
    ensures FindLatest(revisions) == if revisions == [] then None else Some(|revisions| - 1)
    ensures NextNumber(revisions) == |revisions| + 1
  {
    if revisions != [] {
      var at := FindLatest(revisions).value;
      assert LinkAt(revisions, at) && LinkAt(revisions, |revisions| - 1);
    }
  }

  lemma ActiveIsLast(revisions: seq<Revision>)
    requires Chain(revisions)
    ensures FindActive(revisions).Some? ==> FindActive(revisions).value == |revisions| - 1
  {
    if FindActive(revisions).Some? {
      assert LinkAt(revisions, FindActive(revisions).value);
    }
  }

  /** Only the newest row's status and proof may move. */
  ghost predicate LastStatus(a: seq<Revision>, b: seq<Revision>) {
    && a != [] && |a| == |b|
    && var n := |a| - 1;
    && b[..n] == a[..n] && b[n] == a[n].(status := b[n].status, proof := b[n].proof)
    && (b[n].status == Completed <==> b[n].proof.Some?)
    && (b[n].status == Completed ==> Proves(b[n].proof.value, b[n]))
  }

  lemma LastStatusKeepsChain(a: seq<Revision>, b: seq<Revision>)
    requires Chain(a) && LastStatus(a, b)
    ensures Chain(b)
  {
    var n := |a| - 1;
    forall i | 0 <= i < |a| ensures b[i].id == a[i].id && b[i].hash == a[i].hash && (i < n ==> b[i] == a[i]) {
      if i < n {
        assert b[i] == b[..n][i] == a[..n][i];
      }
    }
    forall k | 0 <= k < |b| ensures LinkAt(b, k) {
      assert LinkAt(a, k);
      if k > 0 {
        assert RecordsDifference(a[k], a[k - 1]);
        SameDifference(a[k], a[k - 1], b[k], b[k - 1]);
      }
    }
  }

  lemma SameDifference(r: Revision, parent: Revision, r': Revision, parent': Revision)
    requires RecordsDifference(r, parent) && r'.transition == r.transition && r'.graph == r.graph && parent'.graph == parent.graph
    ensures RecordsDifference(r', parent')
  {
    var safe: set<string> :| r.transition == PlanDiff.TransitionOf(Some(parent.graph), r.graph, safe);
    assert r'.transition == PlanDiff.TransitionOf(Some(parent'.graph), r'.graph, safe);
  }

  /** The row may follow these revisions. */
  ghost predicate Extends(revisions: seq<Revision>, r: Revision) {
    && r.number == |revisions| + 1 && r.status == Active && r.proof.None?
    && FindId(revisions, r.id).None? && FindHash(revisions, r.hash).None?
    && if revisions == [] then r.parentId.None?
       else
         var last := revisions[|revisions| - 1];
         && r.parentId == Some(last.id) && RecordsDifference(r, last)
         && (last.status == Completed ==> r.workInputId != last.workInputId)
  }

  lemma ExtendKeepsChain(revisions: seq<Revision>, r: Revision)
    requires Chain(revisions) && FindActive(revisions).None? && Extends(revisions, r)
    ensures Chain(revisions + [r])
  {
    NewLink(revisions, r);
    OldLinksStay(revisions, r);
    KeysStayApart(revisions, r, revisions + [r]);
    ChainFrom(revisions + [r]);
  }

  lemma ChainFrom(all: seq<Revision>)
    requires all != [] && LinkAt(all, |all| - 1) && forall k :: 0 <= k < |all| - 1 ==> LinkAt(all, k)
    requires Apart(all)
    ensures Chain(all)
  {
    forall k | 0 <= k < |all| ensures LinkAt(all, k) {
      if k == |all| - 1 {
        assert LinkAt(all, |all| - 1);
      }
    }
  }

  lemma OldLinksStay(revisions: seq<Revision>, r: Revision)
    requires Chain(revisions) && FindActive(revisions).None?
    ensures forall k :: 0 <= k < |revisions| ==> LinkAt(revisions + [r], k)
  {
    forall k | 0 <= k < |revisions| ensures LinkAt(revisions + [r], k) {
      assert LinkAt(revisions, k) && revisions[k].status != Active;
      LinkStays(revisions, r, k);
    }
  }

  lemma KeysStayApart(revisions: seq<Revision>, r: Revision, all: seq<Revision>)
    requires Apart(revisions) && FindId(revisions, r.id).None? && FindHash(revisions, r.hash).None? && all == revisions + [r]
    ensures Apart(all)
  {
    assert forall i :: 0 <= i < |revisions| ==> all[i] == revisions[i] && all[i].id != r.id && all[i].hash != r.hash;
  }

  lemma LinkStays(revisions: seq<Revision>, r: Revision, k: nat)
    requires k < |revisions| && LinkAt(revisions, k) && revisions[k].status != Active
    ensures LinkAt(revisions + [r], k)
  {
  }

  lemma NewLink(revisions: seq<Revision>, r: Revision)
    requires Extends(revisions, r)
    ensures LinkAt(revisions + [r], |revisions|)
  {
  }

  lemma SupersedingIsLastStatus(s: Plans)
    requires Chain(s.revisions)
    ensures Superseding(s).revisions == s.revisions || LastStatus(s.revisions, Superseding(s).revisions)
    ensures Chain(Superseding(s).revisions) && FindActive(Superseding(s).revisions).None?
    ensures Superseding(s).attempts == s.attempts && Superseding(s).inputs == s.inputs && Superseding(s).intake == s.intake
  {
    ActiveIsLast(s.revisions);
    if FindActive(s.revisions).Some? {
      assert LinkAt(s.revisions, |s.revisions| - 1);
      LastStatusKeepsChain(s.revisions, Superseding(s).revisions);
      ActiveIsLast(Superseding(s).revisions);
    }
  }

  lemma ParentIsLast(s: Plans, p: Selection)
    requires Chain(s.revisions) && ParentOf(s, p).Ok?
    ensures var at := ParentOf(s, p).value;
      && (at.Some? ==> at.value == |s.revisions| - 1 && s.revisions != [] && p.parentId == Some(s.revisions[at.value].id))
      && (at.None? ==> p.parentId.None?)
      && (at.Some? && s.revisions[at.value].status == Completed ==> p.workInputId != s.revisions[at.value].workInputId)
  {
    ActiveIsLast(s.revisions);
    LatestIsLast(s.revisions);
  }

  lemma WritesDifference(r: Revision, parent: Revision, safe: set<string>)
    requires r.transition == PlanDiff.TransitionOf(Some(parent.graph), r.graph, safe)
    ensures RecordsDifference(r, parent)
  {
  }

  lemma NewRevisionExtends(s: Plans, p: Selection, s1: Plans, r: Revision)
    requires Chain(s.revisions) && FindHash(s.revisions, p.hash).None? && NewRow(s, p, s1, r)
    ensures Extends(s.revisions, r)
  {
    ParentIsLast(s, p);
    LatestIsLast(s.revisions);
    if ParentOf(s, p).value.Some? {
      var parent := s.revisions[|s.revisions| - 1];
      WritesDifference(r, parent, SafeNodes(s1.steps, parent.id));
    }
  }

  lemma SelectKeepsChain(s: Plans, p: Selection)
    requires Chain(s.revisions) && Select(s, p).Ok?
    ensures Chain(Select(s, p).value.0.revisions)
  {
    if FindHash(s.revisions, p.hash).None? {
      NewRevisionOf(s, p, Superseding(s), Select(s, p).value.1);
      NewRevisionExtends(s, p, Superseding(s), Select(s, p).value.1);
      SupersedingIsLastStatus(s);
      RowExtends(s.revisions, Superseding(s).revisions, Select(s, p).value.1);
      ExtendKeepsChain(Superseding(s).revisions, Select(s, p).value.1);
    }
  }

  lemma RowExtends(a: seq<Revision>, b: seq<Revision>, r: Revision)
    requires (a == b || LastStatus(a, b)) && Extends(a, r)
    requires a != [] && b[|a| - 1].status == Completed ==> a[|a| - 1].status == Completed
    ensures Extends(b, r)
  {
    SameKeys(a, b, r.id, r.hash);
    if a != [] {
      SameDifference(r, a[|a| - 1], r, b[|a| - 1]);
    }
  }

  /** The row that a selection of an unknown hash inserts. */
  ghost predicate NewRow(s: Plans, p: Selection, s1: Plans, r: Revision) {
    && ParentOf(s, p).Ok? && r.parentId == p.parentId && r.workInputId == p.workInputId
    && r.id == p.newId && r.hash == p.hash && r.status == Active && r.proof.None?
    && r.number == NextNumber(s.revisions) && (r.number == 1 <==> p.parentId.None?)
    && FindId(s.revisions, p.newId).None?
    && (ParentOf(s, p).value.Some? ==>
          var parent := s.revisions[ParentOf(s, p).value.value];
          r.transition == PlanDiff.TransitionOf(Some(parent.graph), r.graph, SafeNodes(s1.steps, parent.id)))
  }

  lemma NewRevisionOf(s: Plans, p: Selection, s1: Plans, r: Revision)
    requires Select(s, p).Ok? && FindHash(s.revisions, p.hash).None? && s1 == Superseding(s) && r == Select(s, p).value.1
    ensures Select(s, p).value.0.revisions == s1.revisions + [r] && NewRow(s, p, s1, r)
  {
  }

  lemma SameKeys(a: seq<Revision>, b: seq<Revision>, id: string, hash: string)
    requires a == b || LastStatus(a, b)
    ensures FindId(a, id).None? <==> FindId(b, id).None?
    ensures FindHash(a, hash).None? <==> FindHash(b, hash).None?
  {
    assert |a| == |b|;
    forall i | 0 <= i < |a| ensures a[i].id == b[i].id && a[i].hash == b[i].hash {
      if i < |a| - 1 && a != b {
        assert b[i] == b[..|a| - 1][i] == a[..|a| - 1][i];
      }
    }
  }

  lemma CompleteKeepsChain(s: Plans, id: string, proof: Proof)
    requires Chain(s.revisions) && Complete(s, id, proof).Ok? && Complete(s, id, proof).value.1
    ensures Chain(Complete(s, id, proof).value.0.revisions)
  {
    var at := FindId(s.revisions, id).value;
    assert LinkAt(s.revisions, at);
    var r := s.revisions[at].(status := Completed, proof := Some(proof));
    ReplacedLast(s.revisions, r);
    LastStatusKeepsChain(s.revisions, s.revisions[at := r]);
  }

  lemma ReplacedLast(a: seq<Revision>, r: Revision)
    requires a != [] && r == a[|a| - 1].(status := r.status, proof := r.proof)
    requires r.status == Completed <==> r.proof.Some?
    requires r.status == Completed ==> Proves(r.proof.value, r)
    ensures LastStatus(a, a[|a| - 1 := r])
  {
  }

  lemma RetireKeepsChain(s: Plans, to: Status)
    requires Chain(s.revisions)
    ensures Chain(Apply(s, RetireOp(to)).revisions)
  {
    var active := FindActive(s.revisions);
    ActiveIsLast(s.revisions);
    if active.Some? && to != Active && to != Completed {
      RetiredIsLastStatus(s.revisions, to);
      LastStatusKeepsChain(s.revisions, s.revisions[|s.revisions| - 1 := s.revisions[|s.revisions| - 1].(status := to)]);
    }
  }

  lemma RetiredIsLastStatus(revisions: seq<Revision>, to: Status)
    requires Chain(revisions) && revisions != [] && revisions[|revisions| - 1].status == Active && to != Completed
    ensures LastStatus(revisions, revisions[|revisions| - 1 := revisions[|revisions| - 1].(status := to)])
  {
    assert LinkAt(revisions, |revisions| - 1);
  }

  lemma ApplyKeepsChain(s: Plans, op: Op)
    requires Chain(s.revisions)
    ensures Chain(Apply(s, op).revisions)
  {
    match op
    case SelectOp(p) =>
      if Select(s, p).Ok? {
        SelectKeepsChain(s, p);
      }
    case CompleteOp(id, proof) =>
      if Complete(s, id, proof).Ok? && Complete(s, id, proof).value.1 {
        CompleteKeepsChain(s, id, proof);
      }
    case RetireOp(to) => RetireKeepsChain(s, to);
    case _ => assert Apply(s, op).revisions == s.revisions;
  }

  /** Over every run, the revisions of a Work form one chain. */
  lemma {:induction false} ChainInEveryRun(ops: seq<Op>)
    ensures Chain(Run(EMPTY, ops).revisions)
  {
    if ops != [] {
      ChainInEveryRun(ops[..|ops| - 1]);
      ApplyKeepsChain(Run(EMPTY, ops[..|ops| - 1]), ops[|ops| - 1]);
    }
  }

  // ------------------------------------------------------------------------
  // What is settled stays settled
  // ------------------------------------------------------------------------

  /** Rows are never removed or renumbered; a row that is no longer active never changes. */
  ghost predicate Settled(a: seq<Revision>, b: seq<Revision>) {
    && |a| <= |b|
    && (forall k :: 0 <= k < |a| ==> b[k].(status := a[k].status, proof := a[k].proof) == a[k])
    && (forall k :: 0 <= k < |a| && a[k].status != Active ==> b[k] == a[k])
  }

  lemma ApplySettles(s: Plans, op: Op)
    requires Chain(s.revisions)
    ensures Settled(s.revisions, Apply(s, op).revisions)
  {
    if op.SelectOp? {
      if Select(s, op.selection).Ok? {
        SelectSettles(s, op.selection);
      }
    } else {
      OthersSettle(s, op);
    }
  }

  lemma OthersSettle(s: Plans, op: Op)
    requires !op.SelectOp?
    ensures Settled(s.revisions, Apply(s, op).revisions)
  {
  }

  lemma SelectSettles(s: Plans, p: Selection)
    requires Select(s, p).Ok?
    ensures Settled(s.revisions, Select(s, p).value.0.revisions)
  {
    if FindHash(s.revisions, p.hash).None? {
      var s1, r := Superseding(s), Select(s, p).value.1;
      NewRevisionOf(s, p, s1, r);
      SupersedingSettles(s, r);
    }
  }

  lemma SupersedingSettles(s: Plans, r: Revision)
    ensures Settled(s.revisions, Superseding(s).revisions + [r])
  {
  }

  /** From any point of a run on: history is only added to. */
  lemma {:induction false} HistoryIsSettled(before: seq<Op>, after: seq<Op>)
    ensures Settled(Run(EMPTY, before).revisions, Run(Run(EMPTY, before), after).revisions)
    ensures Chain(Run(Run(EMPTY, before), after).revisions)
  {
    ChainInEveryRun(before);
    if after != [] {
      HistoryIsSettled(before, after[..|after| - 1]);
      var middle := Run(Run(EMPTY, before), after[..|after| - 1]);
      ApplySettles(middle, after[|after| - 1]);
      ApplyKeepsChain(middle, after[|after| - 1]);
    }
  }

  // ------------------------------------------------------------------------
  // What the records say was completed
  // ------------------------------------------------------------------------

  /** Superseding a plan finishes its open steps without success; what counts as safely
      completed under it are the steps that were verified, open or not, and those that were
      done with a good outcome and no failure. */
  lemma {:induction false} RetiredSafeNodes(steps: seq<Step>, planId: string)
    ensures forall node :: node in SafeNodes(RetireSteps(steps, planId), planId) <==>
      exists s :: s in steps && s.planNodeId == Some(node) && node != "" && s.planRevisionId == planId
        && (s.verified || (s.done && s.outcomeGood && s.failureEmpty))
  {
    var retired := RetireSteps(steps, planId);
    forall node | node in SafeNodes(retired, planId)
      ensures exists s ::
        && s in steps && s.planNodeId == Some(node) && node != "" && s.planRevisionId == planId
        && (s.verified || (s.done && s.outcomeGood && s.failureEmpty))
    {
      SafeNodeHasStep(steps, retired, planId, node);
    }
    forall s | s in steps && s.planNodeId.Some? && s.planNodeId.value != "" && s.planRevisionId == planId
      && (s.verified || (s.done && s.outcomeGood && s.failureEmpty))
      ensures s.planNodeId.value in SafeNodes(retired, planId)
    {
      SafeStepHasNode(steps, retired, planId, s);
    }
  }

  lemma SafeNodeHasStep(steps: seq<Step>, retired: seq<Step>, planId: string, node: string)
    requires retired == RetireSteps(steps, planId) && node in SafeNodes(retired, planId)
    ensures exists s ::
      && s in steps && s.planNodeId == Some(node) && node != "" && s.planRevisionId == planId
      && (s.verified || (s.done && s.outcomeGood && s.failureEmpty))
  {
    var r :| r in retired && SafelyCompleted(r, planId) && r.planNodeId == Some(node) && node != "";
    var i :| 0 <= i < |retired| && retired[i] == r;
    RetiredAt(steps, planId, i);
    assert steps[i] in steps;
  }

  lemma SafeStepHasNode(steps: seq<Step>, retired: seq<Step>, planId: string, s: Step)
    requires retired == RetireSteps(steps, planId) && s in steps
    requires s.planNodeId.Some? && s.planNodeId.value != "" && s.planRevisionId == planId
    requires s.verified || (s.done && s.outcomeGood && s.failureEmpty)
    ensures s.planNodeId.value in SafeNodes(retired, planId)
  {
    var i :| 0 <= i < |steps| && steps[i] == s;
    RetiredAt(steps, planId, i);
    assert retired[i] in retired && SafelyCompleted(retired[i], planId);
  }

  lemma {:induction false} RetiredAt(steps: seq<Step>, planId: string, i: nat)
    requires i < |steps|
    ensures RetireSteps(steps, planId)[i] == Retired(steps[i], planId)
  {
    if i < |steps| - 1 {
      RetiredAt(steps[..|steps| - 1], planId, i);
    }
  }

  /** The selection that created a revision, in the state it met, and the record it wrote:
      the difference to the newest revision, for the steps of that one that counted as
      safely completed once it was superseded. */
  ghost predicate CreatedBy(s: Plans, op: Op, r: Revision)
    requires s.revisions != []
  {
    var parent := s.revisions[|s.revisions| - 1];
    && op.SelectOp? && Select(s, op.selection).Ok?
    && r == Select(s, op.selection).value.1.(status := r.status, proof := r.proof)
    && r.transition == PlanDiff.TransitionOf(Some(parent.graph), r.graph, SafeNodes(Superseding(s).steps, parent.id))
  }

  lemma GrowsOnlyBySelection(s: Plans, op: Op)
    requires Chain(s.revisions) && |Apply(s, op).revisions| > |s.revisions| > 0
    ensures |Apply(s, op).revisions| == |s.revisions| + 1
    ensures CreatedBy(s, op, Apply(s, op).revisions[|s.revisions|])
  {
    if op.SelectOp? {
      NewRevisionIsCreated(s, op.selection);
    } else {
      OthersDoNotGrow(s, op);
    }
  }

  lemma OthersDoNotGrow(s: Plans, op: Op)
    requires !op.SelectOp?
    ensures |Apply(s, op).revisions| == |s.revisions|
  {
  }

  lemma NewRevisionIsCreated(s: Plans, p: Selection)
    requires Chain(s.revisions) && Select(s, p).Ok? && |Select(s, p).value.0.revisions| > |s.revisions| > 0
    ensures |Select(s, p).value.0.revisions| == |s.revisions| + 1
    ensures CreatedBy(s, SelectOp(p), Select(s, p).value.0.revisions[|s.revisions|])
  {
    NewRevisionOf(s, p, Superseding(s), Select(s, p).value.1);
    ParentIsLast(s, p);
    LatestIsLast(s.revisions);
  }

  /** Behind every revision of a run but the first stands the selection that created it. */
  lemma {:induction false} RecordsAreEarned(ops: seq<Op>, k: nat) returns (j: nat)
    requires 0 < k < |Run(EMPTY, ops).revisions|
    ensures j < |ops| && |Run(EMPTY, ops[..j]).revisions| == k
    ensures CreatedBy(Run(EMPTY, ops[..j]), ops[j], Run(EMPTY, ops).revisions[k])
    decreases |ops|
  {
    var n := |ops| - 1;
    var before := Run(EMPTY, ops[..n]);
    ChainInEveryRun(ops[..n]);
    ApplySettles(before, ops[n]);
    if k < |before.revisions| {
      j := RecordsAreEarned(ops[..n], k);
      assert ops[..n][..j] == ops[..j];
    } else {
      j := n;
      if before.revisions == [] {
        FirstIsAlone(before, ops[n]);
      }
      GrowsOnlyBySelection(before, ops[n]);
    }
  }

  lemma FirstIsAlone(s: Plans, op: Op)
    requires s.revisions == []
    ensures |Apply(s, op).revisions| <= 1
  {
  }

  /** Selecting a graph the Work already has creates nothing: the active revision answers,
      a historical one refuses. */
  lemma ReselectionCreatesNothing(s: Plans, p: Selection, k: nat)
    requires Chain(s.revisions) && k < |s.revisions| && s.revisions[k].hash == p.hash
    requires p.attemptId in s.attempts && s.attempts[p.attemptId].workInputId == p.workInputId
    ensures s.revisions[k].status == Active ==>
      Select(s, p).Ok? && Select(s, p).value.1 == s.revisions[k] && Select(s, p).value.0.revisions == s.revisions
      && Select(s, p).value.0.attempts[p.attemptId].selected == Some(s.revisions[k].id)
    ensures s.revisions[k].status != Active ==> Select(s, p) == Err(HistoricalReselection)
  {
  }

  /** A new revision is created exactly when the graph is new and the selection names the
      newest revision as its parent (none, for the first); when that one is completed, it
      must moreover come from the newest input, recorded at intake, and not the one that
      the completed plan served. */
  lemma CreatedExactlyWhen(s: Plans, p: Selection)
    requires Chain(s.revisions)
    requires p.attemptId in s.attempts && s.attempts[p.attemptId].workInputId == p.workInputId
    requires FindHash(s.revisions, p.hash).None? && FindId(s.revisions, p.newId).None?
    ensures Select(s, p).Ok? <==>
      if s.revisions == [] then p.parentId.None?
      else
        && p.parentId == Some(s.revisions[|s.revisions| - 1].id)
        && (s.revisions[|s.revisions| - 1].status == Completed ==>
              && s.inputs != [] && s.inputs[|s.inputs| - 1] == p.workInputId && p.workInputId in s.intake
              && p.workInputId != s.revisions[|s.revisions| - 1].workInputId)
    ensures Select(s, p).Ok? ==> |Select(s, p).value.0.revisions| == |s.revisions| + 1
  {
    ParentExactly(s, p);
    LatestIsLast(s.revisions);
    if ParentOf(s, p).Ok? {
      ParentIsLast(s, p);
    }
  }

  /** Which selections find a row to continue. */
  lemma ParentExactly(s: Plans, p: Selection)
    requires Chain(s.revisions)
    ensures s.revisions == [] ==> (ParentOf(s, p).Ok? <==> p.parentId.None?)
    ensures s.revisions != [] && p.parentId.Some? ==> (ParentOf(s, p).Ok? <==>
      var last := s.revisions[|s.revisions| - 1];
      && p.parentId == Some(last.id)
      && (last.status == Completed ==>
            Current(s.inputs) == Some(p.workInputId) && p.workInputId in s.intake && p.workInputId != last.workInputId))
  {
    ActiveIsLast(s.revisions);
    LatestIsLast(s.revisions);
    if s.revisions != [] {
      var n := |s.revisions| - 1;
      IdFindsRow(s.revisions, n);
      if FindActive(s.revisions).None? && p.parentId.Some? {
        NewestIsHistorical(s, p, n);
      }
    }
  }

  lemma IdFindsRow(revisions: seq<Revision>, k: nat)
    requires Chain(revisions) && k < |revisions|
    ensures FindId(revisions, revisions[k].id) == Some(k)
  {
  }

  lemma NewestIsHistorical(s: Plans, p: Selection, n: nat)
    requires FindActive(s.revisions).None? && p.parentId.Some? && n < |s.revisions|
    requires FindLatest(s.revisions) == Some(n) && FindId(s.revisions, s.revisions[n].id) == Some(n)
    ensures ParentOf(s, p).Ok? <==>
      && p.parentId == Some(s.revisions[n].id)
      && (s.revisions[n].status == Completed ==>
            Current(s.inputs) == Some(p.workInputId) && p.workInputId in s.intake && p.workInputId != s.revisions[n].workInputId)
  {
  }
}
