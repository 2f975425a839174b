/** Recomputing a Work's status from its durable children (reconcileWorkStatus in
    finnor-os/packages/db/index.ts). The children arrive as counts per status. */
module WorkReconciliation {
  import opened Basics
  import opened WorkKernel

  datatype ActionStatus =
    | ActionDraft | ActionPending | ActionNeedsReview | ActionApproved | ActionExecuting | ActionCompleted
    | ActionRejected | ActionFailed | ActionIntegrationDown | OtherAction(text: string)
  datatype RunStatus =
    | RunRunning | RunCompleted | RunFailed | RunCompensating | RunCompensated | RunPaused | RunCancelled | RunEscalated
  datatype RepairStatus = RepairPlanning | RepairProposed | RepairNoRemainder | RepairFailed
  datatype OperationStatus =
    | OperationAwaitingApproval | OperationQueued | OperationRunning | OperationCompleted | OperationCompletedWithFailures
    | OperationNeedsReview | OperationFailed | OperationCancelled
  datatype ProgrammeStatus = Progressing | ProgrammeWaiting | ProgrammeBlocked | Stopped | Reconciling | ProgrammeFailed | ProgrammeComplete
  datatype LoopState = Continue | LoopAwaitingApproval | LoopWaiting | LoopBlocked | LoopCompleted | LoopFailed | LoopCancelled

  /** The child rows of one Work. */
  datatype Children = Children(actions: seq<ActionStatus>, runs: seq<RunStatus>, repairs: seq<RepairStatus>,
                               operations: seq<OperationStatus>, programmes: seq<ProgrammeStatus>, loop: Option<LoopState>)

  // ------------------------------------------------------------------------
  // Counts per status
  // ------------------------------------------------------------------------

  datatype Group<!S> = Group(counts: map<S, nat>, total: nat)

  function CountOf<S(==)>(g: Group<S>, status: S): nat {
    if status in g.counts then g.counts[status] else 0
  }

  /** What a grouped count query returns for the rows. */
  function GroupRows<S(==)>(rows: seq<S>): Group<S> {
    if rows == [] then Group(map[], 0)
    else
      var before := GroupRows(rows[..|rows| - 1]);
      var last := rows[|rows| - 1];
      Group(before.counts[last := CountOf(before, last) + 1], before.total + 1)
  }

  predicate Has<S(==)>(g: Group<S>, statuses: seq<S>) {
    exists s :: s in statuses && CountOf(g, s) > 0
  }

  function SumOf<S(==)>(g: Group<S>, statuses: seq<S>): nat {
    if statuses == [] then 0 else SumOf(g, statuses[..|statuses| - 1]) + CountOf(g, statuses[|statuses| - 1])
  }

  predicate All<S(==)>(g: Group<S>, statuses: seq<S>) {
    g.total == 0 || SumOf(g, statuses) == g.total
  }

  predicate AnyRow<S(==)>(rows: seq<S>, statuses: seq<S>) {
    exists i :: 0 <= i < |rows| && rows[i] in statuses
  }

  predicate EveryRow<S(==)>(rows: seq<S>, statuses: seq<S>) {
    forall i :: 0 <= i < |rows| ==> rows[i] in statuses
  }

  ghost predicate Distinct<S>(statuses: seq<S>) {
    forall i, k :: 0 <= i < k < |statuses| ==> statuses[i] != statuses[k]
  }

  lemma {:induction false} CountIsMultiplicity<S>(rows: seq<S>)
    ensures GroupRows(rows).total == |rows|
    ensures forall s :: CountOf(GroupRows(rows), s) == multiset(rows)[s]
  {
    if rows != [] {
      var init, last := rows[..|rows| - 1], rows[|rows| - 1];
      CountIsMultiplicity(init);
      assert rows == init + [last];
    }
  }

  lemma HasIsAnyRow<S>(rows: seq<S>, statuses: seq<S>)
    ensures Has(GroupRows(rows), statuses) <==> AnyRow(rows, statuses)
  {
    CountIsMultiplicity(rows);
    if Has(GroupRows(rows), statuses) {
      var s :| s in statuses && CountOf(GroupRows(rows), s) > 0;
      assert s in multiset(rows);
      var i :| 0 <= i < |rows| && rows[i] == s;
    }
    if AnyRow(rows, statuses) {
      var i :| 0 <= i < |rows| && rows[i] in statuses;
      assert rows[i] in multiset(rows);
      assert CountOf(GroupRows(rows), rows[i]) > 0;
    }
  }

  function InList<S(==)>(rows: seq<S>, statuses: seq<S>): nat {
    if rows == [] then 0 else InList(rows[..|rows| - 1], statuses) + if rows[|rows| - 1] in statuses then 1 else 0
  }

  lemma {:induction false} SumOfOne<S>(g: Group<S>, g': Group<S>, row: S, statuses: seq<S>)
    requires Distinct(statuses)
    requires forall s :: CountOf(g', s) == CountOf(g, s) + if s == row then 1 else 0
    ensures SumOf(g', statuses) == SumOf(g, statuses) + if row in statuses then 1 else 0
  {
    if statuses != [] {
      var init, last := statuses[..|statuses| - 1], statuses[|statuses| - 1];
      SumOfOne(g, g', row, init);
      assert statuses == init + [last];
    }
  }

  lemma {:induction false} SumOfNothing<S>(statuses: seq<S>)
    ensures SumOf(Group(map[], 0), statuses) == 0
  {
    if statuses != [] {
      SumOfNothing(statuses[..|statuses| - 1]);
    }
  }

  lemma {:induction false} SumCountsRows<S>(rows: seq<S>, statuses: seq<S>)
    requires Distinct(statuses)
    ensures SumOf(GroupRows(rows), statuses) == InList(rows, statuses)
    ensures InList(rows, statuses) <= |rows|
    ensures InList(rows, statuses) == |rows| <==> EveryRow(rows, statuses)
  {
    if rows == [] {
      SumOfNothing(statuses);
    } else {
      var init, last := rows[..|rows| - 1], rows[|rows| - 1];
      SumCountsRows(init, statuses);
      SumOfOne(GroupRows(init), GroupRows(rows), last, statuses);
      assert rows == init + [last];
    }
  }

  lemma AllIsEveryRow<S>(rows: seq<S>, statuses: seq<S>)
    requires Distinct(statuses)
    ensures All(GroupRows(rows), statuses) <==> EveryRow(rows, statuses)
  {
    CountIsMultiplicity(rows);
    SumCountsRows(rows, statuses);
  }

  // ------------------------------------------------------------------------
  // The decision
  // ------------------------------------------------------------------------

  datatype Snapshot = Snapshot(actions: Group<ActionStatus>, runs: Group<RunStatus>, repairs: Group<RepairStatus>,
                               operations: Group<OperationStatus>, programmes: Group<ProgrammeStatus>, loop: Option<LoopState>)

  function SnapshotOf(c: Children): Snapshot {
    Snapshot(GroupRows(c.actions), GroupRows(c.runs), GroupRows(c.repairs), GroupRows(c.operations), GroupRows(c.programmes), c.loop)
  }

  function LoopStatus(state: LoopState): Status {
    match state
    case Continue => Executing
    case LoopAwaitingApproval => AwaitingApproval
    case LoopWaiting => Waiting
    case LoopBlocked => Blocked
    case LoopCompleted => Completed
    case LoopFailed => Failed
    case LoopCancelled => Cancelled
  }

  function ProgrammeDecision(g: Group<ProgrammeStatus>): Option<Status> {
    if g.total == 0 then None
    else if Has(g, [Reconciling]) then Some(Recovery)
    else if Has(g, [Progressing]) then Some(Executing)
    else if Has(g, [ProgrammeWaiting]) then Some(Waiting)
    else if Has(g, [ProgrammeBlocked]) then Some(Blocked)
    else None
  }

  function ChildDecision(n: Snapshot, status: Status): Status {
    if Has(n.repairs, [RepairPlanning, RepairProposed]) || Has(n.operations, [OperationNeedsReview]) then Recovery
    else if Has(n.operations, [OperationQueued, OperationRunning]) || Has(n.runs, [RunRunning, RunCompensating])
      || Has(n.actions, [ActionApproved, ActionExecuting]) then Executing
    else if Has(n.actions, [ActionPending, ActionNeedsReview]) || Has(n.runs, [RunPaused, RunEscalated]) then AwaitingApproval
    else if Has(n.actions, [ActionDraft]) then Actionable
    else if Has(n.actions, [ActionFailed, ActionIntegrationDown]) || Has(n.runs, [RunFailed]) || Has(n.operations, [OperationFailed])
    then Failed
    else if n.actions.total > 0 && All(n.actions, [ActionRejected]) && All(n.runs, [RunCancelled])
      && All(n.operations, [OperationCancelled]) then Cancelled
    else if n.actions.total > 0 && All(n.actions, [ActionCompleted, ActionRejected])
      && All(n.runs, [RunCompleted, RunCompensated, RunCancelled])
      && All(n.operations, [OperationCompleted, OperationCompletedWithFailures, OperationCancelled]) then Completed
    else status
  }

  datatype Verdict = Verdict(status: Status, eventType: string)

  const PROGRAMME_EVENT := "programme_occupation_reconciled"
  const LOOP_EVENT := "objective_loop_reconciled"
  const CHILDREN_EVENT := "children_reconciled"

  /** The status the children imply for a Work in some status, and the event that says so. */
  function Decide(n: Snapshot, status: Status): Verdict {
    if IsImmutable(status) then Verdict(status, CHILDREN_EVENT)
    else
      var programme := ProgrammeDecision(n.programmes);
      if programme.Some? then Verdict(programme.value, PROGRAMME_EVENT)
      else if n.loop.Some? then Verdict(LoopStatus(n.loop.value), LOOP_EVENT)
      else if n.actions.total == 0 && n.runs.total == 0 then Verdict(status, CHILDREN_EVENT)
      else Verdict(ChildDecision(n, status), CHILDREN_EVENT)
  }

  const NO_PATCH := Patch(None, None, None)

  /** The snapshot is one transaction and the transition another: the verdict is taken in
      `before`, and unless it is the status read there, the Work is moved in `after`. */
  function ReconcileLate(before: Store, after: Store, workId: WorkId, c: Children): Result<(Store, Status), Error> {
    if workId !in before.works then Err(WorkNotFound)
    else
      var v := Decide(SnapshotOf(c), before.works[workId].status);
      if v.status == before.works[workId].status then Ok((after, v.status))
      else
        match TransitionWork(after, workId, v.status, v.eventType, None, NO_PATCH)
        case Err(e) => Err(e)
        case Ok(s') => Ok((s', v.status))
  }

  /** Reconciliation with nothing in between. */
  function Reconcile(s: Store, workId: WorkId, c: Children): Result<(Store, Status), Error> {
    ReconcileLate(s, s, workId, c)
  }

  // ------------------------------------------------------------------------
  // Grouped counts decide like rows
  // ------------------------------------------------------------------------

  /** The same rules, asked of the rows themselves. */
  ghost function RowDecision(c: Children, status: Status): Status {
    if AnyRow(c.repairs, [RepairPlanning, RepairProposed]) || AnyRow(c.operations, [OperationNeedsReview]) then Recovery
    else if AnyRow(c.operations, [OperationQueued, OperationRunning]) || AnyRow(c.runs, [RunRunning, RunCompensating])
      || AnyRow(c.actions, [ActionApproved, ActionExecuting]) then Executing
    else if AnyRow(c.actions, [ActionPending, ActionNeedsReview]) || AnyRow(c.runs, [RunPaused, RunEscalated]) then AwaitingApproval
    else if AnyRow(c.actions, [ActionDraft]) then Actionable
    else if AnyRow(c.actions, [ActionFailed, ActionIntegrationDown]) || AnyRow(c.runs, [RunFailed])
      || AnyRow(c.operations, [OperationFailed]) then Failed
    else if c.actions != [] && EveryRow(c.actions, [ActionRejected]) && EveryRow(c.runs, [RunCancelled])
      && EveryRow(c.operations, [OperationCancelled]) then Cancelled
    else if c.actions != [] && EveryRow(c.actions, [ActionCompleted, ActionRejected])
      && EveryRow(c.runs, [RunCompleted, RunCompensated, RunCancelled])
      && EveryRow(c.operations, [OperationCompleted, OperationCompletedWithFailures, OperationCancelled]) then Completed
    else status
  }

  lemma GroupedChildrenAreRowwise(c: Children, status: Status)
    ensures ChildDecision(SnapshotOf(c), status) == RowDecision(c, status)
  {
    HasIsAnyRow(c.repairs, [RepairPlanning, RepairProposed]);
    HasIsAnyRow(c.operations, [OperationNeedsReview]);
    HasIsAnyRow(c.operations, [OperationQueued, OperationRunning]);
    HasIsAnyRow(c.operations, [OperationFailed]);
    HasIsAnyRow(c.runs, [RunRunning, RunCompensating]);
    HasIsAnyRow(c.runs, [RunPaused, RunEscalated]);
    HasIsAnyRow(c.runs, [RunFailed]);
    HasIsAnyRow(c.actions, [ActionApproved, ActionExecuting]);
    HasIsAnyRow(c.actions, [ActionPending, ActionNeedsReview]);
    HasIsAnyRow(c.actions, [ActionDraft]);
    HasIsAnyRow(c.actions, [ActionFailed, ActionIntegrationDown]);
    AllIsEveryRow(c.actions, [ActionRejected]);
    AllIsEveryRow(c.runs, [RunCancelled]);
    AllIsEveryRow(c.operations, [OperationCancelled]);
    AllIsEveryRow(c.actions, [ActionCompleted, ActionRejected]);
    AllIsEveryRow(c.runs, [RunCompleted, RunCompensated, RunCancelled]);
    AllIsEveryRow(c.operations, [OperationCompleted, OperationCompletedWithFailures, OperationCancelled]);
    CountIsMultiplicity(c.actions);
  }

  ghost function RowProgramme(rows: seq<ProgrammeStatus>): Option<Status> {
    if AnyRow(rows, [Reconciling]) then Some(Recovery)
    else if AnyRow(rows, [Progressing]) then Some(Executing)
    else if AnyRow(rows, [ProgrammeWaiting]) then Some(Waiting)
    else if AnyRow(rows, [ProgrammeBlocked]) then Some(Blocked)
    else None
  }

  /** The whole verdict from the rows: programme occupations first, then the loop, then the
      actions, runs, repairs and operations, if there is an action or a run at all. */
  ghost function RowVerdict(c: Children, status: Status): Verdict {
    if IsImmutable(status) then Verdict(status, CHILDREN_EVENT)
    else if RowProgramme(c.programmes).Some? then Verdict(RowProgramme(c.programmes).value, PROGRAMME_EVENT)
    else if c.loop.Some? then Verdict(LoopStatus(c.loop.value), LOOP_EVENT)
    else if c.actions == [] && c.runs == [] then Verdict(status, CHILDREN_EVENT)
    else Verdict(RowDecision(c, status), CHILDREN_EVENT)
  }

  lemma GroupedProgrammesAreRowwise(rows: seq<ProgrammeStatus>)
    ensures ProgrammeDecision(GroupRows(rows)) == RowProgramme(rows)
  {
    CountIsMultiplicity(rows);
    HasIsAnyRow(rows, [Reconciling]);
    HasIsAnyRow(rows, [Progressing]);
    HasIsAnyRow(rows, [ProgrammeWaiting]);
    HasIsAnyRow(rows, [ProgrammeBlocked]);
  }

  /** The verdict from counts per status is the verdict the rows of every child table give. */
  lemma GroupedDecisionIsRowwise(c: Children, status: Status)
    ensures Decide(SnapshotOf(c), status) == RowVerdict(c, status)
  {
    GroupedProgrammesAreRowwise(c.programmes);
    GroupedChildrenAreRowwise(c, status);
    CountIsMultiplicity(c.actions);
    CountIsMultiplicity(c.runs);
  }

  // ------------------------------------------------------------------------
  // Reconciliation as a whole
  // ------------------------------------------------------------------------

  /** It fails only for an unknown Work; it never raises a transition conflict; what it
      answers is what the Work then says; it leaves completed, failed and cancelled Work,
      and every other Work, alone; and doing it again changes nothing. */
  lemma ReconcileIsSafe(s: Store, workId: WorkId, c: Children)
    ensures Reconcile(s, workId, c).Ok? <==> workId in s.works
    ensures workId in s.works ==>
      var (s', status) := Reconcile(s, workId, c).value; var w := s.works[workId];
      && workId in s'.works && s'.works[workId].status == status
      && (IsImmutable(w.status) ==> s' == s)
      && (forall other :: other != workId ==> (other in s'.works <==> other in s.works))
      && (forall other :: other != workId && other in s.works ==> s'.works[other] == s.works[other])
      && (LogSound(w) ==> LogSound(s'.works[workId]))
      && |w.log| <= |s'.works[workId].log| <= |w.log| + 1
      && Reconcile(s', workId, c) == Ok((s', status))
  {
    if workId in s.works {
      var v := Decide(SnapshotOf(c), s.works[workId].status);
      ReconcileMoves(s, workId, c);
      var s' := Moved(s, workId, v);
      MovedLog(s.works[workId], v);
      DecideAgain(SnapshotOf(c), s.works[workId].status);
      ReconcileMoves(s', workId, c);
    }
  }

  /** The Work with the verdict written, if it says anything new. */
  function MovedWork(w: Work, v: Verdict): Work {
    if v.status == w.status then w else Append(w, v.eventType, v.status, None)
  }

  function Moved(s: Store, workId: WorkId, v: Verdict): Store
    requires workId in s.works
  {
    if v.status == s.works[workId].status then s else s.(works := s.works[workId := MovedWork(s.works[workId], v)])
  }

  /** Reconciliation writes its verdict, to no other Work, and never fails. */
  lemma ReconcileMoves(s: Store, workId: WorkId, c: Children)
    requires workId in s.works
    ensures var v := Decide(SnapshotOf(c), s.works[workId].status);
      Reconcile(s, workId, c) == Ok((Moved(s, workId, v), v.status))
    ensures IsImmutable(s.works[workId].status) ==> Decide(SnapshotOf(c), s.works[workId].status).status == s.works[workId].status
  {
    if !IsImmutable(s.works[workId].status) {
      VerdictIsAllowed(s, workId, Decide(SnapshotOf(c), s.works[workId].status));
    }
  }

  lemma VerdictIsAllowed(s: Store, workId: WorkId, v: Verdict)
    requires workId in s.works && !IsImmutable(s.works[workId].status)
    ensures TransitionWork(s, workId, v.status, v.eventType, None, NO_PATCH)
         == Ok(s.(works := s.works[workId := Append(s.works[workId], v.eventType, v.status, None)]))
  {
  }

  lemma MovedLog(w: Work, v: Verdict)
    ensures MovedWork(w, v).status == v.status
    ensures |w.log| <= |MovedWork(w, v).log| <= |w.log| + 1
    ensures LogSound(w) ==> LogSound(MovedWork(w, v))
  {
    if LogSound(w) {
      AppendKeepsLogSound(w, v.eventType, v.status, None);
    }
  }

  /** Deciding again from the status decided gives that status. */
  lemma DecideAgain(n: Snapshot, status: Status)
    ensures Decide(n, Decide(n, status).status).status == Decide(n, status).status
  {
  }

  /** No action, run or operation is open or failed, and no repair is open. Failed repairs
      are not looked at. */
  ghost predicate Settled(c: Children) {
    && EveryRow(c.actions, [ActionCompleted, ActionRejected])
    && EveryRow(c.runs, [RunCompleted, RunCompensated, RunCancelled])
    && EveryRow(c.repairs, [RepairNoRemainder, RepairFailed])
    && EveryRow(c.operations, [OperationCompleted, OperationCompletedWithFailures, OperationCancelled])
  }

  /** Everything there is was rejected or cancelled. */
  ghost predicate CalledOff(c: Children) {
    && EveryRow(c.actions, [ActionRejected]) && EveryRow(c.runs, [RunCancelled])
    && EveryRow(c.operations, [OperationCancelled])
  }

  lemma CompletedRowsExactly(c: Children, status: Status)
    requires status != Completed
    ensures RowDecision(c, status) == Completed <==> c.actions != [] && Settled(c) && !CalledOff(c)
  {
    OpenOrSettled(c);
  }

  /** A row is either open or failed, or settled. */
  lemma OpenOrSettled(c: Children)
    ensures AnyRow(c.repairs, [RepairPlanning, RepairProposed]) <==> !EveryRow(c.repairs, [RepairNoRemainder, RepairFailed])
    ensures EveryRow(c.actions, [ActionCompleted, ActionRejected]) ==>
      !AnyRow(c.actions, [ActionApproved, ActionExecuting]) && !AnyRow(c.actions, [ActionPending, ActionNeedsReview])
      && !AnyRow(c.actions, [ActionDraft]) && !AnyRow(c.actions, [ActionFailed, ActionIntegrationDown])
    ensures EveryRow(c.runs, [RunCompleted, RunCompensated, RunCancelled]) ==>
      !AnyRow(c.runs, [RunRunning, RunCompensating]) && !AnyRow(c.runs, [RunPaused, RunEscalated]) && !AnyRow(c.runs, [RunFailed])
    ensures EveryRow(c.operations, [OperationCompleted, OperationCompletedWithFailures, OperationCancelled]) ==>
      !AnyRow(c.operations, [OperationNeedsReview]) && !AnyRow(c.operations, [OperationQueued, OperationRunning])
      && !AnyRow(c.operations, [OperationFailed])
  {
    if !EveryRow(c.repairs, [RepairNoRemainder, RepairFailed]) {
      var i :| 0 <= i < |c.repairs| && c.repairs[i] !in [RepairNoRemainder, RepairFailed];
      assert RepairNoRemainder in [RepairNoRemainder, RepairFailed] && RepairFailed in [RepairNoRemainder, RepairFailed];
      assert c.repairs[i] == RepairPlanning || c.repairs[i] == RepairProposed;
      assert RepairPlanning in [RepairPlanning, RepairProposed] && RepairProposed in [RepairPlanning, RepairProposed];
    }
  }

  /** Decided from the children, a Work is completed exactly when it has an action, its
      children are settled, and they were not all called off. */
  lemma CompletedExactlyWhen(s: Store, workId: WorkId, c: Children)
    requires workId in s.works && !IsImmutable(s.works[workId].status)
    requires c.loop.None? && ProgrammeDecision(GroupRows(c.programmes)).None?
    ensures Reconcile(s, workId, c).Ok?
    ensures Reconcile(s, workId, c).value.1 == Completed <==> c.actions != [] && Settled(c) && !CalledOff(c)
  {
    var status := s.works[workId].status;
    GroupedDecisionIsRowwise(c, status);
    CompletedRowsExactly(c, status);
    GroupedProgrammesAreRowwise(c.programmes);
  }

  /** Decided from the children alone, a Work is completed only when it has an action, none
      of its actions, runs and operations is open or failed, and no repair is open. */
  lemma CompletedOnlyWhenSettled(s: Store, workId: WorkId, c: Children)
    requires workId in s.works && !IsImmutable(s.works[workId].status)
    requires c.loop.None? && ProgrammeDecision(GroupRows(c.programmes)).None?
    requires Reconcile(s, workId, c).Ok? && Reconcile(s, workId, c).value.1 == Completed
    ensures c.actions != [] && (forall a :: a in c.actions ==> a == ActionCompleted || a == ActionRejected)
    ensures forall r :: r in c.runs ==> r == RunCompleted || r == RunCompensated || r == RunCancelled
    ensures forall r :: r in c.repairs ==> r == RepairNoRemainder || r == RepairFailed
    ensures forall o :: o in c.operations ==> o == OperationCompleted || o == OperationCompletedWithFailures || o == OperationCancelled
  {
    CompletedExactlyWhen(s, workId, c);
  }

  ghost predicate FailedChild(c: Children) {
    || AnyRow(c.actions, [ActionFailed, ActionIntegrationDown]) || AnyRow(c.runs, [RunFailed])
    || AnyRow(c.operations, [OperationFailed]) || AnyRow(c.repairs, [RepairFailed])
  }

  /** So a completed Work may have a failed child: exactly when one of its repairs failed. */
  lemma CompletedDespiteFailureExactly(s: Store, workId: WorkId, c: Children)
    requires workId in s.works && !IsImmutable(s.works[workId].status)
    requires c.loop.None? && ProgrammeDecision(GroupRows(c.programmes)).None?
    requires Reconcile(s, workId, c).Ok? && Reconcile(s, workId, c).value.1 == Completed
    ensures FailedChild(c) <==> RepairFailed in c.repairs
  {
    CompletedExactlyWhen(s, workId, c);
    OpenOrSettled(c);
    if RepairFailed in c.repairs {
      var i :| 0 <= i < |c.repairs| && c.repairs[i] == RepairFailed;
      assert c.repairs[i] in [RepairFailed];
    }
  }

  /** One completed action beside a failed repair completes the Work, from any status that
      reconciliation may touch. */
  lemma FailedRepairCompletes(s: Store, workId: WorkId)
    requires workId in s.works && !IsImmutable(s.works[workId].status)
    ensures Reconcile(s, workId, Children([ActionCompleted], [], [RepairFailed], [], [], None)).Ok?
    ensures Reconcile(s, workId, Children([ActionCompleted], [], [RepairFailed], [], [], None)).value.1 == Completed
  {
    var c := Children([ActionCompleted], [], [RepairFailed], [], [], None);
    assert c.actions[0] == ActionCompleted && ActionCompleted !in [ActionRejected];
    assert Settled(c);
    CompletedExactlyWhen(s, workId, c);
  }

  /** Settled children always complete a Work that has an action not rejected. */
  lemma SettledChildrenComplete(s: Store, workId: WorkId, c: Children)
    requires workId in s.works && !IsImmutable(s.works[workId].status)
    requires c.loop.None? && ProgrammeDecision(GroupRows(c.programmes)).None?
    requires ActionCompleted in c.actions && (forall a :: a in c.actions ==> a == ActionCompleted || a == ActionRejected)
    requires forall r :: r in c.runs ==> r == RunCompleted || r == RunCompensated || r == RunCancelled
    requires forall r :: r in c.repairs ==> r == RepairNoRemainder || r == RepairFailed
    requires forall o :: o in c.operations ==> o == OperationCompleted || o == OperationCompletedWithFailures || o == OperationCancelled
    ensures Reconcile(s, workId, c).Ok? && Reconcile(s, workId, c).value.1 == Completed
  {
    var i :| 0 <= i < |c.actions| && c.actions[i] == ActionCompleted;
    assert !EveryRow(c.actions, [ActionRejected]);
    SettledRows(c);
    CompletedExactlyWhen(s, workId, c);
  }

  lemma SettledRows(c: Children)
    requires forall a :: a in c.actions ==> a == ActionCompleted || a == ActionRejected
    requires forall r :: r in c.runs ==> r == RunCompleted || r == RunCompensated || r == RunCancelled
    requires forall r :: r in c.repairs ==> r == RepairNoRemainder || r == RepairFailed
    requires forall o :: o in c.operations ==> o == OperationCompleted || o == OperationCompletedWithFailures || o == OperationCancelled
    ensures Settled(c)
  {
    assert forall i :: 0 <= i < |c.actions| ==> c.actions[i] in c.actions;
    assert forall i :: 0 <= i < |c.runs| ==> c.runs[i] in c.runs;
    assert forall i :: 0 <= i < |c.repairs| ==> c.repairs[i] in c.repairs;
    assert forall i :: 0 <= i < |c.operations| ==> c.operations[i] in c.operations;
  }

  // ------------------------------------------------------------------------
  // Programmes and the loop
  // ------------------------------------------------------------------------

  /** The answer became the status; if that is news, one entry says where it came from. */
  ghost predicate Written(w: Work, w': Work, answer: Status, eventType: string) {
    && w'.status == answer
    && if answer == w.status then w' == w
       else
         && |w'.log| == |w.log| + 1 && w'.log[..|w.log|] == w.log
         && w'.log[|w.log|].eventType == eventType && w'.log[|w.log|].fromStatus == Some(w.status) && w'.log[|w.log|].toStatus == answer
         && w' == w.(status := answer, log := w'.log)
  }

  predicate Over(p: ProgrammeStatus) {
    p.Stopped? || p.ProgrammeFailed? || p.ProgrammeComplete?
  }

  /** A Work that is not finished takes its status from its programme occupations if one of
      them reconciles, progresses, waits or is blocked, in this order, whatever its loop and
      its children say. */
  lemma ProgrammesDecide(s: Store, workId: WorkId, c: Children)
    requires workId in s.works && s.works[workId].status !in [Completed, Failed, Cancelled]
    requires exists p :: p in c.programmes && !Over(p)
    ensures Reconcile(s, workId, c).Ok? && workId in Reconcile(s, workId, c).value.0.works
    ensures var (s', answer) := Reconcile(s, workId, c).value;
      && (answer == Recovery <==> Reconciling in c.programmes)
      && (answer == Executing <==> Reconciling !in c.programmes && Progressing in c.programmes)
      && (answer == Waiting <==> Reconciling !in c.programmes && Progressing !in c.programmes && ProgrammeWaiting in c.programmes)
      && answer in [Recovery, Executing, Waiting, Blocked]
      && Written(s.works[workId], s'.works[workId], answer, "programme_occupation_reconciled")
  {
    GroupedDecisionIsRowwise(c, s.works[workId].status);
    AnyIsIn(c.programmes);
    ReconcileMoves(s, workId, c);
  }

  lemma AnyIsIn(rows: seq<ProgrammeStatus>)
    ensures AnyRow(rows, [Reconciling]) <==> Reconciling in rows
    ensures AnyRow(rows, [Progressing]) <==> Progressing in rows
    ensures AnyRow(rows, [ProgrammeWaiting]) <==> ProgrammeWaiting in rows
    ensures AnyRow(rows, [ProgrammeBlocked]) <==> ProgrammeBlocked in rows
    ensures RowProgramme(rows).None? <==> forall p :: p in rows ==> Over(p)
  {
    assert forall i :: 0 <= i < |rows| ==> rows[i] in rows;
  }

  /** Otherwise, if it has a loop, its status is the loop's, and executing while the loop
      continues. */
  lemma LoopDecides(s: Store, workId: WorkId, c: Children)
    requires workId in s.works && s.works[workId].status !in [Completed, Failed, Cancelled] && c.loop.Some?
    requires forall p :: p in c.programmes ==> Over(p)
    ensures Reconcile(s, workId, c).Ok? && workId in Reconcile(s, workId, c).value.0.works
    ensures var (s', answer) := Reconcile(s, workId, c).value; var state := c.loop.value;
      && (answer == Executing <==> state.Continue?)
      && (answer == AwaitingApproval <==> state.LoopAwaitingApproval?)
      && (answer == Waiting <==> state.LoopWaiting?)
      && (answer == Blocked <==> state.LoopBlocked?)
      && (answer == Completed <==> state.LoopCompleted?)
      && (answer == Failed <==> state.LoopFailed?)
      && (answer == Cancelled <==> state.LoopCancelled?)
      && Written(s.works[workId], s'.works[workId], answer, "objective_loop_reconciled")
  {
    GroupedDecisionIsRowwise(c, s.works[workId].status);
    AnyIsIn(c.programmes);
    ReconcileMoves(s, workId, c);
  }

  // ------------------------------------------------------------------------
  // Other transactions between the snapshot and the transition
  // ------------------------------------------------------------------------

  /** A verdict that leaves the status read is never a conflict. Any other one is, exactly
      when the Work was meanwhile finished in another status, or failed and the verdict is
      not recovery, cancelled or failed. */
  lemma LateVerdictConflictsExactly(before: Store, after: Store, workId: WorkId, c: Children)
    requires workId in before.works && workId in after.works
    ensures var read := before.works[workId].status; var now := after.works[workId].status;
      var verdict := RowVerdict(c, read).status;
      ReconcileLate(before, after, workId, c).Err? <==>
        && verdict != read
        && (((now == Completed || now == Cancelled) && verdict != now)
            || (now == Failed && verdict != Recovery && verdict != Cancelled && verdict != Failed))
  {
    GroupedDecisionIsRowwise(c, before.works[workId].status);
  }

  /** Without a conflict the answer is what the Work now says, unless there was nothing to
      do for the status read: then it is that status, whatever the Work says by now. */
  lemma LateAnswerIsStaleExactly(before: Store, after: Store, workId: WorkId, c: Children)
    requires workId in before.works && workId in after.works && ReconcileLate(before, after, workId, c).Ok?
    ensures var read := before.works[workId].status; var now := after.works[workId].status;
      var (s', answer) := ReconcileLate(before, after, workId, c).value;
      && answer == RowVerdict(c, read).status && workId in s'.works
      && (answer != s'.works[workId].status <==> RowVerdict(c, read).status == read && now != read)
      && (RowVerdict(c, read).status == read ==> s' == after)
  {
    GroupedDecisionIsRowwise(c, before.works[workId].status);
  }

  /** A Work that others complete while its operation runs on: no conflict, and the answer
      is the status from before. */
  lemma StaleAnswer(before: Store, after: Store, workId: WorkId)
    requires workId in before.works && before.works[workId].status == Executing
    requires workId in after.works && after.works[workId].status == Completed
    ensures ReconcileLate(before, after, workId, Children([ActionExecuting], [], [], [OperationRunning], [], None)) == Ok((after, Executing))
  {
    var c := Children([ActionExecuting], [], [], [OperationRunning], [], None);
    assert c.operations[0] in [OperationQueued, OperationRunning];
    GroupedDecisionIsRowwise(c, Executing);
  }
}
