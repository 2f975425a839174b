/** The Work transactions as they run: each method updates the rows of a tenant in
    place, and is proved to do exactly what WorkKernel specifies. */
module WorkStore {
  import opened Basics
  import opened WorkKernel
  import Reconciliation = WorkReconciliation

  class WorkRows {
    var works: map<WorkId, Work>
    var keys: map<string, WorkId>
    var inputs: seq<Input>
    var attempts: map<(WorkId, string), AttemptStatus>
    var users: set<EmployeeId>
    var foreign: set<WorkId>

    function View(): Store
      reads this
    {
      Store(works, keys, inputs, attempts, users, foreign)
    }

    constructor (users: set<EmployeeId>, foreign: set<WorkId>)
      ensures View() == Empty(users, foreign)
    {
      works, keys, inputs, attempts := map[], map[], [], map[];
      this.users, this.foreign := users, foreign;
    }

    method NextSeq(log: seq<LogEntry>) returns (next: nat)
      ensures next == MaxSeq(log) + 1
    {
      var max := 0;
      var i := 0;
      while i < |log|
        invariant 0 <= i <= |log|
        invariant max == MaxSeq(log[..i])
      {
        assert log[..i + 1][..i] == log[..i];
        if log[i].num > max {
          max := log[i].num;
        }
        i := i + 1;
      }
      assert log[..i] == log;
      next := max + 1;
    }

    method NewestInput(workId: WorkId) returns (id: Option<InputId>)
      ensures id == LatestInput(inputs, workId)
    {
      var i := |inputs|;
      assert inputs[..i] == inputs;
      while i > 0
        invariant 0 <= i <= |inputs|
        invariant LatestInput(inputs, workId) == LatestInput(inputs[..i], workId)
      {
        assert inputs[..i][..i - 1] == inputs[..i - 1];
        if inputs[i - 1].workId == workId {
          return Some(inputs[i - 1].id);
        }
        i := i - 1;
      }
      id := None;
    }

    method InputsClaimedBy(instructionId: InputId, key: Option<string>) returns (matching: seq<Input>)
      ensures matching == MatchingInputs(inputs, instructionId, key)
    {
      matching := [];
      var i := 0;
      while i < |inputs|
        invariant 0 <= i <= |inputs|
        invariant matching == MatchingInputs(inputs[..i], instructionId, key)
      {
        assert inputs[..i + 1][..i] == inputs[..i];
        if ClaimedBy(inputs[i], instructionId, key) {
          matching := matching + [inputs[i]];
        }
        i := i + 1;
      }
      assert inputs[..i] == inputs;
    }

    method AppendEntry(workId: WorkId, eventType: string, to: Status, input: Option<InputId>)
      requires workId in works
      modifies this`works
      ensures works == old(works)[workId := Append(old(works)[workId], eventType, to, input)]
    {
      var w := works[workId];
      var num := NextSeq(w.log);
      var entry := LogEntry(num, eventType, Some(w.status), to, input);
      works := works[workId := w.(status := to, log := w.log + [entry])];
    }

    /** The Work an intake belongs to, or that it has to be created. */
    method Resolve(p: Intake) returns (r: Result<Option<WorkId>, Error>)
      ensures r == ResolveWork(View(), p)
    {
      var found := WorkByKey(View(), p.idempotencyKey);
      if found.None? && p.workId.Some? {
        if p.workId.value in works {
          found := p.workId;
        } else if p.workId.value in foreign {
          return Err(WorkNotFound);
        }
      }
      if found.None? && (p.desiredWorkId in works || p.desiredWorkId in foreign) {
        if p.idempotencyKey.None? && p.desiredWorkId in works {
          found := Some(p.desiredWorkId);
        } else {
          return Err(WorkUnresolved);
        }
      }
      r := Ok(found);
    }

    method Create(p: Intake)
      modifies this`works, this`keys, this`inputs
      ensures View() == StoreInput(old(View()), p, p.desiredWorkId, NewWork(ValidUser(old(View()), p.user), p), true)
    {
      var createdBy := ValidUser(View(), p.user);
      works := works[p.desiredWorkId := NewWork(createdBy, p)];
      if p.idempotencyKey.Some? {
        keys := keys[p.idempotencyKey.value := p.desiredWorkId];
      }
      inputs := inputs + [Input(p.instructionId, p.desiredWorkId, p.idempotencyKey, createdBy, p.fingerprint, p.context)];
    }

    method Continue(p: Intake, workId: WorkId)
      requires workId in works
      modifies this`works, this`inputs
      ensures View() == StoreInput(old(View()), p, workId, ContinueWork(old(works)[workId], p.instructionId), false)
    {
      inputs := inputs + [Input(p.instructionId, workId, p.idempotencyKey, ValidUser(View(), p.user), p.fingerprint, p.context)];
      var status := works[workId].status;
      var resumesFailure := status == Failed;
      AppendEntry(workId, if resumesFailure then "recovery_input_received" else "input_received",
                  if resumesFailure then Recovery else status, Some(p.instructionId));
      if resumesFailure {
        works := works[workId := works[workId].(recovery := RecoveryNote(None, None))];
      }
    }

    method Receive(p: Intake) returns (r: Result<Receipt, Error>)
      modifies this
      ensures match ReceiveWork(old(View()), p)
              case Err(e) => r == Err(e) && View() == old(View())
              case Ok((s, receipt)) => r == Ok(receipt) && View() == s
    {
      var matching := InputsClaimedBy(p.instructionId, p.idempotencyKey);
      if |matching| > 1 {
        return Err(if p.requireExact then ExactIntakeConflict else IdempotencyClaimsDiverge);
      }
      if |matching| == 1 {
        r := ReplayIntake(View(), p, matching[0]);
        return;
      }
      var found := Resolve(p);
      if found.Err? {
        return Err(found.error);
      }
      if p.requireExact && found.value.Some? {
        return Err(ExactIntakeConflict);
      }
      var workId := if found.value.Some? then found.value.value else p.desiredWorkId;
      if found.value.Some? {
        Continue(p, workId);
      } else {
        Create(p);
      }
      r := Ok(Receipt(workId, p.instructionId, found.value.None?, false, works[workId].status));
    }

    /** Writes the context of an input unless it has one. */
    method AttachInputContext(workId: WorkId, inputId: InputId, context: string) returns (r: Result<(), Error>)
      modifies this`inputs
      ensures match AttachContext(old(View()), workId, inputId, context)
              case Err(e) => r == Err(e) && View() == old(View())
              case Ok(s) => r == Ok(()) && View() == s
    {
      var k := |inputs|;
      assert inputs[..k] == inputs;
      while k > 0 && !(inputs[k - 1].workId == workId && inputs[k - 1].id == inputId)
        invariant 0 <= k <= |inputs|
        invariant FindInput(inputs, workId, inputId) == FindInput(inputs[..k], workId, inputId)
      {
        assert inputs[..k][..k - 1] == inputs[..k - 1];
        k := k - 1;
      }
      if k == 0 {
        return Err(InputNotFound);
      }
      if inputs[k - 1].context.None? {
        inputs := inputs[k - 1 := inputs[k - 1].(context := Some(context))];
      } else if inputs[k - 1].context != Some(context) {
        return Err(ContextBound);
      }
      r := Ok(());
    }

    method Transition(workId: WorkId, to: Status, eventType: string, payload: Option<InputId>, patch: Patch)
      returns (r: Result<(), Error>)
      modifies this`works
      ensures match TransitionWork(old(View()), workId, to, eventType, payload, patch)
              case Err(e) => r == Err(e) && View() == old(View())
              case Ok(s) => r == Ok(()) && View() == s
    {
      var guard := CheckTransition(workId, to, patch);
      if guard.Some? { return Err(guard.value); }
      AppendEntry(workId, eventType, to, payload);
      if patch.recovery.Some? {
        works := works[workId := works[workId].(recovery := patch.recovery.value)];
      }
      r := Ok(());
    }

    method CheckTransition(workId: WorkId, to: Status, patch: Patch) returns (e: Option<Error>)
      ensures e == TransitionGuard(View(), workId, to, patch)
    {
      if workId !in works { return Some(WorkNotFound); }
      var w := works[workId];
      if patch.expectedStatus.Some? && w.status != patch.expectedStatus.value { return Some(StatusConflict); }
      if patch.expectedInput.Some? {
        var latest := NewestInput(workId);
        if latest != patch.expectedInput { return Some(InputNoLongerActive); }
      }
      e := LeavingGuard(w, to, patch.expectedInput);
    }

    method Handoff(workId: WorkId, actor: EmployeeId, target: EmployeeId, expectedOwner: Option<EmployeeId>, active: set<EmployeeId>)
      returns (r: Result<HandoffReceipt, Error>)
      modifies this`works
      ensures match HandoffWork(old(View()), workId, actor, target, expectedOwner, active)
              case Err(e) => r == Err(e) && View() == old(View())
              case Ok((s, receipt)) => r == Ok(receipt) && View() == s
    {
      if workId !in works { return Err(WorkNotFound); }
      var w := works[workId];
      if actor !in users || actor !in active { return Err(ActorNotActive); }
      if target !in users || target !in active { return Err(TargetNotActive); }
      var previous := OwnerOf(w);
      if expectedOwner.Some? && previous != expectedOwner { return Err(OwnerChanged); }
      if previous != Some(actor) { return Err(NotOwner); }
      if previous == Some(target) { return Ok(HandoffReceipt(true, None)); }
      var num := NextSeq(w.log);
      AppendEntry(workId, "employee_handoff", w.status, None);
      works := works[workId := works[workId].(currentOwner := Some(target))];
      r := Ok(HandoffReceipt(false, Some(num)));
    }

    method StartRecovery(workId: WorkId, attemptKey: string, now: int, input: Option<InputId>)
      requires workId in works
      modifies this`works
      ensures var w := old(works)[workId];
        works == old(works)[workId := Append(w, if w.status == Recovery then "retry_claim_recovered" else "retry_requested", Recovery, input)
                                        .(recovery := RecoveryNote(Some(attemptKey), Some(now)))]
    {
      var eventType := if works[workId].status == Recovery then "retry_claim_recovered" else "retry_requested";
      AppendEntry(workId, eventType, Recovery, input);
      works := works[workId := works[workId].(recovery := RecoveryNote(Some(attemptKey), Some(now)))];
    }

    method ClaimRetry(workId: WorkId, attemptKey: string, now: int) returns (r: Result<Claim, Error>)
      modifies this`works
      ensures match ClaimRecovery(old(View()), workId, attemptKey, now)
              case Err(e) => r == Err(e) && View() == old(View())
              case Ok((s, claim)) => r == Ok(claim) && View() == s
    {
      if workId !in works { return Err(WorkNotFound); }
      var w := works[workId];
      if (workId, attemptKey) in attempts { return Ok(Claim(false, attemptKey, None)); }
      var holder := if w.recovery.attemptKey.Some? then w.recovery.attemptKey.value else "";
      var stale := ClaimStale(w.recovery, now);
      if w.status == Recovery && !stale {
        return Ok(Claim(false, if holder != "" then holder else attemptKey, None));
      }
      if w.status != Failed && w.status != Recovery { return Err(NotRetryable); }
      var input := NewestInput(workId);
      if input.None? { return Err(NoInput); }
      StartRecovery(workId, attemptKey, now, input);
      r := Ok(Claim(true, attemptKey, input));
    }

    /** Settles the status from the child rows, through the same transition as everyone. */
    method ReconcileStatus(workId: WorkId, c: Reconciliation.Children) returns (r: Result<Status, Error>)
      modifies this`works
      ensures match Reconciliation.Reconcile(old(View()), workId, c)
              case Err(e) => r == Err(e) && View() == old(View())
              case Ok((s, status)) => r == Ok(status) && View() == s
    {
      if workId !in works { return Err(WorkNotFound); }
      var verdict := Reconciliation.Decide(Reconciliation.SnapshotOf(c), works[workId].status);
      if verdict.status != works[workId].status {
        var moved := Transition(workId, verdict.status, verdict.eventType, None, Reconciliation.NO_PATCH);
        if moved.Err? { return Err(moved.error); }
      }
      r := Ok(verdict.status);
    }
  }
}
