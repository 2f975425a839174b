/** When each Work transaction succeeds and what it writes, stated on the rows themselves. */
module WorkEffects {
  import opened Basics
  import opened WorkKernel

  /** Of the inputs of a Work, `id` is the one that arrived last. */
  ghost predicate ArrivedLast(inputs: seq<Input>, workId: WorkId, id: InputId) {
    exists k :: 0 <= k < |inputs| && inputs[k].workId == workId && inputs[k].id == id && NoneLater(inputs, workId, k)
  }

  ghost predicate NoneLater(inputs: seq<Input>, workId: WorkId, k: int) {
    forall i :: 0 <= i < |inputs| && k < i ==> inputs[i].workId != workId
  }

  lemma {:induction false} LatestExactly(inputs: seq<Input>, workId: WorkId, id: InputId)
    ensures LatestInput(inputs, workId) == Some(id) <==> ArrivedLast(inputs, workId, id)
    ensures LatestInput(inputs, workId).None? <==> forall i :: 0 <= i < |inputs| ==> inputs[i].workId != workId
  {
    if inputs != [] {
      var n := |inputs| - 1;
      var init := inputs[..n];
      assert forall i :: 0 <= i < n ==> init[i] == inputs[i];
      if inputs[n].workId == workId {
        assert NoneLater(inputs, workId, n);
      } else {
        LatestExactly(init, workId, id);
        if k :| 0 <= k < |inputs| && inputs[k].workId == workId && inputs[k].id == id && NoneLater(inputs, workId, k) {
          assert NoneLater(init, workId, k);
        }
        if k :| 0 <= k < |init| && init[k].workId == workId && init[k].id == id && NoneLater(init, workId, k) {
          assert NoneLater(inputs, workId, k);
        }
      }
    }
  }

  /** Every row but one Work's is as it was. */
  ghost predicate OnlyWork(s: Store, s': Store, workId: WorkId) {
    && workId in s.works && s' == s.(works := s'.works) && s'.works.Keys == s.works.Keys
    && (forall other :: other in s.works && other != workId ==> s'.works[other] == s.works[other])
  }

  /** One entry more, from the status there was to the new one. */
  ghost predicate LogsOne(w: Work, w': Work, eventType: string, input: Option<InputId>) {
    && |w'.log| == |w.log| + 1 && w'.log[..|w.log|] == w.log
    && var e := w'.log[|w.log|];
    && e.eventType == eventType && e.fromStatus == Some(w.status) && e.toStatus == w'.status && e.workInputId == input
    && (LogSound(w) ==> e.num == |w.log| + 1)
  }

  lemma AppendLogsOne(w: Work, eventType: string, to: Status, input: Option<InputId>)
    ensures LogsOne(w, Append(w, eventType, to, input), eventType, input)
  {
    if LogSound(w) {
      MaxSeqOfNumbered(w.log);
    }
  }

  // ------------------------------------------------------------------------
  // Handoff
  // ------------------------------------------------------------------------

  /** The owner on record, or else the one who brought the Work. */
  ghost predicate Owns(w: Work, who: EmployeeId) {
    w.currentOwner == Some(who) || (w.currentOwner == None && w.createdBy == Some(who))
  }

  /** A handoff succeeds exactly between two active employees of the tenant, by the owner,
      who is also the expected one if one is expected. It moves the owner, with one log entry
      that keeps the status; handing over to oneself changes nothing. */
  lemma HandoffExactly(s: Store, workId: WorkId, actor: EmployeeId, target: EmployeeId, expected: Option<EmployeeId>,
                       active: set<EmployeeId>)
    ensures var r := HandoffWork(s, workId, actor, target, expected, active);
      && (r.Ok? <==>
            && workId in s.works && {actor, target} <= s.users * active
            && Owns(s.works[workId], actor) && (expected == None || expected == Some(actor)))
      && (r.Ok? ==> (r.value.1.duplicate <==> actor == target))
      && (r.Ok? && actor == target ==> r.value.0 == s && r.value.1.eventSeq == None)
      && (r.Ok? && actor != target ==>
            && OnlyWork(s, r.value.0, workId)
            && var w, w' := s.works[workId], r.value.0.works[workId];
            && Owns(w', target) && !Owns(w', actor) && LogsOne(w, w', "employee_handoff", None)
            && w' == w.(currentOwner := Some(target), log := w'.log)
            && r.value.1.eventSeq == Some(w'.log[|w.log|].num))
  {
    if workId in s.works {
      AppendLogsOne(s.works[workId], "employee_handoff", s.works[workId].status, None);
    }
  }

  // ------------------------------------------------------------------------
  // Transition
  // ------------------------------------------------------------------------

  /** The newest log entry records the arrival of this input. */
  ghost predicate JustArrived(w: Work, input: Option<InputId>) {
    && input != None && |w.log| > 0 && w.log[|w.log| - 1].workInputId == input
    && w.log[|w.log| - 1].eventType in {"input_received", "recovery_input_received"}
  }

  /** What lets a transition pass. */
  ghost predicate MayMove(s: Store, workId: WorkId, to: Status, patch: Patch) {
    && workId in s.works
    && var w := s.works[workId];
    && (patch.expectedStatus == None || patch.expectedStatus == Some(w.status))
    && (patch.expectedInput == None || ArrivedLast(s.inputs, workId, patch.expectedInput.value))
    && (w.status in {Completed, Cancelled} && to != w.status ==> JustArrived(w, patch.expectedInput))
    && (w.status == Failed ==> to in {Failed, Recovery, Cancelled})
  }

  lemma GuardExactly(s: Store, workId: WorkId, to: Status, patch: Patch)
    ensures TransitionGuard(s, workId, to, patch).None? <==> MayMove(s, workId, to, patch)
  {
    if patch.expectedInput.Some? {
      LatestExactly(s.inputs, workId, patch.expectedInput.value);
    }
  }

  /** A transition succeeds exactly when the status and the newest input are the expected ones,
      finished Work is left only upon the input that just arrived and was expected, and failed
      Work only for recovery or cancellation. It moves the status, logs it once, and writes
      the recovery note it is given. */
  lemma TransitionExactly(s: Store, workId: WorkId, to: Status, eventType: string, payload: Option<InputId>, patch: Patch)
    ensures var r := TransitionWork(s, workId, to, eventType, payload, patch);
      && (r.Ok? <==> MayMove(s, workId, to, patch))
      && (r.Ok? ==>
            && OnlyWork(s, r.value, workId)
            && var w, w' := s.works[workId], r.value.works[workId];
            && w'.status == to && LogsOne(w, w', eventType, payload)
            && w' == w.(status := to, log := w'.log, recovery := w'.recovery)
            && w'.recovery == (if patch.recovery == None then w.recovery else patch.recovery.value))
  {
    GuardExactly(s, workId, to, patch);
    if workId in s.works {
      AppendLogsOne(s.works[workId], eventType, to, payload);
    }
  }

  // ------------------------------------------------------------------------
  // Recovery claims
  // ------------------------------------------------------------------------

  /** Failed, or in a recovery whose claim is 15 minutes old or undated. */
  ghost predicate Claimable(w: Work, now: int) {
    || w.status == Failed
    || (w.status == Recovery && (w.recovery.claimedAt == None || now - w.recovery.claimedAt.value >= 900_000))
  }

  /** A recovery is claimed exactly for a claimable Work that has an input and was not yet
      attempted under the key; any other answer changes nothing. */
  lemma ClaimExactly(s: Store, workId: WorkId, key: string, now: int)
    ensures var r := ClaimRecovery(s, workId, key, now);
      && (r.Ok? && r.value.1.claimed <==>
            && workId in s.works && (workId, key) !in s.attempts && Claimable(s.works[workId], now)
            && exists i :: 0 <= i < |s.inputs| && s.inputs[i].workId == workId)
      && (r.Ok? && !r.value.1.claimed ==> r.value.0 == s && r.value.1.input == None)
  {
    LatestExactly(s.inputs, workId, "");
  }

  /** The claim takes the Work into recovery under its key, for the newest input. */
  lemma ClaimWrites(s: Store, workId: WorkId, key: string, now: int)
    requires ClaimRecovery(s, workId, key, now).Ok? && ClaimRecovery(s, workId, key, now).value.1.claimed
    ensures var (s', claim) := ClaimRecovery(s, workId, key, now).value;
      && OnlyWork(s, s', workId)
      && claim.activeAttemptKey == key && claim.input.Some? && ArrivedLast(s.inputs, workId, claim.input.value)
      && var w, w' := s.works[workId], s'.works[workId];
      && w' == w.(status := Recovery, log := w'.log, recovery := RecoveryNote(Some(key), Some(now)))
      && LogsOne(w, w', if w.status == Recovery then "retry_claim_recovered" else "retry_requested", claim.input)
  {
    var input := LatestInput(s.inputs, workId);
    LatestExactly(s.inputs, workId, input.value);
    AppendLogsOne(s.works[workId], if s.works[workId].status == Recovery then "retry_claim_recovered" else "retry_requested", Recovery, input);
  }

  /** A claim that is refused without an error names the attempt that holds the recovery, or
      its own key if that was attempted already; an error means that there is no such Work,
      nothing to recover, or nothing to recover it for. */
  lemma ClaimRefusals(s: Store, workId: WorkId, key: string, now: int)
    ensures var r := ClaimRecovery(s, workId, key, now);
      && (r == Err(WorkNotFound) <==> workId !in s.works)
      && (r.Ok? && !r.value.1.claimed ==>
            || ((workId, key) in s.attempts && r.value.1.activeAttemptKey == key)
            || (s.works[workId].status == Recovery && !Claimable(s.works[workId], now)
                && r.value.1.activeAttemptKey ==
                     (if s.works[workId].recovery.attemptKey in {None, Some("")} then key else s.works[workId].recovery.attemptKey.value)))
      && (r == Err(NotRetryable) ==> workId in s.works && s.works[workId].status !in {Failed, Recovery})
      && (r == Err(NoInput) ==> workId in s.works && Claimable(s.works[workId], now))
  {
  }

  // ------------------------------------------------------------------------
  // Intake
  // ------------------------------------------------------------------------

  /** No input was presented under this instruction or idempotency key before. */
  ghost predicate Unpresented(s: Store, p: Intake) {
    forall i :: 0 <= i < |s.inputs| ==>
      s.inputs[i].id != p.instructionId && (p.idempotencyKey == None || s.inputs[i].idempotencyKey != p.idempotencyKey)
  }

  ghost predicate Member(s: Store, user: Option<EmployeeId>, recorded: Option<EmployeeId>) {
    recorded == if user != None && user.value in s.users then user else None
  }

  lemma UnpresentedExactly(s: Store, p: Intake)
    ensures MatchingInputs(s.inputs, p.instructionId, p.idempotencyKey) == [] <==> Unpresented(s, p)
  {
    MatchingNone(s.inputs, p.instructionId, p.idempotencyKey);
    assert forall i :: 0 <= i < |s.inputs| ==>
      (ClaimedBy(s.inputs[i], p.instructionId, p.idempotencyKey) <==>
         !(s.inputs[i].id != p.instructionId && (p.idempotencyKey == None || s.inputs[i].idempotencyKey != p.idempotencyKey)));
  }

  /** The row of a new input. */
  ghost predicate StoredInput(s: Store, p: Intake, i: Input, workId: WorkId) {
    && i.id == p.instructionId && i.workId == workId && i.idempotencyKey == p.idempotencyKey
    && i.fingerprint == p.fingerprint && i.context == p.context && Member(s, p.user, i.createdBy)
  }

  /** An intake that is no replay stores exactly one input, for one Work, with what it was
      given and a member of the tenant as its author. It is answered with that Work, whether
      it is new, and its status; no other Work is touched. */
  lemma IntakeStores(s: Store, p: Intake)
    requires ReceiveWork(s, p).Ok? && Unpresented(s, p)
    ensures var (s', r) := ReceiveWork(s, p).value;
      && !r.duplicate && r.inputId == p.instructionId
      && |s'.inputs| == |s.inputs| + 1 && s'.inputs[..|s.inputs|] == s.inputs
      && StoredInput(s, p, s'.inputs[|s.inputs|], r.workId)
      && (r.created <==> r.workId !in s.works) && s'.works.Keys == s.works.Keys + {r.workId}
      && r.status == s'.works[r.workId].status
      && (forall other :: other in s.works && other != r.workId ==> s'.works[other] == s.works[other])
      && s'.attempts == s.attempts && s'.users == s.users && s'.foreign == s.foreign
      && s'.keys == (if r.created && p.idempotencyKey != None then s.keys[p.idempotencyKey.value := r.workId] else s.keys)
  {
    UnpresentedExactly(s, p);
  }

  /** A new Work is received, under the desired id, owned by the member who brought it. */
  lemma IntakeCreates(s: Store, p: Intake)
    requires ReceiveWork(s, p).Ok? && ReceiveWork(s, p).value.1.created
    ensures var (s', r) := ReceiveWork(s, p).value;
      && r.workId == p.desiredWorkId && r.workId !in s.foreign
      && var w := s'.works[r.workId];
      && w.status == Received && |w.log| == 1 && w.log[0] == LogEntry(1, "received", None, Received, None)
      && Member(s, p.user, w.createdBy) && w.currentOwner == w.createdBy && w.idempotencyKey == p.idempotencyKey
      && w.initialFingerprint == p.fingerprint && w.recovery == RecoveryNote(None, None)
  {
  }

  /** An intake continues the Work of its idempotency key, or else the Work it names, or else
      the one under the desired id; that Work logs the input's arrival, and leaves failure for
      recovery upon it. */
  lemma IntakeContinues(s: Store, p: Intake)
    requires ReceiveWork(s, p).Ok? && Unpresented(s, p) && !ReceiveWork(s, p).value.1.created
    ensures var (s', r) := ReceiveWork(s, p).value;
      && !p.requireExact && r.workId in s.works
      && (if p.idempotencyKey != None && p.idempotencyKey.value in s.keys && s.keys[p.idempotencyKey.value] in s.works
          then r.workId == s.keys[p.idempotencyKey.value]
          else if p.workId != None && p.workId.value in s.works then r.workId == p.workId.value
          else r.workId == p.desiredWorkId && p.idempotencyKey == None)
      && var w, w' := s.works[r.workId], s'.works[r.workId];
      && LogsOne(w, w', if w.status == Failed then "recovery_input_received" else "input_received", Some(p.instructionId))
      && w'.status == (if w.status == Failed then Recovery else w.status)
      && w' == w.(status := w'.status, log := w'.log, recovery := if w.status == Failed then RecoveryNote(None, None) else w.recovery)
  {
    UnpresentedExactly(s, p);
    var r := ReceiveWork(s, p).value.1;
    var w := s.works[r.workId];
    assert w.(status := w.status) == w;
    AppendLogsOne(w, if w.status == Failed then "recovery_input_received" else "input_received",
                  if w.status == Failed then Recovery else w.status, Some(p.instructionId));
  }

  /** An intake that is no replay is refused exactly when an exact intake would continue a
      Work, the Work it names is another tenant's, or the desired id is taken and cannot be
      continued. */
  lemma IntakeRefusals(s: Store, p: Intake)
    requires Unpresented(s, p)
    ensures
      var keyed := p.idempotencyKey != None && p.idempotencyKey.value in s.keys && s.keys[p.idempotencyKey.value] in s.works;
      var named := p.workId != None && p.workId.value in s.works;
      var r := ReceiveWork(s, p);
      && (keyed || named ==> (r.Err? <==> p.requireExact))
      && (!keyed && !named ==> (r.Err? <==>
            || (p.workId != None && p.workId.value in s.foreign)
            || (p.desiredWorkId in s.works && (p.requireExact || p.idempotencyKey != None))
            || (p.desiredWorkId !in s.works && p.desiredWorkId in s.foreign)))
  {
    UnpresentedExactly(s, p);
  }

  // ------------------------------------------------------------------------
  // Intakes presented before
  // ------------------------------------------------------------------------

  /** The input was presented under this instruction or idempotency key. */
  ghost predicate Presented(i: Input, p: Intake) {
    i.id == p.instructionId || (p.idempotencyKey != None && i.idempotencyKey == p.idempotencyKey)
  }

  /** What was presented is, in all an exact intake compares, what the input holds. */
  ghost predicate SameInput(i: Input, p: Intake) {
    && i.fingerprint == p.fingerprint && (p.explicitInstruction ==> i.id == p.instructionId)
    && i.idempotencyKey == p.idempotencyKey && i.context == p.context
  }

  /** The Work was begun by the same employee with the same instruction, and is the named one. */
  ghost predicate SameOrigin(w: Work, workId: WorkId, p: Intake) {
    w.createdBy == p.user && w.initialFingerprint == p.fingerprint && (p.workId == None || p.workId == Some(workId))
  }

  /** An intake of which one input was presented before is answered with that input and its
      Work exactly when it comes from the input's author and, if it must be exact, agrees with
      the input and with the origin of its Work; it stores nothing. */
  lemma ReplayExactly(s: Store, p: Intake, k: nat)
    requires k < |s.inputs| && forall i :: 0 <= i < |s.inputs| ==> (Presented(s.inputs[i], p) <==> i == k)
    ensures var i := s.inputs[k]; var r := ReceiveWork(s, p);
      var admitted := i.createdBy == p.user && (p.requireExact ==> SameInput(i, p));
      && (r == Err(WorkNotFound) <==> admitted && i.workId !in s.works)
      && (r.Ok? <==> admitted && i.workId in s.works && (p.requireExact ==> SameOrigin(s.works[i.workId], i.workId, p)))
      && (r.Err? ==> r.error in {WorkNotFound, ExactIntakeConflict})
      && (r.Ok? ==> r.value == (s, Receipt(i.workId, i.id, false, true, s.works[i.workId].status)))
  {
    assert forall i :: 0 <= i < |s.inputs| ==> (ClaimedBy(s.inputs[i], p.instructionId, p.idempotencyKey) <==> Presented(s.inputs[i], p));
    MatchingOne(s.inputs, k, p.instructionId, p.idempotencyKey);
  }

  /** An intake of which two inputs were presented before, one under its instruction and one
      under its key, is refused. */
  lemma DivergingClaims(s: Store, p: Intake, i: nat, k: nat)
    requires i < k < |s.inputs| && Presented(s.inputs[i], p) && Presented(s.inputs[k], p)
    ensures ReceiveWork(s, p) == Err(if p.requireExact then ExactIntakeConflict else IdempotencyClaimsDiverge)
  {
    MatchingMany(s.inputs, p, i, k);
  }

  lemma {:induction false} MatchingMany(inputs: seq<Input>, p: Intake, i: nat, k: nat)
    requires i < k < |inputs| && Presented(inputs[i], p) && Presented(inputs[k], p)
    ensures |MatchingInputs(inputs, p.instructionId, p.idempotencyKey)| > 1
  {
    var n := |inputs| - 1;
    if k < n {
      MatchingMany(inputs[..n], p, i, k);
    } else {
      MatchingNone(inputs[..n], p.instructionId, p.idempotencyKey);
      assert inputs[..n][i] == inputs[i] && ClaimedBy(inputs[..n][i], p.instructionId, p.idempotencyKey);
    }
  }

  // ------------------------------------------------------------------------
  // Contexts
  // ------------------------------------------------------------------------

  ghost predicate Names(i: Input, workId: WorkId, inputId: InputId) {
    i.workId == workId && i.id == inputId
  }

  lemma {:induction false} FindInputExactly(inputs: seq<Input>, workId: WorkId, inputId: InputId)
    ensures FindInput(inputs, workId, inputId).None? <==> forall i :: 0 <= i < |inputs| ==> !Names(inputs[i], workId, inputId)
  {
    if inputs != [] {
      var n := |inputs| - 1;
      FindInputExactly(inputs[..n], workId, inputId);
      assert forall i :: 0 <= i < n ==> inputs[..n][i] == inputs[i];
    }
  }

  /** A context is attached exactly to an input of the Work that has none, or has the same;
      it is written once, and nothing else changes. */
  lemma AttachExactly(s: Store, workId: WorkId, inputId: InputId, context: string, k: nat)
    requires k < |s.inputs| && forall i :: 0 <= i < |s.inputs| ==> (Names(s.inputs[i], workId, inputId) <==> i == k)
    ensures var r := AttachContext(s, workId, inputId, context);
      && (r.Ok? <==> s.inputs[k].context == None || s.inputs[k].context == Some(context))
      && (r.Ok? ==> r.value == s.(inputs := s.inputs[k := s.inputs[k].(context := Some(context))]))
  {
    FindInputExactly(s.inputs, workId, inputId);
    assert s.inputs[k := s.inputs[k]] == s.inputs;
  }

  /** Without such an input the attachment is refused. */
  lemma AttachNeedsInput(s: Store, workId: WorkId, inputId: InputId, context: string)
    ensures AttachContext(s, workId, inputId, context) == Err(InputNotFound) <==>
      forall i :: 0 <= i < |s.inputs| ==> !Names(s.inputs[i], workId, inputId)
  {
    FindInputExactly(s.inputs, workId, inputId);
  }
}
