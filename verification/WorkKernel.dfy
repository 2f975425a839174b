/** The durable Work kernel of finnor-os/packages/db/index.ts: one append-only event
    log per Work, a status column, and the transactions that write both. Every
    transaction is one atomic step; a transaction that throws changes nothing. */
module WorkKernel {
  import opened Basics

  type WorkId = string
  type InputId = string
  type EmployeeId = string

  datatype Status =
    | Received | Understanding | Planning | Ready | Actionable | AwaitingApproval
    | Executing | Waiting | Blocked | Completed | Failed | Cancelled | Recovery

  /** Status truth that reconciliation may not touch. */
  predicate IsImmutable(s: Status) {
    s == Completed || s == Failed || s == Cancelled
  }

  datatype LogEntry = LogEntry(
    num: nat,
    eventType: string,
    fromStatus: Option<Status>,
    toStatus: Status,
    workInputId: Option<InputId>)

  /** The two fields of the recovery column that the claim protocol reads. */
  datatype RecoveryNote = RecoveryNote(attemptKey: Option<string>, claimedAt: Option<int>)

  datatype Work = Work(
    status: Status,
    log: seq<LogEntry>,
    currentOwner: Option<EmployeeId>,
    createdBy: Option<EmployeeId>,
    idempotencyKey: Option<string>,
    initialFingerprint: string,
    recovery: RecoveryNote)

  /** A stored input. The fingerprint stands for channel and text; the context is written
      at intake or attached once later. */
  datatype Input = Input(
    id: InputId,
    workId: WorkId,
    idempotencyKey: Option<string>,
    createdBy: Option<EmployeeId>,
    fingerprint: string,
    context: Option<string>)

  datatype AttemptStatus = AttemptPlanning | AttemptSucceeded | AttemptFailed | AttemptTimedOut

  /** One tenant's rows. `keys` is the unique index of Works by idempotency key;
      `foreign` holds Work ids that belong to other tenants. */
  datatype Store = Store(
    works: map<WorkId, Work>,
    keys: map<string, WorkId>,
    inputs: seq<Input>,
    attempts: map<(WorkId, string), AttemptStatus>,
    users: set<EmployeeId>,
    foreign: set<WorkId>)

  datatype Error =
    | WorkNotFound | WorkUnresolved | ExactIntakeConflict | IdempotencyClaimsDiverge
    | StatusConflict | InputNoLongerActive | TerminalWork | FailedWork
    | ActorNotActive | TargetNotActive | OwnerChanged | NotOwner
    | NotRetryable | NoInput
    | InputNotFound | ContextBound

  // ------------------------------------------------------------------------
  // The event log
  // ------------------------------------------------------------------------

  /** coalesce(max(seq),0) over one Work's log. */
  function MaxSeq(log: seq<LogEntry>): nat {
    if log == [] then 0
    else
      var rest := MaxSeq(log[..|log| - 1]);
      if log[|log| - 1].num > rest then log[|log| - 1].num else rest
  }

  function Append(w: Work, eventType: string, to: Status, input: Option<InputId>): Work {
    w.(status := to,
       log := w.log + [LogEntry(MaxSeq(w.log) + 1, eventType, Some(w.status), to, input)])
  }

  /** The log is numbered 1..n, starts at creation, and every entry picks up the
      status its predecessor left; the last one left the stored status. */
  ghost predicate LogSound(w: Work) {
    && |w.log| > 0
    && w.log[0].fromStatus == None
    && w.log[0].toStatus == Received
    && w.log[|w.log| - 1].toStatus == w.status
    && (forall i :: 0 <= i < |w.log| ==> w.log[i].num == i + 1)
    && (forall i :: 1 <= i < |w.log| ==> w.log[i].fromStatus == Some(w.log[i - 1].toStatus))
  }

  lemma {:induction false} MaxSeqOfNumbered(log: seq<LogEntry>)
    requires forall i :: 0 <= i < |log| ==> log[i].num == i + 1
    ensures MaxSeq(log) == |log|
  {
    if log != [] {
      MaxSeqOfNumbered(log[..|log| - 1]);
    }
  }

  lemma AppendKeepsLogSound(w: Work, eventType: string, to: Status, input: Option<InputId>)
    requires LogSound(w)
    ensures LogSound(Append(w, eventType, to, input))
  {
    MaxSeqOfNumbered(w.log);
  }

  // ------------------------------------------------------------------------
  // Inputs
  // ------------------------------------------------------------------------

  /** The input of a Work that was created last. */
  function LatestInput(inputs: seq<Input>, workId: WorkId): Option<InputId> {
    if inputs == [] then None
    else
      var last := inputs[|inputs| - 1];
      if last.workId == workId then Some(last.id) else LatestInput(inputs[..|inputs| - 1], workId)
  }

  predicate ClaimedBy(i: Input, instructionId: InputId, key: Option<string>) {
    i.id == instructionId || (key.Some? && i.idempotencyKey == key)
  }

  function MatchingInputs(inputs: seq<Input>, instructionId: InputId, key: Option<string>): seq<Input> {
    if inputs == [] then []
    else
      var rest := MatchingInputs(inputs[..|inputs| - 1], instructionId, key);
      var last := inputs[|inputs| - 1];
      if ClaimedBy(last, instructionId, key) then rest + [last] else rest
  }

  /** The Work an idempotency key names, through the unique index on (tenant, key). */
  function WorkByKey(s: Store, key: Option<string>): (id: Option<WorkId>)
    ensures id.Some? ==> id.value in s.works
  {
    if key.Some? && key.value in s.keys && s.keys[key.value] in s.works then Some(s.keys[key.value]) else None
  }

  // ------------------------------------------------------------------------
  // Transactions
  // ------------------------------------------------------------------------

  /** Without an instruction id of the caller's, `instructionId` is a generated one. */
  datatype Intake = Intake(
    instructionId: InputId,
    explicitInstruction: bool,
    workId: Option<WorkId>,
    desiredWorkId: WorkId,
    idempotencyKey: Option<string>,
    user: Option<EmployeeId>,
    fingerprint: string,
    context: Option<string>,
    requireExact: bool)

  datatype Receipt = Receipt(workId: WorkId, inputId: InputId, created: bool, duplicate: bool, status: Status)

  function ValidUser(s: Store, user: Option<EmployeeId>): Option<EmployeeId> {
    if user.Some? && user.value in s.users then user else None
  }

  function NewWork(createdBy: Option<EmployeeId>, p: Intake): Work {
    Work(Status.Received, [LogEntry(1, "received", None, Status.Received, None)], createdBy, createdBy, p.idempotencyKey,
         p.fingerprint, RecoveryNote(None, None))
  }

  /** Which Work an intake with no earlier input belongs to: an existing one, or None
      for a Work that has to be created under the desired id. */
  function ResolveWork(s: Store, p: Intake): (r: Result<Option<WorkId>, Error>)
    ensures r.Ok? && r.value.Some? ==> r.value.value in s.works
  {
    var byKey := WorkByKey(s, p.idempotencyKey);
    if byKey.Some? then Ok(byKey)
    else if p.workId.Some? && p.workId.value in s.works then Ok(p.workId)
    else if p.workId.Some? && p.workId.value in s.foreign then Err(WorkNotFound)
    else if p.desiredWorkId !in s.works && p.desiredWorkId !in s.foreign then Ok(None)
    else if p.idempotencyKey.None? && p.desiredWorkId in s.works then Ok(Some(p.desiredWorkId))
    else Err(WorkUnresolved)
  }

  /** The entry is written under the row lock, for the status read before the lock. */
  function ContinueLate(w: Work, read: Status, input: InputId): Work {
    if read == Failed then
      Append(w.(status := read), "recovery_input_received", Recovery, Some(input)).(recovery := RecoveryNote(None, None))
    else
      Append(w.(status := read), "input_received", read, Some(input)).(status := w.status)
  }

  function ContinueWork(w: Work, input: InputId): Work {
    ContinueLate(w, w.status, input)
  }

  function ReplayIntake(s: Store, p: Intake, input: Input): Result<Receipt, Error> {
    if input.createdBy != p.user then Err(ExactIntakeConflict)
    else if p.requireExact
      && (input.fingerprint != p.fingerprint || (p.explicitInstruction && input.id != p.instructionId)
          || input.idempotencyKey != p.idempotencyKey || input.context != p.context)
    then Err(ExactIntakeConflict)
    else if input.workId !in s.works then Err(WorkNotFound)
    else if p.requireExact
      && (s.works[input.workId].createdBy != p.user || s.works[input.workId].initialFingerprint != p.fingerprint
          || (p.workId.Some? && p.workId.value != input.workId))
    then Err(ExactIntakeConflict)
    else Ok(Receipt(input.workId, input.id, false, true, s.works[input.workId].status))
  }

  function ReceiveWork(s: Store, p: Intake): Result<(Store, Receipt), Error> {
    var matching := MatchingInputs(s.inputs, p.instructionId, p.idempotencyKey);
    if |matching| > 1 then Err(if p.requireExact then ExactIntakeConflict else IdempotencyClaimsDiverge)
    else if |matching| == 1 then
      match ReplayIntake(s, p, matching[0])
      case Err(e) => Err(e)
      case Ok(r) => Ok((s, r))
    else
      match ResolveWork(s, p)
      case Err(e) => Err(e)
      case Ok(found) =>
        if p.requireExact && found.Some? then Err(ExactIntakeConflict)
        else
          var workId := if found.Some? then found.value else p.desiredWorkId;
          var work := if found.Some? then ContinueWork(s.works[workId], p.instructionId)
                      else NewWork(ValidUser(s, p.user), p);
          Ok((StoreInput(s, p, workId, work, found.None?),
              Receipt(workId, p.instructionId, found.None?, false, work.status)))
  }

  function StoreInput(s: Store, p: Intake, workId: WorkId, work: Work, created: bool): Store {
    s.(works := s.works[workId := work],
       keys := if created && p.idempotencyKey.Some? then s.keys[p.idempotencyKey.value := workId] else s.keys,
       inputs := s.inputs + [Input(p.instructionId, workId, p.idempotencyKey, ValidUser(s, p.user), p.fingerprint, p.context)])
  }

  function FindInput(inputs: seq<Input>, workId: WorkId, inputId: InputId): (r: Option<nat>)
    ensures r.Some? ==> r.value < |inputs| && inputs[r.value].workId == workId && inputs[r.value].id == inputId
  {
    if inputs == [] then None
    else
      var last := |inputs| - 1;
      if inputs[last].workId == workId && inputs[last].id == inputId then Some(last)
      else FindInput(inputs[..last], workId, inputId)
  }

  /** The validated context of an input is written once; attaching the same again is fine. */
  function AttachContext(s: Store, workId: WorkId, inputId: InputId, context: string): Result<Store, Error> {
    match FindInput(s.inputs, workId, inputId)
    case None => Err(InputNotFound)
    case Some(k) =>
      if s.inputs[k].context.None? then Ok(s.(inputs := s.inputs[k := s.inputs[k].(context := Some(context))]))
      else if s.inputs[k].context == Some(context) then Ok(s)
      else Err(ContextBound)
  }

  datatype Patch = Patch(
    expectedStatus: Option<Status>,
    expectedInput: Option<InputId>,
    recovery: Option<RecoveryNote>)

  predicate Acknowledges(e: LogEntry, input: Option<InputId>) {
    && (e.eventType == "input_received" || e.eventType == "recovery_input_received")
    && input.Some? && e.workInputId == input
  }

  /** The newest log entry acknowledges exactly the input the caller acts on. */
  predicate ExplicitlyContinued(log: seq<LogEntry>, expectedInput: Option<InputId>) {
    |log| > 0 && Acknowledges(log[|log| - 1], expectedInput)
  }

  predicate LeavesTerminal(from: Status, to: Status) {
    (from == Completed || from == Cancelled) && to != from
  }

  predicate LeavesFailedImplicitly(from: Status, to: Status) {
    from == Failed && to != Failed && to != Recovery && to != Cancelled
  }

  /** The guards of a Work transition, in the order they are evaluated. */
  /** What stops a Work from leaving the status it has. */
  function LeavingGuard(w: Work, to: Status, expectedInput: Option<InputId>): Option<Error> {
    if LeavesTerminal(w.status, to) && !ExplicitlyContinued(w.log, expectedInput) then Some(TerminalWork)
    else if LeavesFailedImplicitly(w.status, to) then Some(FailedWork)
    else None
  }

  function TransitionGuard(s: Store, workId: WorkId, to: Status, patch: Patch): Option<Error> {
    if workId !in s.works then Some(WorkNotFound)
    else
      var w := s.works[workId];
      if patch.expectedStatus.Some? && w.status != patch.expectedStatus.value then Some(StatusConflict)
      else if patch.expectedInput.Some? && LatestInput(s.inputs, workId) != patch.expectedInput then Some(InputNoLongerActive)
      else LeavingGuard(w, to, patch.expectedInput)
  }

  function TransitionWork(s: Store, workId: WorkId, to: Status, eventType: string, payloadInput: Option<InputId>, patch: Patch)
    : Result<Store, Error>
  {
    match TransitionGuard(s, workId, to, patch)
    case Some(e) => Err(e)
    case None =>
      if workId !in s.works then Err(WorkNotFound)
      else
        var w := Append(s.works[workId], eventType, to, payloadInput);
        Ok(s.(works := s.works[workId := if patch.recovery.Some? then w.(recovery := patch.recovery.value) else w]))
  }

  function OwnerOf(w: Work): Option<EmployeeId> {
    if w.currentOwner.Some? then w.currentOwner else w.createdBy
  }

  datatype HandoffReceipt = HandoffReceipt(duplicate: bool, eventSeq: Option<nat>)

  function HandoffWork(s: Store, workId: WorkId, actor: EmployeeId, target: EmployeeId, expectedOwner: Option<EmployeeId>,
                       active: set<EmployeeId>): Result<(Store, HandoffReceipt), Error>
  {
    if workId !in s.works then Err(WorkNotFound)
    else if actor !in s.users || actor !in active then Err(ActorNotActive)
    else if target !in s.users || target !in active then Err(TargetNotActive)
    else
      var w := s.works[workId];
      if expectedOwner.Some? && OwnerOf(w) != expectedOwner then Err(OwnerChanged)
      else if OwnerOf(w) != Some(actor) then Err(NotOwner)
      else if OwnerOf(w) == Some(target) then Ok((s, HandoffReceipt(true, None)))
      else
        var moved := Append(w, "employee_handoff", w.status, None).(currentOwner := Some(target));
        Ok((s.(works := s.works[workId := moved]), HandoffReceipt(false, Some(MaxSeq(w.log) + 1))))
  }

  const RECOVERY_CLAIM_TTL_MS: int := 15 * 60_000

  datatype Claim = Claim(claimed: bool, activeAttemptKey: string, input: Option<InputId>)

  predicate ClaimStale(note: RecoveryNote, now: int) {
    note.claimedAt.None? || now - note.claimedAt.value >= RECOVERY_CLAIM_TTL_MS
  }

  function ClaimRecovery(s: Store, workId: WorkId, attemptKey: string, now: int): Result<(Store, Claim), Error> {
    if workId !in s.works then Err(WorkNotFound)
    else if (workId, attemptKey) in s.attempts then Ok((s, Claim(false, attemptKey, None)))
    else
      var w := s.works[workId];
      if w.status == Recovery && !ClaimStale(w.recovery, now) then
        var holder := if w.recovery.attemptKey.Some? && w.recovery.attemptKey.value != "" then w.recovery.attemptKey.value
                      else attemptKey;
        Ok((s, Claim(false, holder, None)))
      else if w.status != Failed && w.status != Recovery then Err(NotRetryable)
      else if LatestInput(s.inputs, workId).None? then Err(NoInput)
      else
        var input := LatestInput(s.inputs, workId);
        var eventType := if w.status == Recovery then "retry_claim_recovered" else "retry_requested";
        var claimed := Append(w, eventType, Recovery, input).(recovery := RecoveryNote(Some(attemptKey), Some(now)));
        Ok((s.(works := s.works[workId := claimed]), Claim(true, attemptKey, input)))
  }

  /** What a claimed event or deadline wake does to its Work: the status becomes
      executing, whatever it was. */
  function WakeWork(w: Work, eventType: string): Work {
    Append(w, eventType, Executing, None)
  }

  // ------------------------------------------------------------------------
  // Runs
  // ------------------------------------------------------------------------

  datatype Op =
    | ReceiveOp(intake: Intake)
    | TransitionOp(workId: WorkId, to: Status, eventType: string, payloadInput: Option<InputId>, patch: Patch)
    | HandoffOp(workId: WorkId, actor: EmployeeId, target: EmployeeId, expectedOwner: Option<EmployeeId>, active: set<EmployeeId>)
    | ClaimOp(workId: WorkId, attemptKey: string, now: int)
    | AttemptOp(workId: WorkId, attemptKey: string, status: AttemptStatus)
    | AttachOp(workId: WorkId, inputId: InputId, context: string)
    | WakeOp(workId: WorkId, eventType: string)

  /** One transaction; a thrown error rolls back. */
  function Apply(s: Store, op: Op): Store {
    match op
    case ReceiveOp(p) =>
      var r := ReceiveWork(s, p);
      if r.Ok? then r.value.0 else s
    case TransitionOp(id, to, eventType, payloadInput, patch) =>
      var r := TransitionWork(s, id, to, eventType, payloadInput, patch);
      if r.Ok? then r.value else s
    case HandoffOp(id, actor, target, expected, active) =>
      var r := HandoffWork(s, id, actor, target, expected, active);
      if r.Ok? then r.value.0 else s
    case ClaimOp(id, key, now) =>
      var r := ClaimRecovery(s, id, key, now);
      if r.Ok? then r.value.0 else s
    case AttemptOp(id, key, status) => s.(attempts := s.attempts[(id, key) := status])
    case AttachOp(id, inputId, context) =>
      var r := AttachContext(s, id, inputId, context);
      if r.Ok? then r.value else s
    case WakeOp(id, eventType) =>
      if id in s.works then s.(works := s.works[id := WakeWork(s.works[id], eventType)]) else s
  }

  function Run(s: Store, ops: seq<Op>): Store {
    if ops == [] then s else Apply(Run(s, ops[..|ops| - 1]), ops[|ops| - 1])
  }

  function Empty(users: set<EmployeeId>, foreign: set<WorkId>): Store {
    Store(map[], map[], [], map[], users, foreign)
  }

  ghost predicate LogsSound(s: Store) {
    forall id :: id in s.works ==> LogSound(s.works[id])
  }

  /** A step leaves the log of a Work as it was, or adds one entry that is numbered behind
      the others, starts from the stored status and leaves the new one. */
  ghost predicate LogGrows(w: Work, w': Work) {
    || (w'.log == w.log && w'.status == w.status)
    || (|w'.log| == |w.log| + 1 && w'.log[..|w.log|] == w.log
        && w'.log[|w.log|] == LogEntry(MaxSeq(w.log) + 1, w'.log[|w.log|].eventType, Some(w.status), w'.status, w'.log[|w.log|].workInputId))
  }

  ghost predicate LogStarts(w: Work) {
    w.log == [LogEntry(1, "received", None, Received, None)] && w.status == Received
  }

  /** What a step does to the log of one Work. */
  ghost predicate Grown(s: Store, s': Store, id: WorkId) {
    && (id in s.works ==> id in s'.works && LogGrows(s.works[id], s'.works[id]))
    && (id !in s.works && id in s'.works ==> LogStarts(s'.works[id]))
  }

  lemma AppendGrows(w: Work, w': Work, eventType: string, to: Status, input: Option<InputId>)
    requires w'.log == Append(w, eventType, to, input).log && w'.status == to
    ensures LogGrows(w, w')
  {
  }

  lemma ContinueGrows(w: Work, input: InputId)
    ensures LogGrows(w, ContinueWork(w, input))
  {
    var w' := ContinueWork(w, input);
    assert w.(status := w.status) == w;
    AppendGrows(w, w', if w.status == Failed then "recovery_input_received" else "input_received", w'.status, Some(input));
  }

  lemma ReceiveGrows(s: Store, p: Intake, id: WorkId)
    requires ReceiveWork(s, p).Ok?
    ensures Grown(s, ReceiveWork(s, p).value.0, id)
  {
    if id in s.works {
      ContinueGrows(s.works[id], p.instructionId);
    }
  }

  lemma TransitionGrows(s: Store, workId: WorkId, to: Status, eventType: string, payload: Option<InputId>, patch: Patch, id: WorkId)
    requires TransitionWork(s, workId, to, eventType, payload, patch).Ok?
    ensures Grown(s, TransitionWork(s, workId, to, eventType, payload, patch).value, id)
  {
    if id == workId {
      AppendGrows(s.works[id], TransitionWork(s, id, to, eventType, payload, patch).value.works[id], eventType, to, payload);
    }
  }

  lemma HandoffGrows(s: Store, workId: WorkId, actor: EmployeeId, target: EmployeeId, expected: Option<EmployeeId>,
                     active: set<EmployeeId>, id: WorkId)
    requires HandoffWork(s, workId, actor, target, expected, active).Ok?
    ensures Grown(s, HandoffWork(s, workId, actor, target, expected, active).value.0, id)
  {
    var s' := HandoffWork(s, workId, actor, target, expected, active).value.0;
    if id == workId && s' != s {
      AppendGrows(s.works[id], s'.works[id], "employee_handoff", s.works[id].status, None);
    }
  }

  lemma ClaimGrows(s: Store, workId: WorkId, key: string, now: int, id: WorkId)
    requires ClaimRecovery(s, workId, key, now).Ok?
    ensures Grown(s, ClaimRecovery(s, workId, key, now).value.0, id)
  {
    var (s', claim) := ClaimRecovery(s, workId, key, now).value;
    if id == workId && claim.claimed {
      var eventType := if s.works[id].status == Recovery then "retry_claim_recovered" else "retry_requested";
      AppendGrows(s.works[id], s'.works[id], eventType, Recovery, LatestInput(s.inputs, id));
    }
  }

  lemma StepGrowsLogs(s: Store, op: Op, id: WorkId)
    ensures Grown(s, Apply(s, op), id)
  {
    match op
    case ReceiveOp(p) => if ReceiveWork(s, p).Ok? { ReceiveGrows(s, p, id); }
    case TransitionOp(workId, to, eventType, payload, patch) =>
      if TransitionWork(s, workId, to, eventType, payload, patch).Ok? {
        TransitionGrows(s, workId, to, eventType, payload, patch, id);
      }
    case HandoffOp(workId, actor, target, expected, active) =>
      if HandoffWork(s, workId, actor, target, expected, active).Ok? {
        HandoffGrows(s, workId, actor, target, expected, active, id);
      }
    case ClaimOp(workId, key, now) => if ClaimRecovery(s, workId, key, now).Ok? { ClaimGrows(s, workId, key, now, id); }
    case WakeOp(workId, eventType) =>
      if workId in s.works {
        AppendGrows(s.works[workId], WakeWork(s.works[workId], eventType), eventType, Executing, None);
      }
    case _ => assert Apply(s, op).works == s.works;
  }

  lemma GrowKeepsLogSound(w: Work, w': Work)
    requires LogSound(w) && LogGrows(w, w')
    ensures LogSound(w')
  {
    MaxSeqOfNumbered(w.log);
  }

  /** A continuation for a status read before the lock keeps the log sound exactly when the
      status is still that one at the lock. */
  lemma LateContinuationKeepsLogExactly(w: Work, read: Status, input: InputId)
    requires LogSound(w)
    ensures LogSound(ContinueLate(w, read, input)) <==> read == w.status
    ensures ContinueLate(w, read, input).status == if read == Failed then Recovery else w.status
  {
    var after := ContinueLate(w, read, input);
    MaxSeqOfNumbered(w.log);
    assert after.log[..|w.log|] == w.log && after.log[|w.log|].fromStatus == Some(read);
    assert LogSound(after) ==> after.log[|w.log|].fromStatus == Some(after.log[|w.log| - 1].toStatus);
    if read == w.status {
      ContinueGrows(w, input);
      GrowKeepsLogSound(w, after);
    }
  }

  lemma ApplyKeepsLogsSound(s: Store, op: Op)
    requires LogsSound(s)
    ensures LogsSound(Apply(s, op))
  {
    forall id | id in Apply(s, op).works ensures LogSound(Apply(s, op).works[id]) {
      StepGrowsLogs(s, op, id);
      if id in s.works {
        GrowKeepsLogSound(s.works[id], Apply(s, op).works[id]);
      }
    }
  }

  /** Over every run of intake, transition, handoff, recovery claim and wake, each
      Work's log stays numbered 1..n, unbroken and in step with the stored status. */
  lemma {:induction false} LogsSoundInEveryRun(users: set<EmployeeId>, foreign: set<WorkId>, ops: seq<Op>)
    ensures LogsSound(Run(Empty(users, foreign), ops))
  {
    if ops != [] {
      LogsSoundInEveryRun(users, foreign, ops[..|ops| - 1]);
      ApplyKeepsLogsSound(Run(Empty(users, foreign), ops[..|ops| - 1]), ops[|ops| - 1]);
    }
  }

  /** Terminal truth changes only right after an input entry; failed Work leaves only
      into recovery or cancellation. */
  ghost predicate GuardedAt(log: seq<LogEntry>, k: int)
    requires 1 <= k < |log|
  {
    var from := log[k].fromStatus;
    && (from.Some? && LeavesTerminal(from.value, log[k].toStatus) ==> Acknowledges(log[k - 1], log[k - 1].workInputId))
    && !(from.Some? && LeavesFailedImplicitly(from.value, log[k].toStatus))
  }

  ghost predicate TerminalGuarded(log: seq<LogEntry>) {
    forall k :: 1 <= k < |log| ==> GuardedAt(log, k)
  }

  lemma GrowKeepsTerminalGuarded(w: Work, w': Work)
    requires LogGrows(w, w') && TerminalGuarded(w.log) && |w.log| > 0
    requires LeavesTerminal(w.status, w'.status) ==> ExplicitlyContinued(w.log, w.log[|w.log| - 1].workInputId)
    requires !LeavesFailedImplicitly(w.status, w'.status)
    ensures TerminalGuarded(w'.log)
  {
    forall k | 1 <= k < |w'.log|
      ensures GuardedAt(w'.log, k)
    {
      if k < |w.log| {
        assert GuardedAt(w.log, k);
      }
    }
  }

  ghost predicate AllTerminalGuarded(s: Store) {
    forall id :: id in s.works ==> TerminalGuarded(s.works[id].log)
  }

  /** A transition that expects the newest input of the Work, while the newest log entry is
      the arrival of that very input. */
  ghost predicate ExitEarned(s: Store, op: Op, id: WorkId)
    requires id in s.works
  {
    && op.TransitionOp? && op.workId == id && op.patch.expectedInput.Some?
    && LatestInput(s.inputs, id) == op.patch.expectedInput
    && ExplicitlyContinued(s.works[id].log, op.patch.expectedInput)
  }

  /** No step but a wake moves completed or cancelled Work otherwise. */
  lemma ExitsAreEarned(s: Store, op: Op, id: WorkId)
    requires id in s.works && !op.WakeOp?
    ensures id in Apply(s, op).works
    ensures LeavesTerminal(s.works[id].status, Apply(s, op).works[id].status) ==> ExitEarned(s, op, id)
  {
  }

  lemma FailedLeavesExplicitly(s: Store, op: Op, id: WorkId)
    requires id in s.works && !op.WakeOp?
    ensures id in Apply(s, op).works && !LeavesFailedImplicitly(s.works[id].status, Apply(s, op).works[id].status)
  {
  }

  lemma ApplyKeepsTerminalGuarded(s: Store, op: Op)
    requires LogsSound(s) && AllTerminalGuarded(s)
    requires !op.WakeOp?
    ensures AllTerminalGuarded(Apply(s, op))
  {
    forall id | id in Apply(s, op).works ensures TerminalGuarded(Apply(s, op).works[id].log) {
      StepGrowsLogs(s, op, id);
      if id in s.works {
        ExitsAreEarned(s, op, id);
        FailedLeavesExplicitly(s, op, id);
        GrowKeepsTerminalGuarded(s.works[id], Apply(s, op).works[id]);
      }
    }
  }

  /** Over every run without wakes, completed and cancelled Work changes status only
      directly after an input entry, and failed Work never leaves implicitly. */
  lemma {:induction false} TerminalGuardedInEveryRun(users: set<EmployeeId>, foreign: set<WorkId>, ops: seq<Op>)
    requires forall i :: 0 <= i < |ops| ==> !ops[i].WakeOp?
    ensures AllTerminalGuarded(Run(Empty(users, foreign), ops))
  {
    if ops != [] {
      TerminalGuardedInEveryRun(users, foreign, ops[..|ops| - 1]);
      LogsSoundInEveryRun(users, foreign, ops[..|ops| - 1]);
      ApplyKeepsTerminalGuarded(Run(Empty(users, foreign), ops[..|ops| - 1]), ops[|ops| - 1]);
    }
  }

  /** A transition that moves terminal Work names the newest input of that Work, and
      the log's newest entry is the arrival of that very input. */
  lemma TerminalExitNamesTheCurrentInput(s: Store, workId: WorkId, to: Status, eventType: string, payload: Option<InputId>, patch: Patch)
    requires workId in s.works && LeavesTerminal(s.works[workId].status, to)
    ensures TransitionWork(s, workId, to, eventType, payload, patch).Ok? <==>
      && (patch.expectedStatus.None? || patch.expectedStatus.value == s.works[workId].status)
      && patch.expectedInput.Some?
      && LatestInput(s.inputs, workId) == patch.expectedInput
      && ExplicitlyContinued(s.works[workId].log, patch.expectedInput)
  {
  }

  // ------------------------------------------------------------------------
  // The input behind every exit from completed or cancelled
  // ------------------------------------------------------------------------

  /** Over every run without wakes: behind a log entry that takes a Work out of completed or
      cancelled stands a transition of that run. It expects an input that was the newest of
      the Work then, and the entry before is the arrival of that input. */
  lemma {:induction false} TerminalExitsAreEarned(users: set<EmployeeId>, foreign: set<WorkId>, ops: seq<Op>, id: WorkId, j: nat)
    returns (k: nat)
    requires forall i :: 0 <= i < |ops| ==> !ops[i].WakeOp?
    requires var s := Run(Empty(users, foreign), ops); id in s.works && IsExit(s.works[id].log, j)
    ensures k < |ops|
    ensures ExitBehind(Run(Empty(users, foreign), ops[..k]), ops[k], id, Run(Empty(users, foreign), ops).works[id].log, j)
  {
    var n := |ops| - 1;
    var before := Run(Empty(users, foreign), ops[..n]);
    StepGrowsLogs(before, ops[n], id);
    if id in before.works && j < |before.works[id].log| {
      k := TerminalExitsAreEarned(users, foreign, ops[..n], id, j);
      assert ops[..n][..k] == ops[..k];
      SameExit(Run(Empty(users, foreign), ops[..k]), ops[k], id, before.works[id].log, Run(Empty(users, foreign), ops).works[id].log, j);
    } else {
      k := n;
      LastEntryIsEarned(before, ops[n], id, j);
    }
  }

  /** Entry j takes the Work out of completed or cancelled. */
  predicate IsExit(log: seq<LogEntry>, j: nat) {
    1 <= j < |log| && log[j].fromStatus.Some? && LeavesTerminal(log[j].fromStatus.value, log[j].toStatus)
  }

  /** The step that wrote entry j met the log before it, and earned the exit by the input
      whose arrival is the entry before. */
  ghost predicate ExitBehind(before: Store, op: Op, id: WorkId, log: seq<LogEntry>, j: nat)
    requires 1 <= j < |log|
  {
    && id in before.works && before.works[id].log == log[..j]
    && ExitEarned(before, op, id)
    && Acknowledges(log[j - 1], op.patch.expectedInput)
  }

  lemma SameExit(before: Store, op: Op, id: WorkId, log: seq<LogEntry>, longer: seq<LogEntry>, j: nat)
    requires log <= longer && 1 <= j < |log| && ExitBehind(before, op, id, log, j)
    ensures ExitBehind(before, op, id, longer, j)
  {
    assert log[..j] == longer[..j];
  }

  lemma LastEntryIsEarned(s: Store, op: Op, id: WorkId, j: nat)
    requires !op.WakeOp? && Grown(s, Apply(s, op), id) && id in Apply(s, op).works
    requires IsExit(Apply(s, op).works[id].log, j) && (id in s.works ==> j >= |s.works[id].log|)
    ensures ExitBehind(s, op, id, Apply(s, op).works[id].log, j)
  {
    var log := Apply(s, op).works[id].log;
    ExitsAreEarned(s, op, id);
    assert s.works[id].log == log[..j];
  }

  /** The exception the wake makes: it reopens a Work from any status, so the guard of
      the run theorem breaks exactly when the Work was terminal, or failed, before. */
  lemma WakeBreaksTheGuardExactlyOnTerminalWork(w: Work, eventType: string)
    requires LogSound(w) && TerminalGuarded(w.log)
    ensures TerminalGuarded(WakeWork(w, eventType).log) <==>
      && w.status != Failed
      && (w.status == Completed || w.status == Cancelled ==> ExplicitlyContinued(w.log, w.log[|w.log| - 1].workInputId))
  {
    var log := WakeWork(w, eventType).log;
    var k := |w.log|;
    assert log[k].fromStatus == Some(w.status) && log[k].toStatus == Executing;
    if TerminalGuarded(log) {
      assert GuardedAt(log, k);
    }
    if w.status != Failed
       && (w.status == Completed || w.status == Cancelled ==> ExplicitlyContinued(w.log, w.log[|w.log| - 1].workInputId)) {
      AppendGrows(w, WakeWork(w, eventType), eventType, Executing, None);
      GrowKeepsTerminalGuarded(w, WakeWork(w, eventType));
    }
  }

  // ------------------------------------------------------------------------
  // Intake is idempotent
  // ------------------------------------------------------------------------

  lemma {:induction false} MatchingNone(inputs: seq<Input>, instructionId: InputId, key: Option<string>)
    ensures MatchingInputs(inputs, instructionId, key) == [] <==>
      forall i :: 0 <= i < |inputs| ==> !ClaimedBy(inputs[i], instructionId, key)
  {
    if inputs != [] {
      var n := |inputs| - 1;
      MatchingNone(inputs[..n], instructionId, key);
      assert forall i :: 0 <= i < n ==> inputs[..n][i] == inputs[i];
    }
  }

  lemma {:induction false} MatchingOne(inputs: seq<Input>, k: nat, instructionId: InputId, key: Option<string>)
    requires k < |inputs| && forall i :: 0 <= i < |inputs| ==> (ClaimedBy(inputs[i], instructionId, key) <==> i == k)
    ensures MatchingInputs(inputs, instructionId, key) == [inputs[k]]
  {
    var n := |inputs| - 1;
    if k == n {
      MatchingNone(inputs[..n], instructionId, key);
    } else {
      MatchingOne(inputs[..n], k, instructionId, key);
    }
  }

  /** Row k holds the input as it was stored, but for a context attached since, and is the
      only row an intake under these claims meets. */
  ghost predicate OnlyClaimant(s: Store, k: nat, stored: Input) {
    && k < |s.inputs| && s.inputs[k].(context := stored.context) == stored
    && (stored.context.Some? ==> s.inputs[k].context == stored.context)
    && (forall i :: 0 <= i < |s.inputs| ==> (ClaimedBy(s.inputs[i], stored.id, stored.idempotencyKey) <==> i == k))
    && stored.workId in s.works
  }

  /** What an exact replay compares of the Work never changes. */
  ghost predicate SameOrigin(a: Work, b: Work) {
    a.createdBy == b.createdBy && a.initialFingerprint == b.initialFingerprint
  }

  lemma ReceiveKeepsClaimant(s: Store, q: Intake, k: nat, stored: Input)
    requires OnlyClaimant(s, k, stored) && ReceiveWork(s, q).Ok?
    ensures OnlyClaimant(ReceiveWork(s, q).value.0, k, stored)
    ensures SameOrigin(ReceiveWork(s, q).value.0.works[stored.workId], s.works[stored.workId])
  {
    var s' := ReceiveWork(s, q).value.0;
    if s'.inputs != s.inputs {
      MatchingNone(s.inputs, q.instructionId, q.idempotencyKey);
      assert s'.inputs[..|s'.inputs| - 1] == s.inputs;
      assert !ClaimedBy(s.inputs[k], q.instructionId, q.idempotencyKey);
      assert !ClaimedBy(s'.inputs[|s.inputs|], stored.id, stored.idempotencyKey);
    }
  }

  lemma AttachKeepsClaimant(s: Store, workId: WorkId, inputId: InputId, context: string, k: nat, stored: Input)
    requires OnlyClaimant(s, k, stored) && AttachContext(s, workId, inputId, context).Ok?
    ensures OnlyClaimant(AttachContext(s, workId, inputId, context).value, k, stored)
    ensures AttachContext(s, workId, inputId, context).value.works == s.works
  {
  }

  lemma StepKeepsClaimant(s: Store, op: Op, k: nat, stored: Input)
    requires OnlyClaimant(s, k, stored)
    ensures OnlyClaimant(Apply(s, op), k, stored)
    ensures SameOrigin(Apply(s, op).works[stored.workId], s.works[stored.workId])
  {
    if op.ReceiveOp? {
      if ReceiveWork(s, op.intake).Ok? {
        ReceiveKeepsClaimant(s, op.intake, k, stored);
      }
    } else if op.AttachOp? {
      if AttachContext(s, op.workId, op.inputId, op.context).Ok? {
        AttachKeepsClaimant(s, op.workId, op.inputId, op.context, k, stored);
      }
    } else {
      OtherStepsKeepInputs(s, op, stored.workId);
    }
  }

  lemma OtherStepsKeepInputs(s: Store, op: Op, workId: WorkId)
    requires !op.ReceiveOp? && !op.AttachOp? && workId in s.works
    ensures Apply(s, op).inputs == s.inputs && workId in Apply(s, op).works
    ensures SameOrigin(Apply(s, op).works[workId], s.works[workId])
  {
  }

  lemma {:induction false} RunKeepsClaimant(s: Store, ops: seq<Op>, k: nat, stored: Input)
    requires OnlyClaimant(s, k, stored)
    ensures OnlyClaimant(Run(s, ops), k, stored)
    ensures SameOrigin(Run(s, ops).works[stored.workId], s.works[stored.workId])
  {
    if ops != [] {
      RunKeepsClaimant(s, ops[..|ops| - 1], k, stored);
      StepKeepsClaimant(Run(s, ops[..|ops| - 1]), ops[|ops| - 1], k, stored);
    }
  }

  lemma StoredInputIsClaimant(s: Store, p: Intake)
    requires ReceiveWork(s, p).Ok? && !ReceiveWork(s, p).value.1.duplicate
    ensures var (s', first) := ReceiveWork(s, p).value;
      && OnlyClaimant(s', |s.inputs|, Input(p.instructionId, first.workId, p.idempotencyKey, ValidUser(s, p.user), p.fingerprint, p.context))
      && (p.requireExact ==>
            s'.works[first.workId].createdBy == ValidUser(s, p.user) && s'.works[first.workId].initialFingerprint == p.fingerprint)
  {
    var s' := ReceiveWork(s, p).value.0;
    assert s'.inputs[..|s.inputs|] == s.inputs;
    MatchingNone(s.inputs, p.instructionId, p.idempotencyKey);
  }

  /** The id under which an intake is presented again: its own; or, when the caller gave none
      but a key, another one generated for it. */
  ghost predicate PresentedAs(now: Store, p: Intake, again: InputId) {
    || again == p.instructionId
    || (!p.explicitInstruction && p.idempotencyKey.Some? && forall i :: 0 <= i < |now.inputs| ==> now.inputs[i].id != again)
  }

  lemma ReplayMeetsClaimant(now: Store, p: Intake, again: InputId, k: nat, stored: Input)
    requires OnlyClaimant(now, k, stored) && stored.id == p.instructionId && stored.idempotencyKey == p.idempotencyKey
    requires PresentedAs(now, p, again)
    ensures MatchingInputs(now.inputs, again, p.idempotencyKey) == [now.inputs[k]]
  {
    forall i | 0 <= i < |now.inputs|
      ensures ClaimedBy(now.inputs[i], again, p.idempotencyKey) <==> i == k
    {
      assert ClaimedBy(now.inputs[i], stored.id, stored.idempotencyKey) <==> i == k;
    }
    MatchingOne(now.inputs, k, again, p.idempotencyKey);
  }

  /** After an intake that stored something, presenting the same intake again, whatever
      happened since, stores nothing and answers with the same Work and input and the
      Work's status by then, provided its author is a member of the tenant (or anonymous)
      and, when an exact match is asked for, no context was attached to an input that had
      none; otherwise the replay is refused. A context stored at intake stays. */
  lemma ReplayedIntake(s: Store, p: Intake, later: seq<Op>, again: InputId)
    requires ReceiveWork(s, p).Ok? && !ReceiveWork(s, p).value.1.duplicate
    requires PresentedAs(Run(ReceiveWork(s, p).value.0, later), p, again)
    ensures
      var (s', first) := ReceiveWork(s, p).value;
      var now := Run(s', later);
      && first.inputId == p.instructionId && first.workId in now.works && |s.inputs| < |now.inputs|
      && (p.context.Some? ==> now.inputs[|s.inputs|].context == p.context)
      && ReceiveWork(now, p.(instructionId := again)) ==
        if p.user == ValidUser(s, p.user)
          && (p.requireExact ==> (p.workId.Some? ==> p.workId.value == first.workId) && now.inputs[|s.inputs|].context == p.context) then
          Ok((now, Receipt(first.workId, first.inputId, false, true, now.works[first.workId].status)))
        else
          Err(ExactIntakeConflict)
  {
    var (s', first) := ReceiveWork(s, p).value;
    var now := Run(s', later);
    var stored := Input(p.instructionId, first.workId, p.idempotencyKey, ValidUser(s, p.user), p.fingerprint, p.context);
    StoredInputIsClaimant(s, p);
    RunKeepsClaimant(s', later, |s.inputs|, stored);
    ReplayMeetsClaimant(now, p, again, |s.inputs|, stored);
  }

  // ------------------------------------------------------------------------
  // Recovery claims exclude each other
  // ------------------------------------------------------------------------

  function RunClaims(s: Store, workId: WorkId, claims: seq<(string, int)>): Store {
    if claims == [] then s
    else
      var before := RunClaims(s, workId, claims[..|claims| - 1]);
      var last := claims[|claims| - 1];
      Apply(before, ClaimOp(workId, last.0, last.1))
  }

  /** Once a claim succeeds at time t, no burst of further claims before t + TTL
      succeeds or changes anything: exactly one planner owns the retry. */
  lemma {:induction false} RecoveryClaimIsExclusive(s: Store, workId: WorkId, key: string, t: int, later: seq<(string, int)>)
    requires ClaimRecovery(s, workId, key, t).Ok? && ClaimRecovery(s, workId, key, t).value.1.claimed
    requires forall i :: 0 <= i < |later| ==> later[i].1 < t + RECOVERY_CLAIM_TTL_MS
    ensures
      var held := ClaimRecovery(s, workId, key, t).value.0;
      && RunClaims(held, workId, later) == held
      && (forall k, now :: now < t + RECOVERY_CLAIM_TTL_MS ==>
            ClaimRecovery(held, workId, k, now).Ok? && !ClaimRecovery(held, workId, k, now).value.1.claimed)
      && (forall k, now :: now >= t + RECOVERY_CLAIM_TTL_MS && (workId, k) !in held.attempts ==>
            ClaimRecovery(held, workId, k, now).Ok? && ClaimRecovery(held, workId, k, now).value.1.claimed)
  {
    if later != [] {
      RecoveryClaimIsExclusive(s, workId, key, t, later[..|later| - 1]);
    }
  }
}
