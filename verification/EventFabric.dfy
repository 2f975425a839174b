/** The event / wait / wake fabric of finnor-os/packages/db/event-fabric.ts.

    Events and waits arrive in either order, a deadline arbitrates between them, and
    every woken wait gets one job and one claim. Each transaction runs under a
    per-tenant advisory lock, so it is one atomic step here; a throw changes nothing.
    The clock reads of one transaction return one value. */
module EventFabric {
  import opened Basics
  import Decimal
  import WorkKernel

  type Time = int
  type TenantId = string
  type Work = WorkKernel.Work

  const SETTLEMENT_MS: int := 2_000
  // 9999-12-31T23:59:59.999Z in milliseconds
  const END_OF_TIME: Time := 253_402_300_799_999
  const DEADLINE_REACHED := "deadline.reached"

  datatype Correlation = Correlation(
    resourceType: Option<string>,
    resourceId: Option<string>,
    delegationId: Option<string>,
    taskId: Option<string>,
    acknowledgementRequestId: Option<string>,
    computerRunId: Option<string>,
    domainActionId: Option<string>,
    provider: Option<string>,
    providerConversationId: Option<string>,
    providerMessageId: Option<string>,
    applicationRef: Option<string>,
    correlationId: Option<string>)

  datatype EventStatus = NewEvent | Matched | Unmatched | Ignored

  /** `scannedAt` is a history variable: the clock of the last ingest that presented
      the event, None for a deadline event the fabric wrote itself. */
  datatype Event = Event(
    tenantId: TenantId,
    source: string,
    sourceEventId: string,
    eventType: string,
    occurredAt: Time,
    receivedAt: Time,
    partyType: Option<string>,
    partyId: Option<string>,
    workId: Option<string>,
    refs: Correlation,
    status: EventStatus,
    scannedAt: Option<Time>)

  datatype WaitStatus = Pending | Satisfied | TimedOut | Withdrawn

  datatype Wait = Wait(
    tenantId: TenantId,
    workId: string,
    loopId: string,
    stepId: string,
    planRevisionId: Option<string>,
    objectiveRevision: Option<int>,
    expectedEventType: string,
    subjectType: Option<string>,
    subjectId: Option<string>,
    refs: Correlation,
    earliestAt: Time,
    deadlineAt: Option<Time>,
    createdAt: Time,
    status: WaitStatus,
    matchedEvent: Option<nat>)

  datatype Cause = ByEvent | ByDeadline

  /** Jobs carry a unique idempotency key: one wake and one deadline job per wait. */
  datatype Job =
    | WakeJob(waitId: nat, eventId: nat, cause: Cause, loopId: string, revision: int, stepNumber: int)
    | DeadlineJob(waitId: nat, runAt: Time)

  datatype WakeClaim = WakeClaim(waitId: nat, eventId: nat, loopId: string, workId: string, cause: Cause, revision: int, jobId: nat)

  datatype LoopState = Continue | AwaitingApproval | LoopWaiting | LoopBlocked | LoopCompleted | LoopFailed | LoopCancelled

  datatype Loop = Loop(state: LoopState, revision: int, stepCount: int)

  datatype Plan = Plan(workId: string, active: bool)

  /** Rows are identified by their position; loops, plans and Works by tenant and id. */
  datatype State = State(
    clock: Time,
    events: seq<Event>,
    waits: seq<Wait>,
    jobs: seq<Job>,
    claims: seq<WakeClaim>,
    loops: map<(TenantId, string), Loop>,
    plans: map<(TenantId, string), Plan>,
    works: map<(TenantId, string), Work>)

  datatype Error =
    | LoopMissing | WorkMissing | WakeJobExists | RevisionChanged
    | NoEventType | WeakCorrelation | DeadlineBeforeEarliest | WaitUnavailable

  // ------------------------------------------------------------------------
  // Matching
  // ------------------------------------------------------------------------

  predicate Exact(optional: Option<string>, actual: Option<string>) {
    optional.None? || optional == actual
  }

  /** JavaScript truthiness of an optional string. */
  predicate Truthy(s: Option<string>) {
    s.Some? && s.value != ""
  }

  predicate ExactRefs(wait: Correlation, event: Correlation) {
    && Exact(wait.resourceType, event.resourceType)
    && Exact(wait.resourceId, event.resourceId)
    && Exact(wait.delegationId, event.delegationId)
    && Exact(wait.taskId, event.taskId)
    && Exact(wait.acknowledgementRequestId, event.acknowledgementRequestId)
    && Exact(wait.computerRunId, event.computerRunId)
    && Exact(wait.domainActionId, event.domainActionId)
    && Exact(wait.provider, event.provider)
    && Exact(wait.providerConversationId, event.providerConversationId)
    && Exact(wait.providerMessageId, event.providerMessageId)
    && Exact(wait.applicationRef, event.applicationRef)
    && Exact(wait.correlationId, event.correlationId)
  }

  /** A reference specific enough to cross Work boundaries. */
  predicate Strong(c: Correlation) {
    || Truthy(c.resourceId) || Truthy(c.delegationId) || Truthy(c.taskId)
    || Truthy(c.acknowledgementRequestId) || Truthy(c.computerRunId) || Truthy(c.domainActionId)
    || Truthy(c.providerConversationId) || Truthy(c.providerMessageId)
    || Truthy(c.applicationRef) || Truthy(c.correlationId)
  }

  /** Everything the matching rule asks for except that the event lies in the past. */
  predicate Fits(e: Event, w: Wait) {
    && e.tenantId == w.tenantId
    && e.eventType == w.expectedEventType
    && w.earliestAt <= e.occurredAt
    && (w.deadlineAt.Some? ==> e.occurredAt <= w.deadlineAt.value)
    && (Truthy(e.workId) ==> e.workId.value == w.workId)
    && Exact(w.subjectType, e.partyType)
    && Exact(w.subjectId, e.partyId)
    && ExactRefs(w.refs, e.refs)
    && (e.workId == Some(w.workId) || Strong(w.refs))
  }

  predicate Matches(e: Event, w: Wait, now: Time) {
    e.occurredAt <= now && Fits(e, w)
  }

  // ------------------------------------------------------------------------
  // Lookups
  // ------------------------------------------------------------------------

  function FindEvent(events: seq<Event>, tenantId: TenantId, source: string, sourceEventId: string): (r: Option<nat>)
    ensures r.Some? ==> r.value < |events|
    ensures r.Some? ==> events[r.value].tenantId == tenantId && events[r.value].source == source
    ensures r.Some? ==> events[r.value].sourceEventId == sourceEventId
    ensures r.None? ==> forall i :: 0 <= i < |events| ==>
      !(events[i].tenantId == tenantId && events[i].source == source && events[i].sourceEventId == sourceEventId)
  {
    if events == [] then None
    else
      var last := |events| - 1;
      if events[last].tenantId == tenantId && events[last].source == source && events[last].sourceEventId == sourceEventId
      then Some(last)
      else FindEvent(events[..last], tenantId, source, sourceEventId)
  }

  function FindWait(waits: seq<Wait>, stepId: string): (r: Option<nat>)
    ensures r.Some? ==> r.value < |waits| && waits[r.value].stepId == stepId
    ensures r.None? ==> forall i :: 0 <= i < |waits| ==> waits[i].stepId != stepId
  {
    if waits == [] then None
    else
      var last := |waits| - 1;
      if waits[last].stepId == stepId then Some(last) else FindWait(waits[..last], stepId)
  }

  /** Pending waits of the event's tenant that it matches, oldest first. */
  function MatchingWaits(waits: seq<Wait>, e: Event, now: Time): (r: seq<nat>)
    ensures forall k :: 0 <= k < |r| ==> r[k] < |waits| && waits[r[k]].status == Pending && Matches(e, waits[r[k]], now)
    ensures forall i :: 0 <= i < |waits| && waits[i].status == Pending && Matches(e, waits[i], now) ==> i in r
  {
    if waits == [] then []
    else
      var last := |waits| - 1;
      var rest := MatchingWaits(waits[..last], e, now);
      if waits[last].status == Pending && Matches(e, waits[last], now) then rest + [last] else rest
  }

  ghost predicate Rising(r: seq<nat>) {
    forall j, k :: 0 <= j < k < |r| ==> r[j] < r[k]
  }

  lemma {:induction false} MatchingWaitsRise(waits: seq<Wait>, e: Event, now: Time)
    ensures Rising(MatchingWaits(waits, e, now))
  {
    if waits != [] {
      var last := |waits| - 1;
      MatchingWaitsRise(waits[..last], e, now);
      RisingSnoc(MatchingWaits(waits[..last], e, now), last);
    }
  }

  lemma RisingSnoc(r: seq<nat>, last: nat)
    requires Rising(r) && forall k :: 0 <= k < |r| ==> r[k] < last
    ensures Rising(r + [last])
  {
  }

  predicate Candidate(e: Event, w: Wait, now: Time, cutoff: Time) {
    e.status != Ignored && e.occurredAt <= cutoff && Matches(e, w, now)
  }

  predicate Earlier(a: Event, b: Event) {
    a.occurredAt < b.occurredAt || (a.occurredAt == b.occurredAt && a.receivedAt < b.receivedAt)
  }

  /** The first candidate in (occurredAt, receivedAt) order. */
  function FirstMatch(events: seq<Event>, w: Wait, now: Time, cutoff: Time): (r: Option<nat>)
    ensures r.None? ==> forall i :: 0 <= i < |events| ==> !Candidate(events[i], w, now, cutoff)
    ensures r.Some? ==> r.value < |events| && Candidate(events[r.value], w, now, cutoff)
    ensures r.Some? ==> forall i :: 0 <= i < |events| && Candidate(events[i], w, now, cutoff) ==> !Earlier(events[i], events[r.value])
  {
    if events == [] then None
    else
      var last := |events| - 1;
      var best := FirstMatch(events[..last], w, now, cutoff);
      if Candidate(events[last], w, now, cutoff) && (best.None? || Earlier(events[last], events[best.value]))
      then Some(last) else best
  }

  predicate HasWakeJob(jobs: seq<Job>, waitId: nat) {
    exists i :: 0 <= i < |jobs| && jobs[i].WakeJob? && jobs[i].waitId == waitId
  }

  predicate HasDeadlineJob(jobs: seq<Job>, waitId: nat) {
    exists i :: 0 <= i < |jobs| && jobs[i].DeadlineJob? && jobs[i].waitId == waitId
  }

  // ------------------------------------------------------------------------
  // Transactions
  // ------------------------------------------------------------------------

  predicate LoopEnded(loop: Loop) {
    loop.state == LoopBlocked || loop.state == LoopCompleted || loop.state == LoopFailed || loop.state == LoopCancelled
  }

  /** The wait was pinned to an objective revision or plan that is no longer current. */
  predicate StaleGeneration(s: State, w: Wait, loop: Loop) {
    || (w.objectiveRevision.Some? && w.objectiveRevision.value != loop.revision)
    || (w.planRevisionId.Some?
        && !((w.tenantId, w.planRevisionId.value) in s.plans
             && s.plans[(w.tenantId, w.planRevisionId.value)] == Plan(w.workId, true)))
  }

  function WakeEventType(cause: Cause): string {
    if cause == ByEvent then "objective_event_wake_claimed" else "objective_deadline_wake_claimed"
  }

  function Wake(s: State, waitId: nat, eventId: nat, cause: Cause, loop: Loop): State
    requires waitId < |s.waits|
    requires (s.waits[waitId].tenantId, s.waits[waitId].workId) in s.works
  {
    var w := s.waits[waitId];
    var workKey := (w.tenantId, w.workId);
    s.(waits := s.waits[waitId := w.(status := if cause == ByEvent then Satisfied else TimedOut, matchedEvent := Some(eventId))],
       jobs := s.jobs + [WakeJob(waitId, eventId, cause, w.loopId, loop.revision, loop.stepCount + 1)],
       loops := s.loops[(w.tenantId, w.loopId) := loop.(state := Continue)],
       claims := s.claims + [WakeClaim(waitId, eventId, w.loopId, w.workId, cause, loop.revision, |s.jobs|)],
       works := s.works[workKey := WorkKernel.WakeWork(s.works[workKey], WakeEventType(cause))])
  }

  /** Wakes the wait, or withdraws it when its generation is gone. The result names
      the new claim, if any. */
  function ClaimWake(s: State, waitId: nat, eventId: nat, cause: Cause): Result<(State, Option<nat>), Error>
    requires waitId < |s.waits|
  {
    var w := s.waits[waitId];
    if (w.tenantId, w.loopId) !in s.loops then Err(LoopMissing)
    else
      var loop := s.loops[(w.tenantId, w.loopId)];
      if LoopEnded(loop) || StaleGeneration(s, w, loop) then
        Ok((if w.status == Pending then s.(waits := s.waits[waitId := w.(status := Withdrawn)]) else s, None))
      else if w.status != Pending then Ok((s, None))
      else if HasWakeJob(s.jobs, waitId) then Err(WakeJobExists)
      else if (w.tenantId, w.workId) !in s.works then Err(WorkMissing)
      else Ok((Wake(s, waitId, eventId, cause, loop), Some(|s.claims|)))
  }

  function SetEventStatus(s: State, eventId: nat, status: EventStatus): State
    requires eventId < |s.events|
  {
    s.(events := s.events[eventId := s.events[eventId].(status := status)])
  }

  datatype EventInput = EventInput(
    tenantId: TenantId,
    source: string,
    sourceEventId: string,
    eventType: string,
    occurredAt: Option<Time>,
    partyType: Option<string>,
    partyId: Option<string>,
    workId: Option<string>,
    refs: Correlation)

  /** A wait that was woken, with its claim. */
  datatype Woken = Woken(waitId: nat, claimId: nat)

  datatype IngestResult = IngestResult(eventId: nat, duplicate: bool, wakes: seq<Woken>)

  function ClaimAll(s: State, waitIds: seq<nat>, eventId: nat): Result<(State, seq<Woken>), Error>
    requires forall k :: 0 <= k < |waitIds| ==> waitIds[k] < |s.waits|
    decreases |waitIds|
  {
    if waitIds == [] then Ok((s, []))
    else
      var last := |waitIds| - 1;
      match ClaimAll(s, waitIds[..last], eventId)
      case Err(e) => Err(e)
      case Ok((s1, wakes)) =>
        if waitIds[last] >= |s1.waits| then Err(WaitUnavailable)
        else
          match ClaimWake(s1, waitIds[last], eventId, ByEvent)
          case Err(e) => Err(e)
          case Ok((s2, claim)) =>
            Ok((s2, if claim.Some? then wakes + [Woken(waitIds[last], claim.value)] else wakes))
  }

  /** Stores the event unless its (tenant, source, source id) is known, and stamps the scan. */
  function StoreEvent(s: State, input: EventInput): (r: (State, nat))
    ensures r.1 < |r.0.events|
  {
    match FindEvent(s.events, input.tenantId, input.source, input.sourceEventId)
    case Some(id) => (s.(events := s.events[id := s.events[id].(scannedAt := Some(s.clock))]), id)
    case None =>
      var e := Event(input.tenantId, input.source, input.sourceEventId, input.eventType,
                     if input.occurredAt.Some? then input.occurredAt.value else s.clock, s.clock,
                     input.partyType, input.partyId, input.workId, input.refs, NewEvent, Some(s.clock));
      (s.(events := s.events + [e]), |s.events|)
  }

  function Ingest(s: State, input: EventInput): Result<(State, IngestResult), Error> {
    var (s1, eventId) := StoreEvent(s, input);
    var event := s1.events[eventId];
    match ClaimAll(s1, MatchingWaits(s1.waits, event, s1.clock), eventId)
    case Err(e) => Err(e)
    case Ok((s2, wakes)) =>
      if eventId >= |s2.events| then Err(WaitUnavailable)
      else
        var status := if wakes != [] || event.status == Matched then Matched else Unmatched;
        Ok((SetEventStatus(s2, eventId, status), IngestResult(eventId, |s1.events| == |s.events|, wakes)))
  }

  datatype WaitInput = WaitInput(
    tenantId: TenantId,
    workId: string,
    loopId: string,
    stepId: string,
    planRevisionId: Option<string>,
    objectiveRevision: Option<int>,
    eventType: string,
    subjectType: Option<string>,
    subjectId: Option<string>,
    refs: Correlation,
    earliestAt: Option<Time>,
    deadlineAt: Option<Time>)

  function WaitInputError(input: WaitInput, now: Time): Option<Error> {
    if Blank(input.eventType) then Some(NoEventType)
    else if input.eventType != DEADLINE_REACHED && !Strong(input.refs) then Some(WeakCorrelation)
    else if input.deadlineAt.Some?
      && input.deadlineAt.value < (if input.earliestAt.Some? then input.earliestAt.value else now)
    then Some(DeadlineBeforeEarliest)
    else None
  }

  function NewWait(input: WaitInput, now: Time): Wait {
    Wait(input.tenantId, input.workId, input.loopId, input.stepId, input.planRevisionId, input.objectiveRevision,
         input.eventType, input.subjectType, input.subjectId, input.refs,
         if input.earliestAt.Some? then input.earliestAt.value else now,
         input.deadlineAt, now, Pending, None)
  }

  /** Stores the wait unless its objective step already has one. */
  function StoreWait(s: State, input: WaitInput): (r: (State, nat))
    ensures r.1 < |r.0.waits|
  {
    match FindWait(s.waits, input.stepId)
    case Some(id) => (s, id)
    case None => (s.(waits := s.waits + [NewWait(input, s.clock)]), |s.waits|)
  }

  function ScheduleDeadline(s: State, waitId: nat): State
    requires waitId < |s.waits|
  {
    var w := s.waits[waitId];
    if w.deadlineAt.Some? && w.status == Pending && !HasDeadlineJob(s.jobs, waitId) then
      s.(jobs := s.jobs + [DeadlineJob(waitId, w.deadlineAt.value + SETTLEMENT_MS)])
    else s
  }

  /** Wakes the wait with a stored event and marks the event matched. */
  function WakeBy(s: State, waitId: nat, eventId: nat, cause: Cause): Result<(State, Option<nat>), Error>
    requires waitId < |s.waits| && eventId < |s.events|
  {
    match ClaimWake(s, waitId, eventId, cause)
    case Err(e) => Err(e)
    case Ok((s', claim)) =>
      if claim.None? || eventId >= |s'.events| then Ok((s', None))
      else Ok((SetEventStatus(s', eventId, Matched), claim))
  }

  function CreateWait(s: State, input: WaitInput): Result<(State, (nat, Option<nat>)), Error> {
    var invalid := WaitInputError(input, s.clock);
    if invalid.Some? then Err(invalid.value)
    else
      var (s1, waitId) := StoreWait(s, input);
      if s1.waits[waitId].tenantId != input.tenantId then Err(WaitUnavailable)
      else
        var s2 := ScheduleDeadline(s1, waitId);
        if waitId >= |s2.waits| || s2.waits[waitId].status != Pending then Ok((s2, (waitId, None)))
        else
          var cutoff := if input.deadlineAt.Some? then input.deadlineAt.value else END_OF_TIME;
          match FirstMatch(s2.events, s2.waits[waitId], s2.clock, cutoff)
          case None => Ok((s2, (waitId, None)))
          case Some(eventId) =>
            match WakeBy(s2, waitId, eventId, ByEvent)
            case Err(e) => Err(e)
            case Ok((s3, claim)) => Ok((s3, (waitId, claim)))
  }

  function DeadlineSourceId(waitId: nat): string {
    "wait:" + Decimal.Print(waitId) + ":deadline"
  }

  function NoRefs(): Correlation {
    Correlation(None, None, None, None, None, None, None, None, None, None, None, None)
  }

  function DeadlineEvent(w: Wait, waitId: nat, now: Time): Event
    requires w.deadlineAt.Some?
  {
    Event(w.tenantId, "deadline", DeadlineSourceId(waitId), DEADLINE_REACHED, w.deadlineAt.value, now,
          None, None, Some(w.workId),
          NoRefs().(resourceType := Some("work_event_wait"), resourceId := Some(Decimal.Print(waitId))),
          NewEvent, None)
  }

  function StoreDeadlineEvent(s: State, waitId: nat): (r: (State, nat))
    requires waitId < |s.waits| && s.waits[waitId].deadlineAt.Some?
    ensures r.1 < |r.0.events| && r.0.waits == s.waits
  {
    match FindEvent(s.events, s.waits[waitId].tenantId, "deadline", DeadlineSourceId(waitId))
    case Some(id) => (s, id)
    case None => (s.(events := s.events + [DeadlineEvent(s.waits[waitId], waitId, s.clock)]), |s.events|)
  }

  datatype Outcome = NotDue | OutcomeSatisfied(claimId: nat) | OutcomeTimedOut(claimId: nat) | Terminal

  function ProcessDeadline(s: State, tenantId: TenantId, waitId: nat, at: Time): Result<(State, Outcome), Error> {
    if waitId >= |s.waits| || s.waits[waitId].tenantId != tenantId || s.waits[waitId].status != Pending then Ok((s, Terminal))
    else
      var w := s.waits[waitId];
      if w.deadlineAt.None? || w.deadlineAt.value + SETTLEMENT_MS > at then Ok((s, NotDue))
      else
        match FirstMatch(s.events, w, s.clock, w.deadlineAt.value)
        case Some(winner) =>
          (match WakeBy(s, waitId, winner, ByEvent)
           case Err(e) => Err(e)
           case Ok((s', claim)) => Ok((s', if claim.Some? then OutcomeSatisfied(claim.value) else Terminal)))
        case None =>
          var (s1, eventId) := StoreDeadlineEvent(s, waitId);
          match WakeBy(s1, waitId, eventId, ByDeadline)
          case Err(e) => Err(e)
          case Ok((s', claim)) => Ok((s', if claim.Some? then OutcomeTimedOut(claim.value) else Terminal))
  }

  // ------------------------------------------------------------------------
  // Runs: the transactions above, interleaved with everything other code may do to
  // loops, plans, Works, open waits and external events.
  // ------------------------------------------------------------------------

  datatype Op =
    | IngestOp(event: EventInput)
    | CreateWaitOp(wait: WaitInput)
    | DeadlineOp(tenantId: TenantId, waitId: nat, at: Time)
    | TickOp(to: Time)
    | LoopOp(key: (TenantId, string), loop: Loop)
    | PlanOp(key: (TenantId, string), plan: Plan)
    | WorkOp(key: (TenantId, string), work: Work)
    | WithdrawOp(waitId: nat)
    | IgnoreOp(eventId: nat)

  function Apply(s: State, op: Op): State {
    match op
    case IngestOp(input) => var r := Ingest(s, input); if r.Ok? then r.value.0 else s
    case CreateWaitOp(input) => var r := CreateWait(s, input); if r.Ok? then r.value.0 else s
    case DeadlineOp(tenant, waitId, at) => var r := ProcessDeadline(s, tenant, waitId, at); if r.Ok? then r.value.0 else s
    case TickOp(to) => if s.clock <= to <= END_OF_TIME then s.(clock := to) else s
    case LoopOp(key, loop) => s.(loops := s.loops[key := loop])
    case PlanOp(key, plan) => s.(plans := s.plans[key := plan])
    case WorkOp(key, work) => s.(works := s.works[key := work])
    case WithdrawOp(id) =>
      if id < |s.waits| && s.waits[id].status == Pending then
        s.(waits := s.waits[id := s.waits[id].(status := Withdrawn)])
      else s
    case IgnoreOp(id) =>
      if id < |s.events| && s.events[id].source != "deadline" then SetEventStatus(s, id, Ignored) else s
  }

  function Start(now: Time): State {
    State(now, [], [], [], [], map[], map[], map[])
  }

  function Run(now: Time, ops: seq<Op>): State {
    if ops == [] then Start(now) else Apply(Run(now, ops[..|ops| - 1]), ops[|ops| - 1])
  }
}
