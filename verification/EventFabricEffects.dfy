/** What a settled wait brings about, stated on the rows themselves: which events may wake
    it, and what its loop, its Work, its claim and its job hold afterwards. */
module EventFabricEffects {
  import opened Basics
  import Decimal
  import WorkKernel
  import opened EventFabric
  import opened EventFabricSafety
  import opened EventFabricAccounting

  // ------------------------------------------------------------------------
  // Which events match
  // ------------------------------------------------------------------------

  datatype RefKind =
    | ResourceType | ResourceId | DelegationId | TaskId | AcknowledgementRequestId | ComputerRunId
    | DomainActionId | Provider | ProviderConversationId | ProviderMessageId | ApplicationRef | CorrelationId

  function RefOf(c: Correlation, k: RefKind): Option<string> {
    match k
    case ResourceType => c.resourceType
    case ResourceId => c.resourceId
    case DelegationId => c.delegationId
    case TaskId => c.taskId
    case AcknowledgementRequestId => c.acknowledgementRequestId
    case ComputerRunId => c.computerRunId
    case DomainActionId => c.domainActionId
    case Provider => c.provider
    case ProviderConversationId => c.providerConversationId
    case ProviderMessageId => c.providerMessageId
    case ApplicationRef => c.applicationRef
    case CorrelationId => c.correlationId
  }

  /** A kind of resource or a provider alone says nothing about which one. */
  predicate Specific(k: RefKind) {
    k != ResourceType && k != Provider
  }

  predicate Named(s: Option<string>) {
    s != None && s != Some("")
  }

  ghost predicate SharesSpecificRef(a: Correlation, b: Correlation) {
    exists k :: Specific(k) && Named(RefOf(a, k)) && RefOf(a, k) == RefOf(b, k)
  }

  lemma StrongNamesSpecific(c: Correlation)
    ensures Strong(c) <==> exists k :: Specific(k) && Named(RefOf(c, k))
  {
    forall k | Specific(k) && Named(RefOf(c, k)) ensures Strong(c) {
    }
    if Strong(c) {
      assert Named(RefOf(c, ResourceId)) || Named(RefOf(c, DelegationId)) || Named(RefOf(c, TaskId))
        || Named(RefOf(c, AcknowledgementRequestId)) || Named(RefOf(c, ComputerRunId)) || Named(RefOf(c, DomainActionId))
        || Named(RefOf(c, ProviderConversationId)) || Named(RefOf(c, ProviderMessageId))
        || Named(RefOf(c, ApplicationRef)) || Named(RefOf(c, CorrelationId));
    }
  }

  lemma ExactRefsAgree(wait: Correlation, event: Correlation)
    ensures ExactRefs(wait, event) <==> forall k :: RefOf(wait, k) == None || RefOf(wait, k) == RefOf(event, k)
  {
    if forall k :: RefOf(wait, k) == None || RefOf(wait, k) == RefOf(event, k) {
      assert RefOf(wait, ResourceType) == wait.resourceType && RefOf(wait, ResourceId) == wait.resourceId;
      assert RefOf(wait, DelegationId) == wait.delegationId && RefOf(wait, TaskId) == wait.taskId;
      assert RefOf(wait, AcknowledgementRequestId) == wait.acknowledgementRequestId;
      assert RefOf(wait, ComputerRunId) == wait.computerRunId && RefOf(wait, DomainActionId) == wait.domainActionId;
      assert RefOf(wait, Provider) == wait.provider && RefOf(wait, ProviderConversationId) == wait.providerConversationId;
      assert RefOf(wait, ProviderMessageId) == wait.providerMessageId && RefOf(wait, ApplicationRef) == wait.applicationRef;
      assert RefOf(wait, CorrelationId) == wait.correlationId;
    }
  }

  /** The event is of the wait's tenant and type and lies in the wait's time, nothing that
      the wait names is contradicted, and the two share the Work or a specific reference. */
  ghost predicate Concerns(e: Event, w: Wait) {
    && e.tenantId == w.tenantId && e.eventType == w.expectedEventType
    && w.earliestAt <= e.occurredAt
    && (w.deadlineAt == None || e.occurredAt <= w.deadlineAt.value)
    && (!Named(e.workId) || e.workId == Some(w.workId))
    && (w.subjectType == None || w.subjectType == e.partyType)
    && (w.subjectId == None || w.subjectId == e.partyId)
    && (forall k :: RefOf(w.refs, k) == None || RefOf(w.refs, k) == RefOf(e.refs, k))
    && (e.workId == Some(w.workId) || SharesSpecificRef(w.refs, e.refs))
  }

  /** An event matches a wait if and only if it concerns the wait and is past. */
  lemma MatchesExactly(e: Event, w: Wait, now: Time)
    ensures Fits(e, w) <==> Concerns(e, w)
    ensures Matches(e, w, now) <==> Concerns(e, w) && e.occurredAt <= now
  {
    ExactRefsAgree(w.refs, e.refs);
    StrongNamesSpecific(w.refs);
    if ExactRefs(w.refs, e.refs) {
      NamedIsShared(w.refs, e.refs);
    }
  }

  lemma NamedIsShared(a: Correlation, b: Correlation)
    requires forall k :: RefOf(a, k) == None || RefOf(a, k) == RefOf(b, k)
    ensures SharesSpecificRef(a, b) <==> exists k :: Specific(k) && Named(RefOf(a, k))
  {
    if k :| Specific(k) && Named(RefOf(a, k)) {
      assert RefOf(a, k) == RefOf(b, k);
    }
  }

  // ------------------------------------------------------------------------
  // What a wake writes
  // ------------------------------------------------------------------------

  function LoopOf(w: Wait): (TenantId, string) {
    (w.tenantId, w.loopId)
  }

  function WorkOf(w: Wait): (TenantId, string) {
    (w.tenantId, w.workId)
  }

  ghost predicate NewlyWoken(s: State, s': State, i: int) {
    0 <= i < |s'.waits| && IsWoken(s'.waits[i]) && (i < |s.waits| ==> !IsWoken(s.waits[i]))
  }

  ghost predicate LoopWoken(s: State, s': State, key: (TenantId, string)) {
    exists i :: NewlyWoken(s, s', i) && LoopOf(s'.waits[i]) == key
  }

  ghost predicate WorkWoken(s: State, s': State, key: (TenantId, string)) {
    exists i :: NewlyWoken(s, s', i) && WorkOf(s'.waits[i]) == key
  }

  /** The loops of the waits woken continue, at the revision and step they had; every other
      loop is as it was. */
  ghost predicate LoopsFollow(s: State, s': State) {
    && s'.loops.Keys == s.loops.Keys
    && (forall i :: NewlyWoken(s, s', i) ==> LoopOf(s'.waits[i]) in s.loops)
    && (forall key :: key in s.loops ==>
          s'.loops[key] == if LoopWoken(s, s', key) then Loop(Continue, s.loops[key].revision, s.loops[key].stepCount)
                           else s.loops[key])
  }

  /** A Work that a wake reopened executes, and its log says from which status; nothing else
      of it changes. */
  ghost predicate Reopened(w: Work, w': Work) {
    && w' == w.(status := WorkKernel.Executing, log := w'.log)
    && |w.log| < |w'.log| && w'.log[..|w.log|] == w.log
    && w'.log[|w.log|].fromStatus == Some(w.status)
    && (forall k :: |w.log| <= k < |w'.log| ==> WakeEntry(w'.log[k]))
  }

  ghost predicate WakeEntry(e: WorkKernel.LogEntry) {
    && e.toStatus == WorkKernel.Executing && e.workInputId == None
    && (e.eventType == "objective_event_wake_claimed" || e.eventType == "objective_deadline_wake_claimed")
  }

  ghost predicate WorksFollow(s: State, s': State) {
    && s'.works.Keys == s.works.Keys
    && (forall i :: NewlyWoken(s, s', i) ==> WorkOf(s'.waits[i]) in s.works)
    && (forall key :: key in s.works ==>
          if WorkWoken(s, s', key) then Reopened(s.works[key], s'.works[key]) else s'.works[key] == s.works[key])
  }

  /** A new claim names a wait woken now, its outcome and its loop's revision, and its job
      asks for the loop's next step at that revision. */
  ghost predicate ClaimWritten(s: State, s': State, c: WakeClaim) {
    && NewlyWoken(s, s', c.waitId)
    && var w := s'.waits[c.waitId]; var key := LoopOf(w);
    && key in s.loops
    && c.loopId == w.loopId && c.workId == w.workId && c.revision == s.loops[key].revision
    && w.matchedEvent == Some(c.eventId) && w.status == (if c.cause == ByEvent then Satisfied else TimedOut)
    && |s.jobs| <= c.jobId < |s'.jobs|
    && s'.jobs[c.jobId] == WakeJob(c.waitId, c.eventId, c.cause, w.loopId, s.loops[key].revision, s.loops[key].stepCount + 1)
  }

  ghost predicate ClaimsFollow(s: State, s': State) {
    && |s.claims| <= |s'.claims| && s'.claims[..|s.claims|] == s.claims
    && (forall k :: |s.claims| <= k < |s'.claims| ==> ClaimWritten(s, s', s'.claims[k]))
    && (forall i :: NewlyWoken(s, s', i) ==> ClaimedNow(s, s', i))
  }

  ghost predicate ClaimedNow(s: State, s': State, i: int) {
    exists k :: |s.claims| <= k < |s'.claims| && s'.claims[k].waitId == i
  }

  /** A new wake job belongs to a new claim. */
  ghost predicate JobsFollow(s: State, s': State) {
    && |s.jobs| <= |s'.jobs| && s'.jobs[..|s.jobs|] == s.jobs
    && (forall k :: |s.jobs| <= k < |s'.jobs| && s'.jobs[k].WakeJob? ==> JobClaimed(s, s', k))
  }

  ghost predicate JobClaimed(s: State, s': State, job: int) {
    exists k :: |s.claims| <= k < |s'.claims| && s'.claims[k].jobId == job
  }

  ghost predicate WakesWritten(s: State, s': State) {
    LoopsFollow(s, s') && WorksFollow(s, s') && ClaimsFollow(s, s') && JobsFollow(s, s')
  }

  // ------------------------------------------------------------------------
  // Steps that wake nothing, and steps one after the other
  // ------------------------------------------------------------------------

  /** Rows other than events and plans are as they were, but for new open waits and new
      deadline jobs. */
  ghost predicate WakesNothing(s: State, s': State) {
    && s'.loops == s.loops && s'.works == s.works && s'.claims == s.claims
    && (forall i :: !NewlyWoken(s, s', i))
    && |s.jobs| <= |s'.jobs| && s'.jobs[..|s.jobs|] == s.jobs
    && (forall k :: |s.jobs| <= k < |s'.jobs| ==> s'.jobs[k].DeadlineJob?)
  }

  lemma NothingWritten(s: State, s': State)
    requires WakesNothing(s, s')
    ensures WakesWritten(s, s')
  {
  }

  lemma NewlyWokenOneOrOther(s: State, s1: State, s2: State, i: int)
    requires WaitsAdvance(s, s1) && WaitsAdvance(s1, s2)
    ensures NewlyWoken(s, s2, i) <==> NewlyWoken(s, s1, i) || NewlyWoken(s1, s2, i)
    ensures NewlyWoken(s, s1, i) ==> s2.waits[i] == s1.waits[i]
  {
    if 0 <= i < |s1.waits| {
      assert Advances(s1.waits[i], s2.waits[i]);
    }
    if 0 <= i < |s.waits| {
      assert Advances(s.waits[i], s1.waits[i]);
    }
  }

  lemma LoopsCompose(s: State, s1: State, s2: State)
    requires WaitsAdvance(s, s1) && WaitsAdvance(s1, s2) && LoopsFollow(s, s1) && LoopsFollow(s1, s2)
    ensures LoopsFollow(s, s2)
  {
    forall i | NewlyWoken(s, s2, i) ensures LoopOf(s2.waits[i]) in s.loops {
      NewlyWokenOneOrOther(s, s1, s2, i);
    }
    forall key | key in s.loops ensures LoopWoken(s, s2, key) <==> LoopWoken(s, s1, key) || LoopWoken(s1, s2, key) {
      LoopWokenOneOrOther(s, s1, s2, key);
    }
  }

  lemma LoopWokenOneOrOther(s: State, s1: State, s2: State, key: (TenantId, string))
    requires WaitsAdvance(s, s1) && WaitsAdvance(s1, s2)
    ensures LoopWoken(s, s2, key) <==> LoopWoken(s, s1, key) || LoopWoken(s1, s2, key)
  {
    forall i ensures NewlyWoken(s, s2, i) <==> NewlyWoken(s, s1, i) || NewlyWoken(s1, s2, i)
      ensures NewlyWoken(s, s1, i) ==> s2.waits[i] == s1.waits[i]
    {
      NewlyWokenOneOrOther(s, s1, s2, i);
    }
  }

  lemma WorkWokenOneOrOther(s: State, s1: State, s2: State, key: (TenantId, string))
    requires WaitsAdvance(s, s1) && WaitsAdvance(s1, s2)
    ensures WorkWoken(s, s2, key) <==> WorkWoken(s, s1, key) || WorkWoken(s1, s2, key)
  {
    forall i ensures NewlyWoken(s, s2, i) <==> NewlyWoken(s, s1, i) || NewlyWoken(s1, s2, i)
      ensures NewlyWoken(s, s1, i) ==> s2.waits[i] == s1.waits[i]
    {
      NewlyWokenOneOrOther(s, s1, s2, i);
    }
  }

  lemma ReopenedTwice(w: Work, w1: Work, w2: Work)
    requires Reopened(w, w1) && Reopened(w1, w2)
    ensures Reopened(w, w2)
  {
    forall k | |w.log| <= k < |w2.log| ensures WakeEntry(w2.log[k]) {
      if k < |w1.log| {
        assert w2.log[k] == w2.log[..|w1.log|][k] == w1.log[k];
      }
    }
    assert w2.log[..|w.log|] == w2.log[..|w1.log|][..|w.log|];
    assert w2.log[|w.log|] == w2.log[..|w1.log|][|w.log|];
  }

  lemma WorksCompose(s: State, s1: State, s2: State)
    requires WaitsAdvance(s, s1) && WaitsAdvance(s1, s2) && WorksFollow(s, s1) && WorksFollow(s1, s2)
    ensures WorksFollow(s, s2)
  {
    forall i | NewlyWoken(s, s2, i) ensures WorkOf(s2.waits[i]) in s.works {
      NewlyWokenOneOrOther(s, s1, s2, i);
    }
    forall key | key in s.works
      ensures if WorkWoken(s, s2, key) then Reopened(s.works[key], s2.works[key]) else s2.works[key] == s.works[key]
    {
      WorkWokenOneOrOther(s, s1, s2, key);
      if WorkWoken(s, s1, key) && WorkWoken(s1, s2, key) {
        ReopenedTwice(s.works[key], s1.works[key], s2.works[key]);
      }
    }
  }

  lemma ClaimStaysWritten(s: State, s1: State, s2: State, c: WakeClaim)
    requires WaitsAdvance(s, s1) && WaitsAdvance(s1, s2) && JobsFollow(s1, s2) && ClaimWritten(s, s1, c)
    ensures ClaimWritten(s, s2, c)
  {
    NewlyWokenOneOrOther(s, s1, s2, c.waitId);
    assert s2.jobs[c.jobId] == s2.jobs[..|s1.jobs|][c.jobId];
  }

  lemma LaterClaimIsWritten(s: State, s1: State, s2: State, c: WakeClaim)
    requires WaitsAdvance(s, s1) && WaitsAdvance(s1, s2) && LoopsFollow(s, s1) && |s.jobs| <= |s1.jobs|
    requires ClaimWritten(s1, s2, c)
    ensures ClaimWritten(s, s2, c)
  {
    NewlyWokenOneOrOther(s, s1, s2, c.waitId);
    var key := LoopOf(s2.waits[c.waitId]);
    assert s1.loops[key].revision == s.loops[key].revision && s1.loops[key].stepCount == s.loops[key].stepCount;
  }

  lemma ClaimsCompose(s: State, s1: State, s2: State)
    requires WaitsAdvance(s, s1) && WaitsAdvance(s1, s2)
    requires LoopsFollow(s, s1) && JobsFollow(s, s1) && JobsFollow(s1, s2)
    requires ClaimsFollow(s, s1) && ClaimsFollow(s1, s2)
    ensures ClaimsFollow(s, s2)
  {
    assert s2.claims[..|s.claims|] == s2.claims[..|s1.claims|][..|s.claims|];
    forall k | |s.claims| <= k < |s2.claims| ensures ClaimWritten(s, s2, s2.claims[k]) {
      if k < |s1.claims| {
        assert s2.claims[k] == s2.claims[..|s1.claims|][k] == s1.claims[k];
        ClaimStaysWritten(s, s1, s2, s1.claims[k]);
      } else {
        LaterClaimIsWritten(s, s1, s2, s2.claims[k]);
      }
    }
    forall i | NewlyWoken(s, s2, i) ensures ClaimedNow(s, s2, i) {
      NewlyWokenOneOrOther(s, s1, s2, i);
      if NewlyWoken(s, s1, i) {
        var k :| |s.claims| <= k < |s1.claims| && s1.claims[k].waitId == i;
        assert s2.claims[k] == s2.claims[..|s1.claims|][k];
      } else {
        var k :| |s1.claims| <= k < |s2.claims| && s2.claims[k].waitId == i;
      }
    }
  }

  lemma JobsCompose(s: State, s1: State, s2: State)
    requires ClaimsFollow(s, s1) && ClaimsFollow(s1, s2) && JobsFollow(s, s1) && JobsFollow(s1, s2)
    ensures JobsFollow(s, s2)
  {
    assert s2.jobs[..|s.jobs|] == s2.jobs[..|s1.jobs|][..|s.jobs|];
    forall j | |s.jobs| <= j < |s2.jobs| && s2.jobs[j].WakeJob? ensures JobClaimed(s, s2, j) {
      if j < |s1.jobs| {
        assert s2.jobs[j] == s2.jobs[..|s1.jobs|][j] == s1.jobs[j];
        assert JobClaimed(s, s1, j);
        var k :| |s.claims| <= k < |s1.claims| && s1.claims[k].jobId == j;
        assert s2.claims[k] == s2.claims[..|s1.claims|][k];
      } else {
        assert JobClaimed(s1, s2, j);
        var k :| |s1.claims| <= k < |s2.claims| && s2.claims[k].jobId == j;
      }
    }
  }

  lemma WakesCompose(s: State, s1: State, s2: State)
    requires WaitsAdvance(s, s1) && WaitsAdvance(s1, s2) && WakesWritten(s, s1) && WakesWritten(s1, s2)
    ensures WaitsAdvance(s, s2) && WakesWritten(s, s2)
  {
    LoopsCompose(s, s1, s2);
    WorksCompose(s, s1, s2);
    ClaimsCompose(s, s1, s2);
    JobsCompose(s, s1, s2);
    forall i | 0 <= i < |s.waits| ensures Advances(s.waits[i], s2.waits[i]) {
      assert Advances(s.waits[i], s1.waits[i]) && Advances(s1.waits[i], s2.waits[i]);
    }
  }

  // ------------------------------------------------------------------------
  // The transactions
  // ------------------------------------------------------------------------

  /** The wait's loop has ended or moved past the revision the wait was made for, or its plan
      is not an active plan of its Work. */
  ghost predicate Gone(s: State, w: Wait)
    requires LoopOf(w) in s.loops
  {
    || s.loops[LoopOf(w)].state in {LoopBlocked, LoopCompleted, LoopFailed, LoopCancelled}
    || (w.objectiveRevision != None && w.objectiveRevision != Some(s.loops[LoopOf(w)].revision))
    || (w.planRevisionId != None && !ActivePlan(s, w.tenantId, w.planRevisionId.value, w.workId))
  }

  ghost predicate ActivePlan(s: State, tenantId: TenantId, id: string, workId: string) {
    (tenantId, id) in s.plans && s.plans[(tenantId, id)].workId == workId && s.plans[(tenantId, id)].active
  }

  /** The loop, plan and Work rows decide what a claim does to an open wait: it withdraws the
      wait if the loop has ended, has moved past the revision the wait was made for, or the
      wait's plan is not an active plan of its Work; it wakes it otherwise. */
  lemma ClaimOutcome(s: State, waitId: nat, eventId: nat, cause: Cause)
    requires waitId < |s.waits| && s.waits[waitId].status == Pending && LoopOf(s.waits[waitId]) in s.loops
    requires ClaimWake(s, waitId, eventId, cause).Ok?
    ensures var (s', claim) := ClaimWake(s, waitId, eventId, cause).value;
      var w := s.waits[waitId]; var gone := Gone(s, w);
      && s'.waits == s.waits[waitId := if gone then w.(status := Withdrawn)
           else w.(status := if cause == ByEvent then Satisfied else TimedOut, matchedEvent := Some(eventId))]
      && claim == (if gone then None else Some(|s.claims|))
  {
  }

  /** One claim: a wait it wakes has its loop, Work, claim and job written together. */
  lemma ClaimWrites(s: State, waitId: nat, eventId: nat, cause: Cause)
    requires waitId < |s.waits| && ClaimWake(s, waitId, eventId, cause).Ok?
    ensures WaitsAdvance(s, ClaimWake(s, waitId, eventId, cause).value.0)
    ensures WakesWritten(s, ClaimWake(s, waitId, eventId, cause).value.0)
  {
    var (s', claim) := ClaimWake(s, waitId, eventId, cause).value;
    ClaimWakeFrame(s, waitId, eventId, cause);
    if claim.None? {
      NothingWritten(s, s');
    } else {
      OnlyThisWoken(s, s', waitId);
      OneClaimWritten(s, s', waitId, eventId, cause);
    }
  }

  lemma OnlyThisWoken(s: State, s': State, waitId: nat)
    requires waitId < |s.waits| && s.waits[waitId].status == Pending && |s'.waits| == |s.waits|
    requires s'.waits == s.waits[waitId := s'.waits[waitId]] && IsWoken(s'.waits[waitId])
    ensures forall i :: NewlyWoken(s, s', i) <==> i == waitId
  {
  }

  lemma OneClaimWritten(s: State, s': State, waitId: nat, eventId: nat, cause: Cause)
    requires waitId < |s.waits| && ClaimWake(s, waitId, eventId, cause).Ok?
    requires s' == ClaimWake(s, waitId, eventId, cause).value.0 && ClaimWake(s, waitId, eventId, cause).value.1.Some?
    requires forall i :: NewlyWoken(s, s', i) <==> i == waitId
    ensures WakesWritten(s, s')
  {
    WokenTables(s, s', waitId, eventId, cause);
    OneLoopFollows(s, s', waitId);
    OneWorkFollows(s, s', waitId);
    OneClaimFollows(s, s', waitId, eventId, cause);
  }

  /** What one wake writes: its wait, and behind the others its claim and its job. */
  ghost predicate WritesOne(s: State, s': State, waitId: nat, eventId: nat, cause: Cause)
    requires waitId < |s.waits|
  {
    var w := s.waits[waitId]; var loopKey, workKey := LoopOf(w), WorkOf(w);
    && loopKey in s.loops && workKey in s.works && workKey in s'.works
    && |s'.waits| == |s.waits| && s'.waits[waitId] == w.(status := if cause == ByEvent then Satisfied else TimedOut, matchedEvent := Some(eventId))
    && s'.loops == s.loops[loopKey := s.loops[loopKey].(state := Continue)]
    && s'.works == s.works[workKey := s'.works[workKey]] && Reopened(s.works[workKey], s'.works[workKey])
    && s'.claims == s.claims + [WakeClaim(waitId, eventId, w.loopId, w.workId, cause, s.loops[loopKey].revision, |s.jobs|)]
    && s'.jobs == s.jobs + [WakeJob(waitId, eventId, cause, w.loopId, s.loops[loopKey].revision, s.loops[loopKey].stepCount + 1)]
  }

  lemma WokenTables(s: State, s': State, waitId: nat, eventId: nat, cause: Cause)
    requires waitId < |s.waits| && ClaimWake(s, waitId, eventId, cause).Ok?
    requires s' == ClaimWake(s, waitId, eventId, cause).value.0 && ClaimWake(s, waitId, eventId, cause).value.1.Some?
    ensures WritesOne(s, s', waitId, eventId, cause)
  {
    var key := WorkOf(s.waits[waitId]);
    assert s'.works[key] == WorkKernel.WakeWork(s.works[key], WakeEventType(cause));
    WokenWork(s.works[key], WakeEventType(cause));
  }

  lemma WokenWork(w: WorkKernel.Work, eventType: string)
    requires eventType in {"objective_event_wake_claimed", "objective_deadline_wake_claimed"}
    ensures Reopened(w, WorkKernel.WakeWork(w, eventType))
  {
  }

  ghost predicate OnlyNewlyWoken(s: State, s': State, waitId: nat) {
    forall i :: NewlyWoken(s, s', i) <==> i == waitId
  }

  lemma OneLoopFollows(s: State, s': State, waitId: nat)
    requires waitId < |s.waits| == |s'.waits| && OnlyNewlyWoken(s, s', waitId) && LoopOf(s'.waits[waitId]) == LoopOf(s.waits[waitId])
    requires LoopOf(s.waits[waitId]) in s.loops
    requires var key := LoopOf(s.waits[waitId]); s'.loops == s.loops[key := s.loops[key].(state := Continue)]
    ensures LoopsFollow(s, s')
  {
    assert NewlyWoken(s, s', waitId) && LoopWoken(s, s', LoopOf(s.waits[waitId]));
  }

  lemma OneWorkFollows(s: State, s': State, waitId: nat)
    requires waitId < |s.waits| == |s'.waits| && OnlyNewlyWoken(s, s', waitId) && WorkOf(s'.waits[waitId]) == WorkOf(s.waits[waitId])
    requires var key := WorkOf(s.waits[waitId]);
      key in s.works && key in s'.works && s'.works == s.works[key := s'.works[key]] && Reopened(s.works[key], s'.works[key])
    ensures WorksFollow(s, s')
  {
    assert NewlyWoken(s, s', waitId) && WorkWoken(s, s', WorkOf(s.waits[waitId]));
  }

  lemma OneClaimFollows(s: State, s': State, waitId: nat, eventId: nat, cause: Cause)
    requires waitId < |s.waits| && WritesOne(s, s', waitId, eventId, cause) && OnlyNewlyWoken(s, s', waitId)
    ensures ClaimsFollow(s, s') && JobsFollow(s, s')
  {
    assert NewlyWoken(s, s', waitId);
    assert s'.claims[|s.claims|].waitId == waitId && s'.claims[|s.claims|].jobId == |s.jobs|;
    assert ClaimWritten(s, s', s'.claims[|s.claims|]);
    assert ClaimedNow(s, s', waitId) && JobClaimed(s, s', |s.jobs|);
  }

  lemma {:induction false} ClaimAllWrites(s: State, waitIds: seq<nat>, eventId: nat)
    requires forall k :: 0 <= k < |waitIds| ==> waitIds[k] < |s.waits|
    requires ClaimAll(s, waitIds, eventId).Ok?
    ensures WaitsAdvance(s, ClaimAll(s, waitIds, eventId).value.0)
    ensures WakesWritten(s, ClaimAll(s, waitIds, eventId).value.0)
    decreases |waitIds|
  {
    if waitIds == [] {
      NothingWritten(s, s);
    } else {
      var last := |waitIds| - 1;
      ClaimAllWrites(s, waitIds[..last], eventId);
      ClaimAllFrame(s, waitIds[..last], eventId);
      var s1 := ClaimAll(s, waitIds[..last], eventId).value.0;
      ClaimWrites(s1, waitIds[last], eventId, ByEvent);
      WakesCompose(s, s1, ClaimAll(s, waitIds, eventId).value.0);
    }
  }

  /** The tables that a wake is about. */
  ghost predicate SameWakeTables(s: State, s': State) {
    s'.waits == s.waits && s'.loops == s.loops && s'.works == s.works && s'.claims == s.claims && s'.jobs == s.jobs
  }

  lemma EventsDoNotMatter(s: State, s1: State, s2: State, s3: State)
    requires SameWakeTables(s, s1) && SameWakeTables(s2, s3)
    requires WaitsAdvance(s1, s2) && WakesWritten(s1, s2)
    ensures WaitsAdvance(s, s3) && WakesWritten(s, s3)
  {
    NothingWritten(s, s1);
    WakesCompose(s, s1, s2);
    NothingWritten(s2, s3);
    WakesCompose(s, s2, s3);
  }

  /** One ingest: every wait it wakes has its loop continuing at the revision and step it
      had, its Work executing, and a claim and a job for that loop's next step; no other
      loop, Work, claim or job is touched. */
  lemma IngestWrites(s: State, input: EventInput)
    requires Ingest(s, input).Ok?
    ensures WakesWritten(s, Ingest(s, input).value.0)
  {
    var (s1, id) := StoreEvent(s, input);
    StoreEventTables(s, input);
    var status := IngestIsClaims(s, input, s1, id);
    MatchesWrite(s, s1, id, MatchingWaits(s1.waits, s1.events[id], s1.clock), status, Ingest(s, input).value.0);
  }

  lemma StoreEventTables(s: State, input: EventInput)
    ensures SameWakeTables(s, StoreEvent(s, input).0)
  {
  }

  /** An ingest claims the waits that its event matches, and then marks the event. */
  lemma IngestIsClaims(s: State, input: EventInput, s1: State, id: nat) returns (status: EventStatus)
    requires Ingest(s, input).Ok? && (s1, id) == StoreEvent(s, input)
    ensures var claimed := ClaimAll(s1, MatchingWaits(s1.waits, s1.events[id], s1.clock), id);
      && claimed.Ok? && id < |claimed.value.0.events|
      && Ingest(s, input).value.0 == SetEventStatus(claimed.value.0, id, status)
      && Ingest(s, input).value.1.wakes == claimed.value.1
  {
    IngestSteps(s, input, s1, id, MatchingWaits(s1.waits, s1.events[id], s1.clock));
    status := Ingest(s, input).value.0.events[id].status;
  }

  lemma MatchesWrite(s: State, s1: State, id: nat, waitIds: seq<nat>, status: EventStatus, s': State)
    requires SameWakeTables(s, s1) && id < |s1.events| && waitIds == MatchingWaits(s1.waits, s1.events[id], s1.clock)
    requires ClaimAll(s1, waitIds, id).Ok? && id < |ClaimAll(s1, waitIds, id).value.0.events|
    requires s' == SetEventStatus(ClaimAll(s1, waitIds, id).value.0, id, status)
    ensures WakesWritten(s, s')
  {
    ClaimAllWrites(s1, waitIds, id);
    EventsDoNotMatter(s, s1, ClaimAll(s1, waitIds, id).value.0, s');
  }

  lemma WakeByWrites(s: State, waitId: nat, eventId: nat, cause: Cause)
    requires waitId < |s.waits| && eventId < |s.events| && WakeBy(s, waitId, eventId, cause).Ok?
    ensures WaitsAdvance(s, WakeBy(s, waitId, eventId, cause).value.0)
    ensures WakesWritten(s, WakeBy(s, waitId, eventId, cause).value.0)
  {
    ClaimWrites(s, waitId, eventId, cause);
    EventsDoNotMatter(s, s, ClaimWake(s, waitId, eventId, cause).value.0, WakeBy(s, waitId, eventId, cause).value.0);
  }

  /** The row of a wait: what it was asked to wait for, from now on without a time of its own. */
  predicate WaitsFor(w: Wait, input: WaitInput, now: Time) {
    && w.tenantId == input.tenantId && w.workId == input.workId && w.loopId == input.loopId && w.stepId == input.stepId
    && w.planRevisionId == input.planRevisionId && w.objectiveRevision == input.objectiveRevision
    && w.expectedEventType == input.eventType && w.subjectType == input.subjectType && w.subjectId == input.subjectId
    && w.refs == input.refs && w.deadlineAt == input.deadlineAt && w.createdAt == now
    && (if input.earliestAt.Some? then input.earliestAt == Some(w.earliestAt) else w.earliestAt == now)
  }

  /** The row of the wait: the one of its step, or a new open one behind the others; and at
      most one more deadline job. */
  ghost predicate StoredWait(s: State, input: WaitInput, s2: State, id: nat) {
    var known := exists i :: 0 <= i < |s.waits| && s.waits[i].stepId == input.stepId;
    && s2 == s.(waits := s2.waits, jobs := s2.jobs)
    && id < |s2.waits| == |s.waits| + (if known then 0 else 1) && s2.waits[id].stepId == input.stepId
    && s2.waits[..|s.waits|] == s.waits
    && (known ==> id < |s.waits|)
    && (!known ==> id == |s.waits| && s2.waits[id].status == Pending && WaitsFor(s2.waits[id], input, s.clock))
    && OneDeadlineJob(s.jobs, s2.jobs)
  }

  ghost predicate OneDeadlineJob(jobs: seq<Job>, more: seq<Job>) {
    && |jobs| <= |more| <= |jobs| + 1 && more[..|jobs|] == jobs
    && (|more| > |jobs| ==> more[|jobs|].DeadlineJob?)
  }

  lemma StoredWaitIs(s: State, input: WaitInput, s2: State, id: nat)
    requires id == StoreWait(s, input).1 && s2 == ScheduleDeadline(StoreWait(s, input).0, id)
    ensures StoredWait(s, input, s2, id)
  {
    StoreWaitRow(s, input);
    ScheduledJob(StoreWait(s, input).0, id);
  }

  lemma StoreWaitRow(s: State, input: WaitInput)
    ensures var (s1, id) := StoreWait(s, input); StoredWait(s, input, s1, id)
  {
  }

  lemma ScheduledJob(s: State, id: nat)
    requires id < |s.waits|
    ensures var s2 := ScheduleDeadline(s, id); s2 == s.(jobs := s2.jobs) && OneDeadlineJob(s.jobs, s2.jobs)
  {
  }

  lemma StoredWaitWakesNothing(s: State, input: WaitInput, s2: State, id: nat)
    requires StoredWait(s, input, s2, id)
    ensures WaitsAdvance(s, s2) && WakesNothing(s, s2)
  {
    forall i | 0 <= i < |s.waits| ensures s2.waits[i] == s.waits[i] {
      assert s2.waits[..|s.waits|][i] == s.waits[i];
    }
    forall i ensures !NewlyWoken(s, s2, i) {
      assert 0 <= i < |s.waits| ==> s2.waits[i] == s.waits[i];
    }
  }

  /** One wait creation writes the same for the wait it wakes, if it wakes one. */
  lemma CreateWaitWrites(s: State, input: WaitInput)
    requires CreateWait(s, input).Ok?
    ensures WakesWritten(s, CreateWait(s, input).value.0)
  {
    var id := StoreWait(s, input).1;
    var s2 := ScheduleDeadline(StoreWait(s, input).0, id);
    StoredWaitIs(s, input, s2, id);
    StoredWaitWakesNothing(s, input, s2, id);
    NothingWritten(s, s2);
    var eventId := CreateWaitEnds(s, input, s2, id);
    var s' := CreateWait(s, input).value.0;
    if s' != s2 {
      WakeByWrites(s2, id, eventId, ByEvent);
      WakesCompose(s, s2, s');
    }
  }

  /** And so does one deadline transaction, for an event or for the time-out. */
  lemma DeadlineWrites(s: State, tenantId: TenantId, waitId: nat, at: Time)
    requires ProcessDeadline(s, tenantId, waitId, at).Ok?
    ensures WakesWritten(s, ProcessDeadline(s, tenantId, waitId, at).value.0)
  {
    var s' := ProcessDeadline(s, tenantId, waitId, at).value.0;
    if s' == s {
      NothingWritten(s, s);
    } else {
      var w := s.waits[waitId];
      var winner := FirstMatch(s.events, w, s.clock, w.deadlineAt.value);
      if winner.Some? {
        WakeByWrites(s, waitId, winner.value, ByEvent);
      } else {
        var (s1, id) := StoreDeadlineEvent(s, waitId);
        WakeByWrites(s1, waitId, id, ByDeadline);
        EventsDoNotMatter(s, s1, s', s');
      }
    }
  }

  // ------------------------------------------------------------------------
  // The rows that a transaction stores
  // ------------------------------------------------------------------------

  predicate SameKey(e: Event, tenantId: TenantId, source: string, sourceEventId: string) {
    e.tenantId == tenantId && e.source == source && e.sourceEventId == sourceEventId
  }

  predicate StoredAs(e: Event, input: EventInput, now: Time) {
    && e.eventType == input.eventType && e.receivedAt == now
    && (if input.occurredAt.Some? then input.occurredAt == Some(e.occurredAt) else e.occurredAt == now)
    && e.partyType == input.partyType && e.partyId == input.partyId && e.workId == input.workId && e.refs == input.refs
  }

  /** What an ingest leaves of the events, and answers of its own. */
  ghost predicate StoresEvent(s: State, input: EventInput, s': State, r: IngestResult) {
    && (r.duplicate <==> exists i :: 0 <= i < |s.events| && SameKey(s.events[i], input.tenantId, input.source, input.sourceEventId))
    && r.eventId < |s'.events| && |s'.events| == |s.events| + (if r.duplicate then 0 else 1)
    && SameKey(s'.events[r.eventId], input.tenantId, input.source, input.sourceEventId)
    && (forall i :: 0 <= i < |s.events| && i != r.eventId ==> s'.events[i] == s.events[i])
    && var e := s'.events[r.eventId];
    && e.scannedAt == Some(s.clock)
    && (r.duplicate ==>
          && r.eventId < |s.events|
          && e.(status := s.events[r.eventId].status, scannedAt := s.events[r.eventId].scannedAt) == s.events[r.eventId])
    && (!r.duplicate ==> r.eventId == |s.events| && StoredAs(e, input, s.clock))
    && e.status == (if r.wakes != [] || (r.duplicate && s.events[r.eventId].status == Matched) then Matched else Unmatched)
  }

  /** An ingest stores a row with what it was given, dated now without a time of its own,
      unless tenant, source and source id are known; then that row answers. The row ends
      matched if the ingest woke a wait or it was matched already, and unmatched otherwise;
      no other event is touched. */
  lemma IngestStores(s: State, input: EventInput)
    requires Ingest(s, input).Ok?
    ensures var (s', r) := Ingest(s, input).value; StoresEvent(s, input, s', r)
  {
    var (s1, id) := StoreEvent(s, input);
    StoreEventRow(s, input);
    IngestEnds(s, input, s1, id);
  }

  /** The event's row before its matches are claimed. */
  ghost predicate FoundOrNew(s: State, input: EventInput, s1: State, id: nat) {
    var known := exists i :: 0 <= i < |s.events| && SameKey(s.events[i], input.tenantId, input.source, input.sourceEventId);
    && s1 == s.(events := s1.events) && id < |s1.events| == |s.events| + (if known then 0 else 1)
    && SameKey(s1.events[id], input.tenantId, input.source, input.sourceEventId) && s1.events[id].scannedAt == Some(s.clock)
    && (forall i :: 0 <= i < |s.events| && i != id ==> s1.events[i] == s.events[i])
    && (known ==> id < |s.events| && s1.events[id] == s.events[id].(scannedAt := Some(s.clock)))
    && (!known ==> id == |s.events| && s1.events[id].status == NewEvent && StoredAs(s1.events[id], input, s.clock))
  }

  lemma StoreEventRow(s: State, input: EventInput)
    ensures var (s1, id) := StoreEvent(s, input); FoundOrNew(s, input, s1, id)
  {
  }

  lemma IngestEnds(s: State, input: EventInput, s1: State, id: nat)
    requires Ingest(s, input).Ok? && (s1, id) == StoreEvent(s, input)
    ensures var (s', r) := Ingest(s, input).value;
      && r.eventId == id && (r.duplicate <==> |s1.events| == |s.events|) && id < |s1.events|
      && s'.events == s1.events[id := s1.events[id].(status :=
           if r.wakes != [] || s1.events[id].status == Matched then Matched else Unmatched)]
  {
    ClaimAllFrame(s1, MatchingWaits(s1.waits, s1.events[id], s1.clock), id);
  }

  /** The answer of an ingest lists the waits it woke, each with its claim. */
  ghost predicate AnswersWakes(s: State, s': State, wakes: seq<Woken>) {
    && (forall k :: 0 <= k < |wakes| ==> NamesClaim(s, s', wakes[k]))
    && (forall i :: NewlyWoken(s, s', i) ==> Answered(wakes, i))
  }

  ghost predicate NamesClaim(s: State, s': State, w: Woken) {
    NewlyWoken(s, s', w.waitId) && |s.claims| <= w.claimId < |s'.claims| && s'.claims[w.claimId].waitId == w.waitId
  }

  ghost predicate Answered(wakes: seq<Woken>, i: int) {
    exists k :: 0 <= k < |wakes| && wakes[k].waitId == i
  }

  lemma AnswersCompose(s: State, s1: State, s2: State, wakes: seq<Woken>, more: seq<Woken>)
    requires WaitsAdvance(s, s1) && WaitsAdvance(s1, s2) && ClaimsFollow(s, s1) && ClaimsFollow(s1, s2)
    requires AnswersWakes(s, s1, wakes) && AnswersWakes(s1, s2, more)
    ensures AnswersWakes(s, s2, wakes + more)
  {
    var all := wakes + more;
    forall k | 0 <= k < |all| ensures NamesClaim(s, s2, all[k]) {
      NewlyWokenOneOrOther(s, s1, s2, all[k].waitId);
      if k < |wakes| {
        assert NamesClaim(s, s1, wakes[k]);
        assert s2.claims[wakes[k].claimId] == s2.claims[..|s1.claims|][wakes[k].claimId];
      } else {
        assert NamesClaim(s1, s2, more[k - |wakes|]);
      }
    }
    forall i | NewlyWoken(s, s2, i) ensures Answered(all, i) {
      NewlyWokenOneOrOther(s, s1, s2, i);
      if NewlyWoken(s, s1, i) {
        assert Answered(wakes, i);
        var k :| 0 <= k < |wakes| && wakes[k].waitId == i;
        assert all[k].waitId == i;
      } else {
        assert Answered(more, i);
        var k :| 0 <= k < |more| && more[k].waitId == i;
        assert all[|wakes| + k].waitId == i;
      }
    }
  }

  lemma ClaimAnswers(s: State, waitId: nat, eventId: nat, cause: Cause)
    requires waitId < |s.waits| && ClaimWake(s, waitId, eventId, cause).Ok?
    ensures var (s', claim) := ClaimWake(s, waitId, eventId, cause).value;
      AnswersWakes(s, s', if claim.Some? then [Woken(waitId, claim.value)] else [])
  {
    var (s', claim) := ClaimWake(s, waitId, eventId, cause).value;
    ClaimWakeFrame(s, waitId, eventId, cause);
    if claim.Some? {
      OnlyThisWoken(s, s', waitId);
      var wakes := [Woken(waitId, claim.value)];
      assert NamesClaim(s, s', wakes[0]) && wakes[0].waitId == waitId;
      assert Answered(wakes, waitId);
    }
  }

  lemma {:induction false} ClaimAllAnswers(s: State, waitIds: seq<nat>, eventId: nat)
    requires forall k :: 0 <= k < |waitIds| ==> waitIds[k] < |s.waits|
    requires ClaimAll(s, waitIds, eventId).Ok?
    ensures var (s', wakes) := ClaimAll(s, waitIds, eventId).value; AnswersWakes(s, s', wakes)
    decreases |waitIds|
  {
    if waitIds != [] {
      var last := |waitIds| - 1;
      ClaimAllAnswers(s, waitIds[..last], eventId);
      ClaimAllWrites(s, waitIds[..last], eventId);
      ClaimAllFrame(s, waitIds[..last], eventId);
      var (s1, wakes) := ClaimAll(s, waitIds[..last], eventId).value;
      var (s2, claim) := ClaimWake(s1, waitIds[last], eventId, ByEvent).value;
      ClaimAnswers(s1, waitIds[last], eventId, ByEvent);
      ClaimWrites(s1, waitIds[last], eventId, ByEvent);
      var more := if claim.Some? then [Woken(waitIds[last], claim.value)] else [];
      AnswersCompose(s, s1, s2, wakes, more);
      assert wakes + [] == wakes;
    }
  }

  /** The answer of an ingest names exactly the waits it woke, each with its new claim. */
  lemma IngestAnswers(s: State, input: EventInput)
    requires Ingest(s, input).Ok?
    ensures AnswersWakes(s, Ingest(s, input).value.0, Ingest(s, input).value.1.wakes)
  {
    var (s1, id) := StoreEvent(s, input);
    StoreEventTables(s, input);
    var status := IngestIsClaims(s, input, s1, id);
    MatchesAnswer(s, s1, id, MatchingWaits(s1.waits, s1.events[id], s1.clock), status, Ingest(s, input).value.0,
                  Ingest(s, input).value.1.wakes);
  }

  lemma MatchesAnswer(s: State, s1: State, id: nat, waitIds: seq<nat>, status: EventStatus, s': State, wakes: seq<Woken>)
    requires SameWakeTables(s, s1) && id < |s1.events| && waitIds == MatchingWaits(s1.waits, s1.events[id], s1.clock)
    requires ClaimAll(s1, waitIds, id).Ok? && id < |ClaimAll(s1, waitIds, id).value.0.events|
    requires s' == SetEventStatus(ClaimAll(s1, waitIds, id).value.0, id, status) && wakes == ClaimAll(s1, waitIds, id).value.1
    ensures AnswersWakes(s, s', wakes)
  {
    ClaimAllAnswers(s1, waitIds, id);
    SameAnswers(s, s1, ClaimAll(s1, waitIds, id).value.0, s', wakes);
  }

  lemma SameAnswers(s: State, s1: State, s2: State, s3: State, wakes: seq<Woken>)
    requires SameWakeTables(s, s1) && SameWakeTables(s2, s3) && AnswersWakes(s1, s2, wakes)
    ensures AnswersWakes(s, s3, wakes)
  {
    forall i ensures NewlyWoken(s, s3, i) <==> NewlyWoken(s1, s2, i) {
    }
    forall k | 0 <= k < |wakes| ensures NamesClaim(s, s3, wakes[k]) {
      assert NamesClaim(s1, s2, wakes[k]);
    }
  }

  /** What a wait creation leaves of the waits, and answers of its own. */
  ghost predicate StoresWait(s: State, input: WaitInput, s': State, id: nat, claim: Option<nat>) {
    var known := exists i :: 0 <= i < |s.waits| && s.waits[i].stepId == input.stepId;
    && |s'.waits| == |s.waits| + (if known then 0 else 1) && id < |s'.waits| && s'.waits[id].stepId == input.stepId
    && s'.waits[id].tenantId == input.tenantId
    && (forall i :: 0 <= i < |s.waits| && i != id ==> s'.waits[i] == s.waits[i])
    && (known ==> id < |s.waits| && Advances(s.waits[id], s'.waits[id]))
    && (!known ==> id == |s.waits| && WaitsFor(s'.waits[id], input, s.clock))
    && (claim.Some? <==> NewlyWoken(s, s', id))
  }

  /** A wait creation stores a row with what it was given, unless the objective step has a
      wait already; then that row answers and keeps its contract. It answers with the claim
      if and only if that wait was woken now. No other wait is touched. */
  lemma CreateWaitStores(s: State, input: WaitInput)
    requires CreateWait(s, input).Ok?
    ensures var (s', (id, claim)) := CreateWait(s, input).value; StoresWait(s, input, s', id, claim)
  {
    var id := StoreWait(s, input).1;
    var s2 := ScheduleDeadline(StoreWait(s, input).0, id);
    StoredWaitIs(s, input, s2, id);
    var eventId := CreateWaitEnds(s, input, s2, id);
    if CreateWait(s, input).value == (s2, (id, None)) {
      UnclaimedRow(s, input, s2, id);
    } else {
      ClaimedRow(s, input, s2, id, eventId, WakeBy(s2, id, eventId, ByEvent).value.0, WakeBy(s2, id, eventId, ByEvent).value.1);
    }
  }

  lemma UnclaimedRow(s: State, input: WaitInput, s2: State, id: nat)
    requires StoredWait(s, input, s2, id) && s2.waits[id].tenantId == input.tenantId
    ensures StoresWait(s, input, s2, id, None)
  {
    StoredWaitWakesNothing(s, input, s2, id);
    forall i | 0 <= i < |s.waits| ensures s2.waits[i] == s.waits[i] {
      assert s2.waits[..|s.waits|][i] == s.waits[i];
    }
  }

  lemma ClaimedRow(s: State, input: WaitInput, s2: State, id: nat, eventId: nat, s': State, claim: Option<nat>)
    requires StoredWait(s, input, s2, id) && s2.waits[id].tenantId == input.tenantId && s2.waits[id].status == Pending
    requires eventId < |s2.events| && WakeBy(s2, id, eventId, ByEvent) == Ok((s', claim))
    ensures StoresWait(s, input, s', id, claim)
  {
    WokenRow(s, s2, id, eventId);
    assert id < |s.waits| ==> s2.waits[..|s.waits|][id] == s.waits[id];
  }

  /** What a wait creation answers: the stored row as it is, or what a claim on it made of it. */
  lemma CreateWaitEnds(s: State, input: WaitInput, s2: State, id: nat) returns (eventId: nat)
    requires CreateWait(s, input).Ok?
    requires id == StoreWait(s, input).1 && s2 == ScheduleDeadline(StoreWait(s, input).0, id) && StoredWait(s, input, s2, id)
    ensures s2.waits[id].tenantId == input.tenantId
    ensures CreateWait(s, input).value != (s2, (id, None)) ==>
      && s2.waits[id].status == Pending && eventId < |s2.events| && WakeBy(s2, id, eventId, ByEvent).Ok?
      && var (s', claim) := WakeBy(s2, id, eventId, ByEvent).value; CreateWait(s, input).value == (s', (id, claim))
  {
    var cutoff := if input.deadlineAt.Some? then input.deadlineAt.value else END_OF_TIME;
    var found := FirstMatch(s2.events, s2.waits[id], s2.clock, cutoff);
    eventId := if found.Some? then found.value else 0;
  }

  lemma WokenRow(s: State, s2: State, id: nat, eventId: nat)
    requires id < |s2.waits| && eventId < |s2.events| && |s.waits| <= |s2.waits| && s2.waits[..|s.waits|] == s.waits
    requires s2.waits[id].status == Pending && WakeBy(s2, id, eventId, ByEvent).Ok?
    ensures var (s', claim) := WakeBy(s2, id, eventId, ByEvent).value;
      && |s'.waits| == |s2.waits| && Advances(s2.waits[id], s'.waits[id])
      && (forall i :: 0 <= i < |s.waits| && i != id ==> s'.waits[i] == s.waits[i])
      && (claim.Some? <==> NewlyWoken(s, s', id))
  {
    ClaimWakeFrame(s2, id, eventId, ByEvent);
    forall i | 0 <= i < |s.waits| ensures s2.waits[i] == s.waits[i] {
      assert s2.waits[..|s.waits|][i] == s.waits[i];
    }
  }

  /** A wait creation is refused for a blank type, for references too weak to cross Works
      (but for deadline waits), for a deadline before its earliest time, or because another
      tenant's wait has its step; else only a claim can fail, for a missing loop or Work or
      a job that is there already. */
  lemma CreateWaitRefusals(s: State, input: WaitInput)
    ensures
      var e := CreateWait(s, input);
      var from := if input.earliestAt.Some? then input.earliestAt.value else s.clock;
      && (Blank(input.eventType) <==> e == Err(NoEventType))
      && (!Blank(input.eventType) ==>
            (e == Err(WeakCorrelation) <==>
               input.eventType != "deadline.reached" && !(exists k :: Specific(k) && Named(RefOf(input.refs, k)))))
      && (e == Err(DeadlineBeforeEarliest) ==> input.deadlineAt.Some? && input.deadlineAt.value < from)
      && (input.deadlineAt.Some? && input.deadlineAt.value < from ==> e.Err?)
  {
    StrongNamesSpecific(input.refs);
    CreateWaitErrors(s, input);
  }

  lemma CreateWaitErrors(s: State, input: WaitInput)
    ensures WaitInputError(input, s.clock).Some? ==> CreateWait(s, input) == Err(WaitInputError(input, s.clock).value)
    ensures WaitInputError(input, s.clock).None? && CreateWait(s, input).Err? ==>
      CreateWait(s, input).error in {WaitUnavailable, LoopMissing, WorkMissing, WakeJobExists}
  {
  }

  ghost predicate DatedAtDeadline(e: Event, w: Wait, waitId: nat, now: Time) {
    && e.eventType == "deadline.reached" && w.deadlineAt == Some(e.occurredAt) && e.receivedAt == now
    && e.workId == Some(w.workId) && e.partyType == None && e.partyId == None
    && e.refs.resourceType == Some("work_event_wait") && e.refs.resourceId == Some(Decimal.Print(waitId))
    && (forall k :: RefOf(e.refs, k).Some? <==> k == ResourceType || k == ResourceId)
  }

  /** The wait timed out, with its deadline's event, which is marked matched. */
  ghost predicate TimedOutBy(s: State, s': State, waitId: nat)
    requires waitId < |s.waits| && waitId < |s'.waits|
  {
    var w := s.waits[waitId];
    var id := s'.waits[waitId].matchedEvent;
    && s'.waits[waitId].status == TimedOut && id.Some? && id.value < |s'.events|
    && SameKey(s'.events[id.value], w.tenantId, "deadline", "wait:" + Decimal.Print(waitId) + ":deadline")
    && s'.events[id.value].status == Matched
    && (id.value < |s.events| ==> |s'.events| == |s.events|)
    && (id.value >= |s.events| ==> |s'.events| == |s.events| + 1 && DatedAtDeadline(s'.events[id.value], w, waitId, s.clock))
    && (forall i :: 0 <= i < |s.events| && i != id.value ==> s'.events[i] == s.events[i])
  }

  /** The event that a deadline rests on, found or written. */
  ghost predicate DeadlineRowIs(s: State, waitId: nat, s1: State, id: nat)
    requires waitId < |s.waits|
  {
    var w := s.waits[waitId];
    && s1 == s.(events := s1.events) && id < |s1.events|
    && SameKey(s1.events[id], w.tenantId, "deadline", "wait:" + Decimal.Print(waitId) + ":deadline")
    && (id < |s.events| ==> s1.events == s.events)
    && (id >= |s.events| ==> |s1.events| == |s.events| + 1 && DatedAtDeadline(s1.events[id], w, waitId, s.clock))
    && (forall i :: 0 <= i < |s.events| ==> s1.events[i] == s.events[i])
  }

  /** A deadline transaction that times a wait out rests on the event that says so: written
      once per wait, dated at the deadline, for the wait's tenant and Work. */
  lemma TimeoutEvent(s: State, tenantId: TenantId, waitId: nat, at: Time)
    requires ProcessDeadline(s, tenantId, waitId, at).Ok? && ProcessDeadline(s, tenantId, waitId, at).value.1.OutcomeTimedOut?
    ensures waitId < |s.waits| && waitId < |ProcessDeadline(s, tenantId, waitId, at).value.0.waits|
    ensures TimedOutBy(s, ProcessDeadline(s, tenantId, waitId, at).value.0, waitId)
  {
    var (s1, id) := StoreDeadlineEvent(s, waitId);
    DeadlineRow(s, waitId, s1, id);
    TimedOutRow(s, waitId, s1, id, ProcessDeadline(s, tenantId, waitId, at).value.0);
  }

  lemma DeadlineRow(s: State, waitId: nat, s1: State, id: nat)
    requires waitId < |s.waits| && s.waits[waitId].deadlineAt.Some? && (s1, id) == StoreDeadlineEvent(s, waitId)
    ensures DeadlineRowIs(s, waitId, s1, id)
  {
  }

  lemma TimedOutRow(s: State, waitId: nat, s1: State, id: nat, s': State)
    requires waitId < |s.waits| && DeadlineRowIs(s, waitId, s1, id)
    requires WakeBy(s1, waitId, id, ByDeadline).Ok? && WakeBy(s1, waitId, id, ByDeadline).value.1.Some?
    requires s' == WakeBy(s1, waitId, id, ByDeadline).value.0
    ensures waitId < |s'.waits| && TimedOutBy(s, s', waitId)
  {
    ClaimWakeFrame(s1, waitId, id, ByDeadline);
  }

  /** In every run a satisfied wait has its event: one of its tenant and type, in its time,
      that shares its Work or a specific reference. */
  lemma SatisfiedByItsEvent(now: Time, ops: seq<Op>, i: nat)
    requires i < |Run(now, ops).waits| && Run(now, ops).waits[i].status == Satisfied
    ensures var s := Run(now, ops); var id := s.waits[i].matchedEvent;
      id.Some? && id.value < |s.events| && Concerns(s.events[id.value], s.waits[i])
  {
    var s := Run(now, ops);
    LedgerInEveryRun(now, ops);
    assert Counted(s, i);
    ClaimCountZero(s.claims, i);
    var k :| 0 <= k < |s.claims| && s.claims[k].waitId == i;
    assert ClaimAgrees(s, s.claims[k]);
    MatchesExactly(s.events[s.claims[k].eventId], s.waits[i], s.clock);
  }
}
