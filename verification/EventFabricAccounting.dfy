/** Exactly-once wakes and deadline arbitration of the event fabric, over every run. */
module EventFabricAccounting {
  import opened Basics
  import opened EventFabric
  import opened EventFabricSafety

  // ------------------------------------------------------------------------
  // Counting claims and wake jobs
  // ------------------------------------------------------------------------

  function ClaimCount(claims: seq<WakeClaim>, waitId: nat): nat {
    if claims == [] then 0
    else ClaimCount(claims[..|claims| - 1], waitId) + (if claims[|claims| - 1].waitId == waitId then 1 else 0)
  }

  function WakeJobCount(jobs: seq<Job>, waitId: nat): nat {
    if jobs == [] then 0
    else
      var last := jobs[|jobs| - 1];
      WakeJobCount(jobs[..|jobs| - 1], waitId) + (if last.WakeJob? && last.waitId == waitId then 1 else 0)
  }

  lemma ClaimCountAppend(claims: seq<WakeClaim>, c: WakeClaim, waitId: nat)
    ensures ClaimCount(claims + [c], waitId) == ClaimCount(claims, waitId) + (if c.waitId == waitId then 1 else 0)
  {
    assert (claims + [c])[..|claims|] == claims;
  }

  lemma WakeJobCountAppend(jobs: seq<Job>, j: Job, waitId: nat)
    ensures WakeJobCount(jobs + [j], waitId)
         == WakeJobCount(jobs, waitId) + (if j.WakeJob? && j.waitId == waitId then 1 else 0)
  {
    assert (jobs + [j])[..|jobs|] == jobs;
  }

  lemma {:induction false} ClaimCountZero(claims: seq<WakeClaim>, waitId: nat)
    ensures ClaimCount(claims, waitId) == 0 <==> forall k :: 0 <= k < |claims| ==> claims[k].waitId != waitId
  {
    if claims != [] {
      var last := |claims| - 1;
      ClaimCountZero(claims[..last], waitId);
      assert forall k :: 0 <= k < last ==> claims[..last][k] == claims[k];
    }
  }

  lemma {:induction false} WakeJobCountZero(jobs: seq<Job>, waitId: nat)
    ensures WakeJobCount(jobs, waitId) == 0 <==> !HasWakeJob(jobs, waitId)
  {
    if jobs != [] {
      var last := |jobs| - 1;
      WakeJobCountZero(jobs[..last], waitId);
      assert forall k :: 0 <= k < last ==> jobs[..last][k] == jobs[k];
    }
  }

  // ------------------------------------------------------------------------
  // The ledger invariant
  // ------------------------------------------------------------------------

  /** The evidence a wake of this cause rests on. */
  ghost predicate Justified(s: State, waitId: nat, eventId: nat, cause: Cause)
    requires waitId < |s.waits|
  {
    && eventId < |s.events|
    && (cause == ByEvent ==> Fits(s.events[eventId], s.waits[waitId]))
    && (cause == ByDeadline ==>
          && s.waits[waitId].deadlineAt.Some?
          && s.events[eventId].tenantId == s.waits[waitId].tenantId
          && s.events[eventId].source == "deadline"
          && s.events[eventId].sourceEventId == DeadlineSourceId(waitId))
  }

  /** A claim, its wait, its event and its job tell the same story. */
  ghost predicate ClaimAgrees(s: State, c: WakeClaim) {
    && c.waitId < |s.waits|
    && s.waits[c.waitId].status == (if c.cause == ByEvent then Satisfied else TimedOut)
    && s.waits[c.waitId].matchedEvent == Some(c.eventId)
    && c.workId == s.waits[c.waitId].workId && c.loopId == s.waits[c.waitId].loopId
    && Justified(s, c.waitId, c.eventId, c.cause)
    && c.jobId < |s.jobs|
    && s.jobs[c.jobId].WakeJob?
    && s.jobs[c.jobId].(stepNumber := 0) == WakeJob(c.waitId, c.eventId, c.cause, c.loopId, c.revision, 0)
  }

  ghost predicate Counted(s: State, waitId: nat)
    requires waitId < |s.waits|
  {
    var expected := if IsWoken(s.waits[waitId]) then 1 else 0;
    ClaimCount(s.claims, waitId) == expected && WakeJobCount(s.jobs, waitId) == expected
  }

  ghost predicate JobNamesWait(s: State, j: Job) {
    && j.waitId < |s.waits|
    && (j.DeadlineJob? ==> s.waits[j.waitId].deadlineAt == Some(j.runAt - SETTLEMENT_MS))
  }

  ghost predicate Ledger(s: State) {
    && (forall i: nat :: i < |s.waits| ==> Counted(s, i))
    && (forall k :: 0 <= k < |s.claims| ==> ClaimAgrees(s, s.claims[k]))
    && (forall k :: 0 <= k < |s.jobs| ==> JobNamesWait(s, s.jobs[k]))
    && (forall i: nat :: i < |s.waits| && s.waits[i].status == Pending && s.waits[i].deadlineAt.Some? ==> HasDeadlineJob(s.jobs, i))
  }

  // ------------------------------------------------------------------------
  // Steps keep the ledger
  // ------------------------------------------------------------------------

  lemma ClaimsElsewhere(s: State, waitId: nat)
    requires Ledger(s) && waitId < |s.waits| && !IsWoken(s.waits[waitId])
    ensures forall k :: 0 <= k < |s.claims| ==> s.claims[k].waitId != waitId
    ensures !HasWakeJob(s.jobs, waitId)
  {
    assert Counted(s, waitId);
    ClaimCountZero(s.claims, waitId);
    WakeJobCountZero(s.jobs, waitId);
  }

  lemma DeadlineJobsRemain(jobs: seq<Job>, more: seq<Job>, waitId: nat)
    ensures HasDeadlineJob(jobs, waitId) ==> HasDeadlineJob(jobs + more, waitId)
  {
    if HasDeadlineJob(jobs, waitId) {
      var i :| 0 <= i < |jobs| && jobs[i].DeadlineJob? && jobs[i].waitId == waitId;
      assert (jobs + more)[i] == jobs[i];
    }
  }

  lemma WakeKeepsCounts(s: State, s': State, waitId: nat, c: WakeClaim, j: Job)
    requires Ledger(s) && waitId < |s.waits| && s.waits[waitId].status == Pending
    requires s'.claims == s.claims + [c] && s'.jobs == s.jobs + [j] && c.waitId == waitId && j.WakeJob? && j.waitId == waitId
    requires |s'.waits| == |s.waits| && IsWoken(s'.waits[waitId])
    requires forall i :: 0 <= i < |s.waits| && i != waitId ==> s'.waits[i] == s.waits[i]
    ensures forall i: nat :: i < |s'.waits| ==> Counted(s', i)
  {
    forall i: nat | i < |s'.waits|
      ensures Counted(s', i)
    {
      assert Counted(s, i);
      ClaimCountAppend(s.claims, c, i);
      WakeJobCountAppend(s.jobs, j, i);
    }
  }

  lemma WakeKeepsClaims(s: State, waitId: nat, eventId: nat, cause: Cause, loop: Loop)
    requires Ledger(s) && waitId < |s.waits| && s.waits[waitId].status == Pending
    requires Justified(s, waitId, eventId, cause)
    requires (s.waits[waitId].tenantId, s.waits[waitId].workId) in s.works
    ensures var s' := Wake(s, waitId, eventId, cause, loop); forall k :: 0 <= k < |s'.claims| ==> ClaimAgrees(s', s'.claims[k])
  {
    var s' := Wake(s, waitId, eventId, cause, loop);
    ClaimsElsewhere(s, waitId);
    forall k | 0 <= k < |s'.claims|
      ensures ClaimAgrees(s', s'.claims[k])
    {
      if k < |s.claims| {
        assert ClaimAgrees(s, s.claims[k]);
      }
    }
  }

  lemma WakeKeepsJobs(s: State, waitId: nat, eventId: nat, cause: Cause, loop: Loop)
    requires Ledger(s) && waitId < |s.waits|
    requires (s.waits[waitId].tenantId, s.waits[waitId].workId) in s.works
    ensures var s' := Wake(s, waitId, eventId, cause, loop);
      && (forall k :: 0 <= k < |s'.jobs| ==> JobNamesWait(s', s'.jobs[k]))
      && (forall i: nat :: i < |s'.waits| && s'.waits[i].status == Pending && s'.waits[i].deadlineAt.Some? ==> HasDeadlineJob(s'.jobs, i))
  {
    var s' := Wake(s, waitId, eventId, cause, loop);
    forall k | 0 <= k < |s'.jobs|
      ensures JobNamesWait(s', s'.jobs[k])
    {
      if k < |s.jobs| {
        assert JobNamesWait(s, s.jobs[k]);
      }
    }
    forall i: nat | i < |s'.waits| && s'.waits[i].status == Pending && s'.waits[i].deadlineAt.Some?
      ensures HasDeadlineJob(s'.jobs, i)
    {
      DeadlineJobsRemain(s.jobs, [s'.jobs[|s.jobs|]], i);
    }
  }

  lemma WakeKeepsLedger(s: State, waitId: nat, eventId: nat, cause: Cause, loop: Loop)
    requires Ledger(s) && waitId < |s.waits| && s.waits[waitId].status == Pending
    requires Justified(s, waitId, eventId, cause)
    requires (s.waits[waitId].tenantId, s.waits[waitId].workId) in s.works
    ensures Ledger(Wake(s, waitId, eventId, cause, loop))
  {
    var s' := Wake(s, waitId, eventId, cause, loop);
    WakeKeepsCounts(s, s', waitId, s'.claims[|s.claims|], s'.jobs[|s.jobs|]);
    WakeKeepsClaims(s, waitId, eventId, cause, loop);
    WakeKeepsJobs(s, waitId, eventId, cause, loop);
  }

  lemma WithdrawKeepsLedger(s: State, waitId: nat)
    requires Ledger(s) && waitId < |s.waits| && s.waits[waitId].status == Pending
    ensures Ledger(s.(waits := s.waits[waitId := s.waits[waitId].(status := Withdrawn)]))
  {
    var s' := s.(waits := s.waits[waitId := s.waits[waitId].(status := Withdrawn)]);
    ClaimsElsewhere(s, waitId);
    forall i: nat | i < |s'.waits|
      ensures Counted(s', i)
    {
      assert Counted(s, i);
    }
    forall k | 0 <= k < |s'.claims|
      ensures ClaimAgrees(s', s'.claims[k])
    {
      assert ClaimAgrees(s, s.claims[k]);
    }
    forall k | 0 <= k < |s'.jobs|
      ensures JobNamesWait(s', s'.jobs[k])
    {
      assert JobNamesWait(s, s.jobs[k]);
    }
  }

  /** Claiming keeps the ledger, and the two internal errors of a claim, a job without
      its claim and a moved objective revision, cannot arise. */
  lemma ClaimWakeKeepsLedger(s: State, waitId: nat, eventId: nat, cause: Cause)
    requires Ledger(s) && waitId < |s.waits|
    requires Justified(s, waitId, eventId, cause)
    ensures ClaimWake(s, waitId, eventId, cause).Ok? ==> Ledger(ClaimWake(s, waitId, eventId, cause).value.0)
    ensures ClaimWake(s, waitId, eventId, cause).Err? ==>
      ClaimWake(s, waitId, eventId, cause).error in {LoopMissing, WorkMissing}
  {
    var w := s.waits[waitId];
    if w.status == Pending {
      ClaimsElsewhere(s, waitId);
      WithdrawKeepsLedger(s, waitId);
      if (w.tenantId, w.loopId) in s.loops && (w.tenantId, w.workId) in s.works {
        WakeKeepsLedger(s, waitId, eventId, cause, s.loops[(w.tenantId, w.loopId)]);
      }
    }
  }

  /** Event rows change only in status and scan stamp, so what was justified stays so. */
  ghost predicate SameEvents(s: State, s': State) {
    && |s.events| <= |s'.events|
    && (forall i :: 0 <= i < |s.events| ==>
          s'.events[i] == s.events[i].(status := s'.events[i].status, scannedAt := s'.events[i].scannedAt))
  }

  lemma EventChangesKeepLedger(s: State, s': State)
    requires Ledger(s) && SameEvents(s, s')
    requires s'.waits == s.waits && s'.claims == s.claims && s'.jobs == s.jobs
    ensures Ledger(s')
  {
    forall i: nat | i < |s'.waits|
      ensures Counted(s', i)
    {
      assert Counted(s, i);
    }
    forall k | 0 <= k < |s'.claims|
      ensures ClaimAgrees(s', s'.claims[k])
    {
      assert ClaimAgrees(s, s.claims[k]);
    }
    forall k | 0 <= k < |s'.jobs|
      ensures JobNamesWait(s', s'.jobs[k])
    {
      assert JobNamesWait(s, s.jobs[k]);
    }
  }

  lemma {:induction false} ClaimAllKeepsLedger(s: State, waitIds: seq<nat>, eventId: nat)
    requires Ledger(s)
    requires forall k :: 0 <= k < |waitIds| ==> waitIds[k] < |s.waits| && Justified(s, waitIds[k], eventId, ByEvent)
    ensures ClaimAll(s, waitIds, eventId).Ok? ==> Ledger(ClaimAll(s, waitIds, eventId).value.0)
    ensures ClaimAll(s, waitIds, eventId).Err? ==> ClaimAll(s, waitIds, eventId).error in {LoopMissing, WorkMissing}
    decreases |waitIds|
  {
    if waitIds != [] {
      var last := |waitIds| - 1;
      ClaimAllKeepsLedger(s, waitIds[..last], eventId);
      if ClaimAll(s, waitIds[..last], eventId).Ok? {
        ClaimAllFrame(s, waitIds[..last], eventId);
        var s1 := ClaimAll(s, waitIds[..last], eventId).value.0;
        assert Advances(s.waits[waitIds[last]], s1.waits[waitIds[last]]);
        assert Justified(s, waitIds[last], eventId, ByEvent);
        ClaimWakeKeepsLedger(s1, waitIds[last], eventId, ByEvent);
      }
    }
  }

  lemma IngestKeepsLedger(s: State, input: EventInput)
    requires Ledger(s)
    ensures Ingest(s, input).Ok? ==> Ledger(Ingest(s, input).value.0)
    ensures Ingest(s, input).Err? ==> Ingest(s, input).error in {LoopMissing, WorkMissing}
  {
    var (s1, id) := StoreEvent(s, input);
    var ms := MatchingWaits(s1.waits, s1.events[id], s1.clock);
    StoreEventKeepsLedger(s, input);
    SettleMatchesKeepsLedger(s1, id, ms);
    IngestSteps(s, input, s1, id, ms);
    if Ingest(s, input).Ok? {
      StatusKeepsLedger(ClaimAll(s1, ms, id).value.0, id, Ingest(s, input).value.0.events[id].status);
    }
  }

  lemma StoreEventKeepsLedger(s: State, input: EventInput)
    requires Ledger(s)
    ensures Ledger(StoreEvent(s, input).0)
  {
    EventChangesKeepLedger(s, StoreEvent(s, input).0);
  }

  lemma SettleMatchesKeepsLedger(s: State, id: nat, waitIds: seq<nat>)
    requires Ledger(s) && id < |s.events| && waitIds == MatchingWaits(s.waits, s.events[id], s.clock)
    ensures ClaimAll(s, waitIds, id).Ok? ==> Ledger(ClaimAll(s, waitIds, id).value.0)
    ensures ClaimAll(s, waitIds, id).Err? ==> ClaimAll(s, waitIds, id).error in {LoopMissing, WorkMissing}
  {
    ClaimAllKeepsLedger(s, waitIds, id);
  }

  lemma StatusKeepsLedger(s: State, id: nat, status: EventStatus)
    requires Ledger(s) && id < |s.events|
    ensures Ledger(SetEventStatus(s, id, status))
  {
    EventChangesKeepLedger(s, SetEventStatus(s, id, status));
  }

  lemma WakeByKeepsLedger(s: State, waitId: nat, eventId: nat, cause: Cause)
    requires Ledger(s) && waitId < |s.waits|
    requires Justified(s, waitId, eventId, cause)
    ensures WakeBy(s, waitId, eventId, cause).Ok? ==> Ledger(WakeBy(s, waitId, eventId, cause).value.0)
    ensures WakeBy(s, waitId, eventId, cause).Err? ==> WakeBy(s, waitId, eventId, cause).error in {LoopMissing, WorkMissing}
  {
    ClaimWakeKeepsLedger(s, waitId, eventId, cause);
    if ClaimWake(s, waitId, eventId, cause).Ok? {
      ClaimWakeFrame(s, waitId, eventId, cause);
      var (s', claim) := ClaimWake(s, waitId, eventId, cause).value;
      if claim.Some? {
        EventChangesKeepLedger(s', SetEventStatus(s', eventId, Matched));
      }
    }
  }

  /** The ledger up to the deadline job of one wait that was just stored. */
  ghost predicate LedgerBut(s: State, newest: nat) {
    && (forall i: nat :: i < |s.waits| ==> Counted(s, i))
    && (forall k :: 0 <= k < |s.claims| ==> ClaimAgrees(s, s.claims[k]))
    && (forall k :: 0 <= k < |s.jobs| ==> JobNamesWait(s, s.jobs[k]))
    && (forall i: nat :: i < |s.waits| && i != newest && s.waits[i].status == Pending && s.waits[i].deadlineAt.Some?
          ==> HasDeadlineJob(s.jobs, i))
  }

  /** Nothing names a wait that does not exist yet. */
  lemma UnknownWaitIsUnclaimed(s: State, waitId: nat)
    requires Ledger(s) && waitId >= |s.waits|
    ensures ClaimCount(s.claims, waitId) == 0 && WakeJobCount(s.jobs, waitId) == 0
  {
    forall k | 0 <= k < |s.claims| ensures s.claims[k].waitId != waitId {
      assert ClaimAgrees(s, s.claims[k]);
    }
    ClaimCountZero(s.claims, waitId);
    forall k | 0 <= k < |s.jobs| ensures s.jobs[k].waitId != waitId {
      assert JobNamesWait(s, s.jobs[k]);
    }
    WakeJobCountZero(s.jobs, waitId);
  }

  lemma StoreWaitKeepsLedger(s: State, input: WaitInput)
    requires Ledger(s)
    ensures LedgerBut(StoreWait(s, input).0, StoreWait(s, input).1)
  {
    var (s1, id) := StoreWait(s, input);
    if |s1.waits| > |s.waits| {
      NewWaitKeepsLedger(s, NewWait(input, s.clock));
    }
  }

  lemma NewWaitKeepsLedger(s: State, w: Wait)
    requires Ledger(s) && w.status == Pending
    ensures LedgerBut(s.(waits := s.waits + [w]), |s.waits|)
  {
    var s1 := s.(waits := s.waits + [w]);
    forall i: nat | i < |s1.waits|
      ensures Counted(s1, i)
    {
      if i < |s.waits| {
        assert Counted(s, i);
      } else {
        UnknownWaitIsUnclaimed(s, i);
      }
    }
    forall k | 0 <= k < |s1.claims|
      ensures ClaimAgrees(s1, s1.claims[k])
    {
      ClaimStillAgrees(s, s1, s.claims[k]);
    }
    forall k | 0 <= k < |s1.jobs|
      ensures JobNamesWait(s1, s1.jobs[k])
    {
      assert JobNamesWait(s, s.jobs[k]);
    }
  }

  lemma ClaimStillAgrees(s: State, s1: State, c: WakeClaim)
    requires ClaimAgrees(s, c) && s1 == s.(waits := s1.waits)
    requires |s.waits| <= |s1.waits| && s1.waits[c.waitId] == s.waits[c.waitId]
    ensures ClaimAgrees(s1, c)
  {
  }

  lemma ScheduleKeepsLedger(s: State, id: nat)
    requires LedgerBut(s, id) && id < |s.waits|
    ensures Ledger(ScheduleDeadline(s, id))
  {
    var s' := ScheduleDeadline(s, id);
    if s'.jobs != s.jobs {
      var job := s'.jobs[|s.jobs|];
      forall i: nat | i < |s'.waits|
        ensures Counted(s', i)
      {
        assert Counted(s, i);
        WakeJobCountAppend(s.jobs, job, i);
      }
      forall k | 0 <= k < |s'.claims|
        ensures ClaimAgrees(s', s'.claims[k])
      {
        assert ClaimAgrees(s, s.claims[k]);
      }
      forall k | 0 <= k < |s'.jobs|
        ensures JobNamesWait(s', s'.jobs[k])
      {
        if k < |s.jobs| {
          assert JobNamesWait(s, s.jobs[k]);
        }
      }
      forall i: nat | i < |s'.waits| && s'.waits[i].status == Pending && s'.waits[i].deadlineAt.Some?
        ensures HasDeadlineJob(s'.jobs, i)
      {
        DeadlineJobsRemain(s.jobs, [job], i);
        assert s'.jobs[|s.jobs|] == job;
      }
    }
  }

  lemma CreateWaitKeepsLedger(s: State, input: WaitInput)
    requires Ledger(s)
    ensures CreateWait(s, input).Ok? ==> Ledger(CreateWait(s, input).value.0)
    ensures CreateWait(s, input).Err? ==> CreateWait(s, input).error !in {WakeJobExists, RevisionChanged}
  {
    var (s1, id) := StoreWait(s, input);
    var s2 := ScheduleDeadline(s1, id);
    StoreWaitKeepsLedger(s, input);
    ScheduleKeepsLedger(s1, id);
    var cutoff := if input.deadlineAt.Some? then input.deadlineAt.value else END_OF_TIME;
    CreateWaitOutcome(s, input, s2, id, cutoff);
    if FirstMatch(s2.events, s2.waits[id], s2.clock, cutoff).Some? {
      FoundMatchKeepsLedger(s2, id, cutoff);
    }
  }

  /** A wait creation is refused for its input, or leaves its wait as stored and scheduled, or wakes it by what it found. */
  lemma CreateWaitOutcome(s: State, input: WaitInput, s2: State, id: nat, cutoff: Time)
    requires id == StoreWait(s, input).1 && s2 == ScheduleDeadline(StoreWait(s, input).0, id)
    requires cutoff == if input.deadlineAt.Some? then input.deadlineAt.value else END_OF_TIME
    ensures id < |s2.waits|
    ensures var r := CreateWait(s, input); var found := FirstMatch(s2.events, s2.waits[id], s2.clock, cutoff);
      || (r.Err? && r.error in {NoEventType, WeakCorrelation, DeadlineBeforeEarliest, WaitUnavailable})
      || (r.Ok? && r.value.0 == s2)
      || (found.Some? && var woken := WakeBy(s2, id, found.value, ByEvent);
            if woken.Ok? then r.Ok? && r.value.0 == woken.value.0 else r.Err? && r.error == woken.error)
  {
    InputErrors(input, s.clock);
  }

  lemma FoundMatchKeepsLedger(s: State, id: nat, cutoff: Time)
    requires Ledger(s) && id < |s.waits| && FirstMatch(s.events, s.waits[id], s.clock, cutoff).Some?
    ensures var woken := WakeBy(s, id, FirstMatch(s.events, s.waits[id], s.clock, cutoff).value, ByEvent);
      (woken.Ok? ==> Ledger(woken.value.0)) && (woken.Err? ==> woken.error in {LoopMissing, WorkMissing})
  {
    WakeByKeepsLedger(s, id, FirstMatch(s.events, s.waits[id], s.clock, cutoff).value, ByEvent);
  }

  lemma InputErrors(input: WaitInput, now: Time)
    ensures WaitInputError(input, now).Some? ==>
      WaitInputError(input, now).value in {NoEventType, WeakCorrelation, DeadlineBeforeEarliest}
  {
  }

  lemma DeadlineKeepsLedger(s: State, tenantId: TenantId, waitId: nat, at: Time)
    requires Ledger(s)
    ensures ProcessDeadline(s, tenantId, waitId, at).Ok? ==> Ledger(ProcessDeadline(s, tenantId, waitId, at).value.0)
    ensures ProcessDeadline(s, tenantId, waitId, at).Err? ==>
      ProcessDeadline(s, tenantId, waitId, at).error in {LoopMissing, WorkMissing}
  {
    if waitId < |s.waits| && s.waits[waitId].deadlineAt.Some? {
      var w := s.waits[waitId];
      var winner := FirstMatch(s.events, w, s.clock, w.deadlineAt.value);
      if winner.Some? {
        WakeByKeepsLedger(s, waitId, winner.value, ByEvent);
      } else {
        var (s1, id) := StoreDeadlineEvent(s, waitId);
        StoreDeadlineEventKeepsLedger(s, waitId);
        WakeByKeepsLedger(s1, waitId, id, ByDeadline);
      }
    }
  }

  lemma StoreDeadlineEventKeepsLedger(s: State, waitId: nat)
    requires Ledger(s) && waitId < |s.waits| && s.waits[waitId].deadlineAt.Some?
    ensures Ledger(StoreDeadlineEvent(s, waitId).0)
  {
    EventChangesKeepLedger(s, StoreDeadlineEvent(s, waitId).0);
  }

  lemma ApplyKeepsLedger(s: State, op: Op)
    requires Ledger(s)
    ensures Ledger(Apply(s, op))
  {
    match op
    case IngestOp(input) => IngestKeepsLedger(s, input);
    case CreateWaitOp(input) => CreateWaitKeepsLedger(s, input);
    case DeadlineOp(tenant, id, at) => DeadlineKeepsLedger(s, tenant, id, at);
    case WithdrawOp(id) =>
      if id < |s.waits| && s.waits[id].status == Pending {
        WithdrawKeepsLedger(s, id);
      }
    case IgnoreOp(id) =>
      if id < |s.events| && s.events[id].source != "deadline" {
        StatusKeepsLedger(s, id, Ignored);
      }
    case _ => EventChangesKeepLedger(s, Apply(s, op));
  }

  lemma {:induction false} LedgerInEveryRun(now: Time, ops: seq<Op>)
    ensures Ledger(Run(now, ops))
  {
    if ops != [] {
      LedgerInEveryRun(now, ops[..|ops| - 1]);
      ApplyKeepsLedger(Run(now, ops[..|ops| - 1]), ops[|ops| - 1]);
    }
  }

  /** Exactly-once wake. In every run, a satisfied or timed-out wait has exactly one wake
      claim and one wake job, any other wait has neither, each claim agrees with the
      status, matched event and job of its wait, and every open wait with a deadline
      has its deadline job. */
  lemma ExactlyOneWake(now: Time, ops: seq<Op>, waitId: nat)
    requires waitId < |Run(now, ops).waits|
    ensures var s := Run(now, ops); var w := s.waits[waitId];
      && ClaimCount(s.claims, waitId) == WakeJobCount(s.jobs, waitId) == (if IsWoken(w) then 1 else 0)
      && (forall c :: c in s.claims && c.waitId == waitId ==> ClaimAgrees(s, c))
      && (w.status == Pending && w.deadlineAt.Some? ==> HasDeadlineJob(s.jobs, waitId))
      && (forall j :: j in s.jobs && j.DeadlineJob? && j.waitId == waitId ==> w.deadlineAt == Some(j.runAt - SETTLEMENT_MS))
  {
    LedgerInEveryRun(now, ops);
    LedgerOfOneWait(Run(now, ops), waitId);
  }

  lemma LedgerOfOneWait(s: State, waitId: nat)
    requires Ledger(s) && waitId < |s.waits|
    ensures var w := s.waits[waitId];
      && ClaimCount(s.claims, waitId) == WakeJobCount(s.jobs, waitId) == (if IsWoken(w) then 1 else 0)
      && (forall c :: c in s.claims && c.waitId == waitId ==> ClaimAgrees(s, c))
      && (w.status == Pending && w.deadlineAt.Some? ==> HasDeadlineJob(s.jobs, waitId))
      && (forall j :: j in s.jobs && j.DeadlineJob? && j.waitId == waitId ==> w.deadlineAt == Some(j.runAt - SETTLEMENT_MS))
  {
    assert Counted(s, waitId);
    forall j | j in s.jobs && j.DeadlineJob? && j.waitId == waitId
      ensures s.waits[waitId].deadlineAt == Some(j.runAt - SETTLEMENT_MS)
    {
      assert JobNamesWait(s, j);
    }
  }

  /** In every run, whatever transaction comes next, neither internal claim error arises. */
  lemma InternalErrorsUnreachable(now: Time, ops: seq<Op>, event: EventInput, wait: WaitInput, tenantId: TenantId, waitId: nat, at: Time)
    ensures Ingest(Run(now, ops), event).Err? ==> Ingest(Run(now, ops), event).error in {LoopMissing, WorkMissing}
    ensures CreateWait(Run(now, ops), wait).Err? ==>
      CreateWait(Run(now, ops), wait).error !in {WakeJobExists, RevisionChanged}
    ensures ProcessDeadline(Run(now, ops), tenantId, waitId, at).Err? ==>
      ProcessDeadline(Run(now, ops), tenantId, waitId, at).error in {LoopMissing, WorkMissing}
  {
    LedgerInEveryRun(now, ops);
    IngestKeepsLedger(Run(now, ops), event);
    CreateWaitKeepsLedger(Run(now, ops), wait);
    DeadlineKeepsLedger(Run(now, ops), tenantId, waitId, at);
  }

  // ------------------------------------------------------------------------
  // Terminal waits stay, and time-outs are earned
  // ------------------------------------------------------------------------

  ghost predicate WaitsAdvance(s: State, s': State) {
    && |s.waits| <= |s'.waits|
    && (forall i :: 0 <= i < |s.waits| ==> Advances(s.waits[i], s'.waits[i]))
  }

  ghost predicate NoNewTimeout(s: State, s': State) {
    forall i :: 0 <= i < |s'.waits| && s'.waits[i].status == TimedOut ==> i < |s.waits| && s.waits[i].status == TimedOut
  }

  lemma WakeByFrame(s: State, waitId: nat, eventId: nat, cause: Cause)
    requires waitId < |s.waits| && eventId < |s.events| && WakeBy(s, waitId, eventId, cause).Ok?
    ensures var s' := WakeBy(s, waitId, eventId, cause).value.0;
      && WaitsAdvance(s, s') && |s'.waits| == |s.waits|
      && (forall i :: 0 <= i < |s.waits| && i != waitId ==> s'.waits[i] == s.waits[i])
      && (cause == ByEvent ==> NoNewTimeout(s, s'))
  {
    ClaimWakeFrame(s, waitId, eventId, cause);
  }

  lemma IngestFrame(s: State, input: EventInput)
    requires Ingest(s, input).Ok?
    ensures WaitsAdvance(s, Ingest(s, input).value.0) && NoNewTimeout(s, Ingest(s, input).value.0)
    ensures |Ingest(s, input).value.0.waits| == |s.waits|
  {
    var (s1, id) := StoreEvent(s, input);
    var ms := MatchingWaits(s1.waits, s1.events[id], s1.clock);
    IngestSteps(s, input, s1, id, ms);
    ClaimAllFrame(s1, ms, id);
    ClaimAllNeverTimesOut(s1, ms, id);
  }

  lemma StoreWaitFrame(s: State, input: WaitInput)
    ensures var (s1, id) := StoreWait(s, input); var s2 := ScheduleDeadline(s1, id);
      WaitsAdvance(s, s2) && NoNewTimeout(s, s2) && s2.waits == s1.waits
  {
    var (s1, id) := StoreWait(s, input);
    var s2 := ScheduleDeadline(s1, id);
    assert s2.waits == s1.waits;
    if |s1.waits| > |s.waits| {
      AddedWaitFrame(s, s2, NewWait(input, s.clock));
    }
  }

  lemma AddedWaitFrame(s: State, s': State, w: Wait)
    requires s'.waits == s.waits + [w] && w.status == Pending
    ensures WaitsAdvance(s, s') && NoNewTimeout(s, s')
  {
  }

  lemma FramesCompose(s: State, s1: State, s2: State)
    requires WaitsAdvance(s, s1) && NoNewTimeout(s, s1)
    requires WaitsAdvance(s1, s2) && NoNewTimeout(s1, s2)
    ensures WaitsAdvance(s, s2) && NoNewTimeout(s, s2)
  {
  }

  lemma CreateWaitFrame(s: State, input: WaitInput)
    requires CreateWait(s, input).Ok?
    ensures WaitsAdvance(s, CreateWait(s, input).value.0) && NoNewTimeout(s, CreateWait(s, input).value.0)
  {
    var (s1, id) := StoreWait(s, input);
    var s2 := ScheduleDeadline(s1, id);
    StoreWaitFrame(s, input);
    if s2.waits[id].status == Pending {
      var cutoff := if input.deadlineAt.Some? then input.deadlineAt.value else END_OF_TIME;
      var found := FirstMatch(s2.events, s2.waits[id], s2.clock, cutoff);
      if found.Some? {
        WakeByFrame(s2, id, found.value, ByEvent);
        FramesCompose(s, s2, WakeBy(s2, id, found.value, ByEvent).value.0);
      }
    }
  }

  lemma DeadlineFrame(s: State, tenantId: TenantId, waitId: nat, at: Time)
    requires ProcessDeadline(s, tenantId, waitId, at).Ok?
    ensures var s' := ProcessDeadline(s, tenantId, waitId, at).value.0;
      && WaitsAdvance(s, s') && |s'.waits| == |s.waits|
      && (forall i :: 0 <= i < |s.waits| && i != waitId ==> s'.waits[i] == s.waits[i])
  {
    if waitId < |s.waits| && s.waits[waitId].status == Pending && s.waits[waitId].deadlineAt.Some? {
      var winner := FirstMatch(s.events, s.waits[waitId], s.clock, s.waits[waitId].deadlineAt.value);
      if winner.Some? && WakeBy(s, waitId, winner.value, ByEvent).Ok? {
        WakeByFrame(s, waitId, winner.value, ByEvent);
      } else if winner.None? {
        var (s1, id) := StoreDeadlineEvent(s, waitId);
        if WakeBy(s1, waitId, id, ByDeadline).Ok? {
          WakeByFrame(s1, waitId, id, ByDeadline);
        }
      }
    }
  }

  /** A wait that left `waiting` never changes again, and no step alters its contract. */
  lemma StepAdvancesWaits(s: State, op: Op)
    ensures WaitsAdvance(s, Apply(s, op))
    ensures !op.DeadlineOp? ==> NoNewTimeout(s, Apply(s, op))
    ensures !op.CreateWaitOp? ==> |Apply(s, op).waits| == |s.waits|
  {
    if Apply(s, op).waits == s.waits {
      return;
    }
    match op
    case IngestOp(input) => IngestFrame(s, input);
    case CreateWaitOp(input) => CreateWaitFrame(s, input);
    case DeadlineOp(tenant, id, at) => DeadlineFrame(s, tenant, id, at);
    case WithdrawOp(id) =>
  }

  /** What the only step that may time a wait out looks like: a deadline transaction of
      the wait's own tenant, at or after deadline plus settlement, in a state where no
      stored event is a candidate. */
  ghost predicate EarnedTimeout(s: State, op: Op, waitId: nat)
    requires waitId < |s.waits|
  {
    var w := s.waits[waitId];
    && op.DeadlineOp? && op.waitId == waitId && op.tenantId == w.tenantId
    && w.status == Pending && w.deadlineAt.Some?
    && op.at >= w.deadlineAt.value + SETTLEMENT_MS
    && (forall i :: 0 <= i < |s.events| && s.events[i].status != Ignored ==> !Matches(s.events[i], w, s.clock))
    && (op.at <= s.clock ==> forall i :: 0 <= i < |s.events| && s.events[i].status != Ignored ==> !Fits(s.events[i], w))
  }

  lemma EarnedInPrefix(now: Time, ops: seq<Op>, n: nat, k: nat, waitId: nat)
    requires k < n <= |ops| && waitId < |Run(now, ops[..n][..k]).waits|
    requires EarnedTimeout(Run(now, ops[..n][..k]), ops[..n][k], waitId)
    ensures waitId < |Run(now, ops[..k]).waits| && EarnedTimeout(Run(now, ops[..k]), ops[k], waitId)
  {
    assert ops[..n][..k] == ops[..k] && ops[..n][k] == ops[k];
  }

  lemma TimeoutIsEarned(s: State, op: Op, waitId: nat)
    requires waitId < |Apply(s, op).waits| && Apply(s, op).waits[waitId].status == TimedOut
    requires waitId < |s.waits| ==> s.waits[waitId].status != TimedOut
    ensures waitId < |s.waits| && EarnedTimeout(s, op, waitId)
  {
    StepAdvancesWaits(s, op);
    assert op.DeadlineOp?;
    var r := ProcessDeadline(s, op.tenantId, op.waitId, op.at);
    assert r.Ok?;
    DeadlineFrame(s, op.tenantId, op.waitId, op.at);
    assert waitId == op.waitId;
    var w := s.waits[waitId];
    assert w.status == Pending;
    if FirstMatch(s.events, w, s.clock, w.deadlineAt.value).Some? {
      WakeByFrame(s, waitId, FirstMatch(s.events, w, s.clock, w.deadlineAt.value).value, ByEvent);
      assert false;
    }
    forall i | 0 <= i < |s.events| && s.events[i].status != Ignored
      ensures !Matches(s.events[i], w, s.clock)
    {
      assert !Candidate(s.events[i], w, s.clock, w.deadlineAt.value);
    }
  }

  lemma {:induction false} ClaimAllNeverTimesOut(s: State, waitIds: seq<nat>, eventId: nat)
    requires forall k :: 0 <= k < |waitIds| ==> waitIds[k] < |s.waits|
    requires ClaimAll(s, waitIds, eventId).Ok?
    ensures NoNewTimeout(s, ClaimAll(s, waitIds, eventId).value.0)
    decreases |waitIds|
  {
    if waitIds != [] {
      var last := |waitIds| - 1;
      ClaimAllNeverTimesOut(s, waitIds[..last], eventId);
      ClaimWakeFrame(ClaimAll(s, waitIds[..last], eventId).value.0, waitIds[last], eventId, ByEvent);
    }
  }

  /** Deadline arbitration over every run: behind a timed-out wait lies a deadline
      transaction of that run that had earned the time-out. */
  lemma {:induction false} TimeoutsAreEarned(now: Time, ops: seq<Op>, waitId: nat) returns (k: nat)
    requires waitId < |Run(now, ops).waits| && Run(now, ops).waits[waitId].status == TimedOut
    ensures k < |ops|
    ensures waitId < |Run(now, ops[..k]).waits| && EarnedTimeout(Run(now, ops[..k]), ops[k], waitId)
  {
    assert ops != [];
    var last := |ops| - 1;
    var before := Run(now, ops[..last]);
    if waitId < |before.waits| && before.waits[waitId].status == TimedOut {
      k := TimeoutsAreEarned(now, ops[..last], waitId);
      EarnedInPrefix(now, ops, last, k, waitId);
    } else {
      TimeoutIsEarned(before, ops[last], waitId);
      k := last;
    }
  }

  // ------------------------------------------------------------------------
  // What one transaction decides
  // ------------------------------------------------------------------------

  /** An ingest settles exactly the open waits its event matches now; in particular an
      event dated in the future settles none. */
  lemma IngestSettlesExactlyTheMatches(s: State, input: EventInput, waitId: nat)
    requires Ingest(s, input).Ok? && waitId < |s.waits| && s.waits[waitId].status == Pending
    ensures var (s', r) := Ingest(s, input).value;
      && waitId < |s'.waits| && r.eventId < |s'.events|
      && (s'.waits[waitId].status != Pending <==> Matches(s'.events[r.eventId], s.waits[waitId], s.clock))
      && s'.waits[waitId].status != TimedOut
  {
    IngestFrame(s, input);
    var (s1, id) := StoreEvent(s, input);
    var ms := MatchingWaits(s1.waits, s1.events[id], s1.clock);
    ClaimAllFrame(s1, ms, id);
    assert waitId in ms <==> Matches(s1.events[id], s.waits[waitId], s.clock);
  }

  /** The wait is settled: by a stored match, by time-out only without one, or withdrawn
      exactly when its generation is stale; no other wait is touched. */
  ghost predicate SettledByDeadline(s: State, s': State, waitId: nat)
    requires waitId < |s.waits|
  {
    var w := s.waits[waitId];
    && |s.waits| == |s'.waits| && s'.waits[waitId].status != Pending
    && (s'.waits[waitId].status == Satisfied ==> exists i :: 0 <= i < |s.events| && Matches(s.events[i], w, s.clock))
    && (s'.waits[waitId].status == TimedOut ==>
          !exists i :: 0 <= i < |s.events| && s.events[i].status != Ignored && Matches(s.events[i], w, s.clock))
    && (w.tenantId, w.loopId) in s.loops
    && (s'.waits[waitId].status == Withdrawn <==>
          LoopEnded(s.loops[(w.tenantId, w.loopId)]) || StaleGeneration(s, w, s.loops[(w.tenantId, w.loopId)]))
    && (forall other :: 0 <= other < |s.waits| && other != waitId ==> s'.waits[other] == s.waits[other])
  }

  /** A deadline transaction that is due settles its wait, and an event from before the
      deadline beats the time-out. */
  lemma DueDeadlineSettles(s: State, waitId: nat, at: Time)
    requires waitId < |s.waits| && s.waits[waitId].status == Pending && s.waits[waitId].deadlineAt.Some?
    requires at >= s.waits[waitId].deadlineAt.value + SETTLEMENT_MS
    requires ProcessDeadline(s, s.waits[waitId].tenantId, waitId, at).Ok?
    ensures SettledByDeadline(s, ProcessDeadline(s, s.waits[waitId].tenantId, waitId, at).value.0, waitId)
  {
    var w := s.waits[waitId];
    var winner := FirstMatch(s.events, w, s.clock, w.deadlineAt.value);
    if winner.Some? {
      WinnerSettles(s, waitId, winner.value);
    } else {
      TimeOutSettles(s, waitId);
    }
  }

  /** What a claim makes of an open wait: it is withdrawn exactly when its loop has ended or
      its generation is stale, and woken otherwise. */
  ghost predicate ClaimSettles(s: State, s': State, waitId: nat, cause: Cause)
    requires waitId < |s.waits|
  {
    var w := s.waits[waitId];
    && |s'.waits| == |s.waits| && (w.tenantId, w.loopId) in s.loops
    && s'.waits == s.waits[waitId := s'.waits[waitId]]
    && s'.waits[waitId].status ==
      (if LoopEnded(s.loops[(w.tenantId, w.loopId)]) || StaleGeneration(s, w, s.loops[(w.tenantId, w.loopId)]) then Withdrawn
       else if cause == ByEvent then Satisfied else TimedOut)
  }

  lemma WakeBySettles(s: State, waitId: nat, eventId: nat, cause: Cause)
    requires waitId < |s.waits| && eventId < |s.events| && s.waits[waitId].status == Pending
    requires WakeBy(s, waitId, eventId, cause).Ok?
    ensures ClaimSettles(s, WakeBy(s, waitId, eventId, cause).value.0, waitId, cause)
  {
  }

  lemma WinnerSettles(s: State, waitId: nat, winner: nat)
    requires waitId < |s.waits| && winner < |s.events| && s.waits[waitId].status == Pending
    requires Matches(s.events[winner], s.waits[waitId], s.clock) && WakeBy(s, waitId, winner, ByEvent).Ok?
    ensures SettledByDeadline(s, WakeBy(s, waitId, winner, ByEvent).value.0, waitId)
  {
    WakeBySettles(s, waitId, winner, ByEvent);
  }

  lemma TimeOutSettles(s: State, waitId: nat)
    requires waitId < |s.waits| && s.waits[waitId].status == Pending && s.waits[waitId].deadlineAt.Some?
    requires FirstMatch(s.events, s.waits[waitId], s.clock, s.waits[waitId].deadlineAt.value).None?
    requires var (s1, id) := StoreDeadlineEvent(s, waitId); WakeBy(s1, waitId, id, ByDeadline).Ok?
    ensures var (s1, id) := StoreDeadlineEvent(s, waitId);
      SettledByDeadline(s, WakeBy(s1, waitId, id, ByDeadline).value.0, waitId)
  {
    var (s1, id) := StoreDeadlineEvent(s, waitId);
    WakeBySettles(s1, waitId, id, ByDeadline);
    NoCandidateNoMatch(s, waitId);
    assert StaleGeneration(s1, s.waits[waitId], s.loops[(s.waits[waitId].tenantId, s.waits[waitId].loopId)])
      == StaleGeneration(s, s.waits[waitId], s.loops[(s.waits[waitId].tenantId, s.waits[waitId].loopId)]);
  }

  lemma NoCandidateNoMatch(s: State, waitId: nat)
    requires waitId < |s.waits| && s.waits[waitId].deadlineAt.Some?
    requires FirstMatch(s.events, s.waits[waitId], s.clock, s.waits[waitId].deadlineAt.value).None?
    ensures !exists i :: 0 <= i < |s.events| && s.events[i].status != Ignored && Matches(s.events[i], s.waits[waitId], s.clock)
  {
    forall i | 0 <= i < |s.events| && s.events[i].status != Ignored
      ensures !Matches(s.events[i], s.waits[waitId], s.clock)
    {
      assert !Candidate(s.events[i], s.waits[waitId], s.clock, s.waits[waitId].deadlineAt.value);
    }
  }

  // ------------------------------------------------------------------------
  // The exceptions are real
  // ------------------------------------------------------------------------

  /** An ingest passes over an open wait that its event fits exactly when the event is
      dated in the future, and nothing looks again when that time comes. */
  lemma IngestMissesExactlyTheFuture(s: State, input: EventInput, waitId: nat, to: Time)
    requires Ingest(s, input).Ok? && waitId < |s.waits| && s.waits[waitId].status == Pending
    requires var (s1, id) := StoreEvent(s, input);
      Fits(s1.events[id], s.waits[waitId]) && s1.events[id].occurredAt <= to
    requires s.clock <= to <= END_OF_TIME
    ensures
      var e := StoreEvent(s, input).0.events[StoreEvent(s, input).1];
      var later := Apply(Apply(s, IngestOp(input)), TickOp(to));
      && waitId < |later.waits|
      && (later.waits[waitId].status == Pending <==> e.occurredAt > s.clock)
      && (later.waits[waitId].status == Pending ==>
            exists i :: 0 <= i < |later.events| && later.events[i].status != Ignored && Matches(later.events[i], later.waits[waitId], to))
  {
    IngestKeepsEvent(s, input, waitId);
    var s' := Ingest(s, input).value.0;
    assert Apply(Apply(s, IngestOp(input)), TickOp(to)) == s'.(clock := to);
    if s'.waits[waitId].status == Pending {
      SeenLater(StoreEvent(s, input).0.events[StoreEvent(s, input).1], s'.events[StoreEvent(s, input).1], s'.waits[waitId], to);
    }
  }

  /** An ingest stores its event, not ignored, and leaves an open wait open exactly when the
      event does not match it now. */
  lemma IngestKeepsEvent(s: State, input: EventInput, waitId: nat)
    requires Ingest(s, input).Ok? && waitId < |s.waits| && s.waits[waitId].status == Pending
    ensures var (s1, id) := StoreEvent(s, input); var s' := Ingest(s, input).value.0;
      && id < |s'.events| && waitId < |s'.waits| && s'.clock == s.clock
      && s'.events[id] == s1.events[id].(status := s'.events[id].status) && s'.events[id].status != Ignored
      && (s'.waits[waitId].status == Pending <==> !Matches(s1.events[id], s.waits[waitId], s.clock))
      && (s'.waits[waitId].status == Pending ==> s'.waits[waitId] == s.waits[waitId])
  {
    var (s1, id) := StoreEvent(s, input);
    var ms := MatchingWaits(s1.waits, s1.events[id], s1.clock);
    IngestSteps(s, input, s1, id, ms);
    SettleExactlyTheMatches(s1, id, ms, waitId);
  }

  lemma SettleExactlyTheMatches(s: State, id: nat, waitIds: seq<nat>, waitId: nat)
    requires id < |s.events| && waitIds == MatchingWaits(s.waits, s.events[id], s.clock)
    requires ClaimAll(s, waitIds, id).Ok? && waitId < |s.waits| && s.waits[waitId].status == Pending
    ensures var s' := ClaimAll(s, waitIds, id).value.0;
      && s'.events == s.events && s'.clock == s.clock && waitId < |s'.waits|
      && (s'.waits[waitId].status == Pending <==> !Matches(s.events[id], s.waits[waitId], s.clock))
      && (s'.waits[waitId].status == Pending ==> s'.waits[waitId] == s.waits[waitId])
  {
    ClaimAllFrame(s, waitIds, id);
    assert waitId in waitIds <==> Matches(s.events[id], s.waits[waitId], s.clock);
  }

  lemma SeenLater(e: Event, e': Event, w: Wait, to: Time)
    requires e' == e.(status := e'.status) && Fits(e, w) && e.occurredAt <= to
    ensures Matches(e', w, to)
  {
  }

  /** The event that a time-out writes wakes nobody else: another open wait that it
      matches stays open. */
  lemma DeadlineEventWakesNobodyElse(s: State, waitId: nat, at: Time, other: nat)
    requires waitId < |s.waits| && s.waits[waitId].deadlineAt.Some? && other < |s.waits| && other != waitId
    requires ProcessDeadline(s, s.waits[waitId].tenantId, waitId, at).Ok?
    requires ProcessDeadline(s, s.waits[waitId].tenantId, waitId, at).value.1.OutcomeTimedOut?
    requires FindEvent(s.events, s.waits[waitId].tenantId, "deadline", DeadlineSourceId(waitId)).None?
    requires s.waits[other].status == Pending && Matches(DeadlineEvent(s.waits[waitId], waitId, s.clock), s.waits[other], s.clock)
    ensures var s' := ProcessDeadline(s, s.waits[waitId].tenantId, waitId, at).value.0;
      && |s'.waits| == |s.waits| && s'.waits[other].status == Pending
      && (exists i :: 0 <= i < |s'.events| && s'.events[i].status == Matched && Matches(s'.events[i], s'.waits[other], s'.clock))
  {
    var (s1, id) := StoreDeadlineEvent(s, waitId);
    ClaimWakeFrame(s1, waitId, id, ByDeadline);
    var s' := ProcessDeadline(s, s.waits[waitId].tenantId, waitId, at).value.0;
    assert s'.waits[other] == s.waits[other];
    assert Matches(s'.events[id], s'.waits[other], s'.clock);
  }

  /** A run that leaves a wait open although a stored event matches it: the event was
      dated in the future when it was ingested. */
  lemma FutureDatedEventIsMissed()
    ensures exists ops: seq<Op>, eventId: nat, waitId: nat ::
      var s := Run(0, ops);
      && eventId < |s.events| && waitId < |s.waits|
      && s.waits[waitId].status == Pending && s.events[eventId].status != Ignored
      && s.waits[waitId].expectedEventType != DEADLINE_REACHED
      && Matches(s.events[eventId], s.waits[waitId], s.clock)
  {
    var refs := NoRefs().(correlationId := Some("thread-1"));
    var wait := WaitInput("t", "w", "l", "step", None, None, "reply.received", None, None, refs, Some(0), None);
    var event := EventInput("t", "mail", "m-1", "reply.received", Some(5), None, None, None, refs);
    assert "reply.received"[0] == 'r' && !Blank("reply.received");
    var e := StoreEvent(Start(0).(waits := [NewWait(wait, 0)]), event).0.events[0];
    FirstEventIsStored(Start(0).(waits := [NewWait(wait, 0)]), event);
    assert Fits(e, NewWait(wait, 0));
    FirstWaitMissesEvent(wait, event, 10);
    var later := Run(0, [CreateWaitOp(wait), IngestOp(event), TickOp(10)]);
    assert later.clock == 10 && later.waits[0].status == Pending;
  }

  /** A wait that is stored first, an event dated later that fits it, and the time until then. */
  lemma FirstWaitMissesEvent(wait: WaitInput, event: EventInput, to: Time)
    requires WaitInputError(wait, 0).None? && wait.deadlineAt.None? && wait.eventType != DEADLINE_REACHED
    requires var (s1, id) := StoreEvent(Start(0).(waits := [NewWait(wait, 0)]), event);
      Fits(s1.events[id], NewWait(wait, 0)) && 0 < s1.events[id].occurredAt <= to <= END_OF_TIME
    ensures var later := Run(0, [CreateWaitOp(wait), IngestOp(event), TickOp(to)]);
      && later.clock == to && |later.waits| > 0
      && later.waits[0].status == Pending && later.waits[0].expectedEventType != DEADLINE_REACHED
      && exists i :: 0 <= i < |later.events| && later.events[i].status != Ignored && Matches(later.events[i], later.waits[0], to)
  {
    FirstWaitIsStored(0, wait);
    OneWaitMissesEvent(Start(0).(waits := [NewWait(wait, 0)]), event, to);
    RunOfThree(0, CreateWaitOp(wait), IngestOp(event), TickOp(to));
  }

  lemma OneWaitMissesEvent(s: State, event: EventInput, to: Time)
    requires |s.waits| == 1 && s.waits[0].status == Pending
    requires var (s1, id) := StoreEvent(s, event);
      Fits(s1.events[id], s.waits[0]) && s.clock < s1.events[id].occurredAt <= to <= END_OF_TIME
    ensures var later := Apply(Apply(s, IngestOp(event)), TickOp(to));
      && later.clock == to && |later.waits| > 0 && later.waits[0] == s.waits[0]
      && exists i :: 0 <= i < |later.events| && later.events[i].status != Ignored && Matches(later.events[i], later.waits[0], to)
  {
    FutureEventIsIngested(s, event);
    IngestMissesExactlyTheFuture(s, event, 0, to);
    IngestKeepsEvent(s, event, 0);
  }

  lemma RunOfThree(now: Time, a: Op, b: Op, c: Op)
    ensures Run(now, [a, b, c]) == Apply(Apply(Apply(Start(now), a), b), c)
  {
    RunSnoc(now, [], a, [a]);
    RunSnoc(now, [a], b, [a, b]);
    RunSnoc(now, [a, b], c, [a, b, c]);
  }

  lemma RunSnoc(now: Time, ops: seq<Op>, op: Op, all: seq<Op>)
    requires all == ops + [op]
    ensures Run(now, all) == Apply(Run(now, ops), op)
  {
    assert all[..|ops|] == ops;
  }

  lemma FirstWaitIsStored(now: Time, wait: WaitInput)
    requires WaitInputError(wait, now).None? && wait.deadlineAt.None?
    ensures Apply(Start(now), CreateWaitOp(wait)) == Start(now).(waits := [NewWait(wait, now)])
  {
    assert [] + [NewWait(wait, now)] == [NewWait(wait, now)];
    assert StoreWait(Start(now), wait) == (Start(now).(waits := [NewWait(wait, now)]), 0);
  }

  lemma FirstEventIsStored(s: State, input: EventInput)
    requires s.events == []
    ensures StoreEvent(s, input).1 == 0
    ensures var e := StoreEvent(s, input).0.events[0];
      && e.tenantId == input.tenantId && e.eventType == input.eventType
      && e.occurredAt == (if input.occurredAt.Some? then input.occurredAt.value else s.clock)
      && e.partyType == input.partyType && e.partyId == input.partyId && e.workId == input.workId && e.refs == input.refs
  {
  }

  lemma {:induction false} FutureMatchesNothing(waits: seq<Wait>, e: Event, now: Time)
    requires e.occurredAt > now
    ensures MatchingWaits(waits, e, now) == []
  {
    if waits != [] {
      FutureMatchesNothing(waits[..|waits| - 1], e, now);
    }
  }

  lemma FutureEventIsIngested(s: State, input: EventInput)
    requires StoreEvent(s, input).0.events[StoreEvent(s, input).1].occurredAt > s.clock
    ensures Ingest(s, input).Ok?
  {
    var (s1, id) := StoreEvent(s, input);
    FutureMatchesNothing(s1.waits, s1.events[id], s1.clock);
  }
}
