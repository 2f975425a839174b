/** When the transactions of the event fabric succeed, and which waits they settle, stated
    on the rows they meet. */
module EventFabricOutcomes {
  import opened Basics
  import WorkKernel
  import opened EventFabric
  import opened EventFabricSafety
  import opened EventFabricAccounting
  import opened EventFabricEffects

  // ------------------------------------------------------------------------
  // One claim
  // ------------------------------------------------------------------------

  /** No wake job names the wait. */
  ghost predicate Unscheduled(jobs: seq<Job>, waitId: nat) {
    forall k :: 0 <= k < |jobs| && jobs[k].WakeJob? ==> jobs[k].waitId != waitId
  }

  /** A claim on an open wait fails only for a missing loop, or, when it would wake the wait, for
      a wake job that is there already or a missing Work. */
  lemma ClaimErrors(s: State, waitId: nat, eventId: nat, cause: Cause)
    requires waitId < |s.waits| && s.waits[waitId].status == Pending
    ensures var r := ClaimWake(s, waitId, eventId, cause); var w := s.waits[waitId];
      && (r == Err(LoopMissing) <==> LoopOf(w) !in s.loops)
      && (r == Err(WakeJobExists) <==> LoopOf(w) in s.loops && !Gone(s, w) && !Unscheduled(s.jobs, waitId))
      && (r == Err(WorkMissing) <==> LoopOf(w) in s.loops && !Gone(s, w) && Unscheduled(s.jobs, waitId) && WorkOf(w) !in s.works)
      && (r.Err? ==> r.error in {LoopMissing, WakeJobExists, WorkMissing})
  {
    assert HasWakeJob(s.jobs, waitId) <==> !Unscheduled(s.jobs, waitId);
  }

  /** A claim that wakes logs one entry in the Work, which says whether an event or the deadline
      woke it. */
  lemma WakeIsLogged(s: State, waitId: nat, eventId: nat, cause: Cause)
    requires waitId < |s.waits| && ClaimWake(s, waitId, eventId, cause).Ok? && ClaimWake(s, waitId, eventId, cause).value.1.Some?
    ensures var s' := ClaimWake(s, waitId, eventId, cause).value.0; var key := WorkOf(s.waits[waitId]);
      && key in s.works && key in s'.works
      && var log, log' := s.works[key].log, s'.works[key].log;
      && |log'| == |log| + 1 && log'[..|log|] == log
      && log'[|log|].eventType == (if cause == ByEvent then "objective_event_wake_claimed" else "objective_deadline_wake_claimed")
      && log'[|log|].fromStatus == Some(s.works[key].status) && log'[|log|].toStatus == WorkKernel.Executing
  {
  }

  // ------------------------------------------------------------------------
  // When an ingest succeeds
  // ------------------------------------------------------------------------

  /** The rows that a claim on this wait needs. */
  ghost predicate Servable(s: State, w: Wait) {
    LoopOf(w) in s.loops && (Gone(s, w) || WorkOf(w) in s.works)
  }

  /** No open wait has a wake job yet; it holds in every run. */
  ghost predicate Unclaimed(s: State) {
    forall i: nat :: i < |s.waits| && s.waits[i].status == Pending ==> Unscheduled(s.jobs, i)
  }

  lemma LedgerIsUnclaimed(s: State)
    requires Ledger(s)
    ensures Unclaimed(s)
  {
    forall i: nat | i < |s.waits| && s.waits[i].status == Pending ensures Unscheduled(s.jobs, i) {
      assert Counted(s, i);
      WakeJobCountZero(s.jobs, i);
    }
  }

  lemma OneClaimServes(s: State, waitId: nat, eventId: nat)
    requires waitId < |s.waits| && s.waits[waitId].status == Pending && Unscheduled(s.jobs, waitId)
    ensures ClaimWake(s, waitId, eventId, ByEvent).Ok? <==> Servable(s, s.waits[waitId])
  {
    ClaimErrors(s, waitId, eventId, ByEvent);
  }

  /** A claim leaves what other claims need. */
  lemma ClaimKeepsServable(s: State, waitId: nat, eventId: nat, other: nat)
    requires waitId < |s.waits| && ClaimWake(s, waitId, eventId, ByEvent).Ok? && other < |s.waits| && other != waitId
    ensures var s' := ClaimWake(s, waitId, eventId, ByEvent).value.0;
      && other < |s'.waits| && s'.waits[other] == s.waits[other]
      && (Unscheduled(s.jobs, other) ==> Unscheduled(s'.jobs, other))
      && (Servable(s', s.waits[other]) <==> Servable(s, s.waits[other]))
  {
    ClaimWakeFrame(s, waitId, eventId, ByEvent);
    SameNeeds(s, ClaimWake(s, waitId, eventId, ByEvent).value.0, s.waits[other]);
  }

  lemma SameNeeds(s: State, s': State, w: Wait)
    requires s'.plans == s.plans && s'.loops.Keys == s.loops.Keys && s'.works.Keys == s.works.Keys
    requires forall key :: key in s.loops ==> SameGeneration(s.loops[key], s'.loops[key])
    ensures Servable(s', w) <==> Servable(s, w)
  {
  }

  predicate Ended(loop: Loop) {
    loop.state in {LoopBlocked, LoopCompleted, LoopFailed, LoopCancelled}
  }

  ghost predicate SameGeneration(loop: Loop, loop': Loop) {
    loop'.revision == loop.revision && (Ended(loop') <==> Ended(loop))
  }

  ghost predicate Keeps(s: State, s': State, other: nat) {
    && other < |s.waits| == |s'.waits| && s'.waits[other] == s.waits[other]
    && (Unscheduled(s.jobs, other) ==> Unscheduled(s'.jobs, other))
    && (Servable(s', s.waits[other]) <==> Servable(s, s.waits[other]))
  }

  lemma {:induction false} ClaimAllKeeps(s: State, waitIds: seq<nat>, eventId: nat, other: nat)
    requires forall k :: 0 <= k < |waitIds| ==> waitIds[k] < |s.waits| && waitIds[k] != other
    requires ClaimAll(s, waitIds, eventId).Ok? && other < |s.waits|
    ensures Keeps(s, ClaimAll(s, waitIds, eventId).value.0, other)
    decreases |waitIds|
  {
    if waitIds != [] {
      var last := |waitIds| - 1;
      ClaimAllKeeps(s, waitIds[..last], eventId, other);
      var s1 := ClaimAll(s, waitIds[..last], eventId).value.0;
      ClaimKeepsServable(s1, waitIds[last], eventId, other);
      ClaimWakeFrame(s1, waitIds[last], eventId, ByEvent);
    }
  }

  /** Every wait that the event matches can be served. */
  ghost predicate AllServable(s: State, waitIds: seq<nat>)
    requires forall k :: 0 <= k < |waitIds| ==> waitIds[k] < |s.waits|
  {
    forall k :: 0 <= k < |waitIds| ==> Servable(s, s.waits[waitIds[k]])
  }

  lemma {:induction false} ClaimAllServes(s: State, waitIds: seq<nat>, eventId: nat)
    requires Rising(waitIds)
    requires forall k :: 0 <= k < |waitIds| ==>
      waitIds[k] < |s.waits| && s.waits[waitIds[k]].status == Pending && Unscheduled(s.jobs, waitIds[k])
    ensures ClaimAll(s, waitIds, eventId).Ok? <==> AllServable(s, waitIds)
    decreases |waitIds|
  {
    if waitIds != [] {
      var last := |waitIds| - 1;
      var init := waitIds[..last];
      ClaimAllServes(s, init, eventId);
      assert AllServable(s, waitIds) <==> AllServable(s, init) && Servable(s, s.waits[waitIds[last]]) by {
        assert forall k :: 0 <= k < last ==> init[k] == waitIds[k];
      }
      if AllServable(s, init) {
        var s1 := ClaimAll(s, init, eventId).value.0;
        ClaimAllKeeps(s, init, eventId, waitIds[last]);
        OneClaimServes(s1, waitIds[last], eventId);
      }
    }
  }

  /** The row that an ingest is about: the one with its key, or else a new one of what is given. */
  ghost predicate Presents(s: State, input: EventInput, e: Event) {
    && (forall i :: 0 <= i < |s.events| && SameKey(s.events[i], input.tenantId, input.source, input.sourceEventId) ==> s.events[i] == e)
    && SameKey(e, input.tenantId, input.source, input.sourceEventId)
    && (e !in s.events ==> StoredAs(e, input, s.clock))
  }

  lemma PresentedRow(s: State, input: EventInput, e: Event, w: Wait)
    requires Presents(s, input, e)
    ensures var (s1, id) := StoreEvent(s, input); Matches(s1.events[id], w, s.clock) <==> e.occurredAt <= s.clock && Concerns(e, w)
  {
    var (s1, id) := StoreEvent(s, input);
    assert e in s.events ==> exists i :: 0 <= i < |s.events| && s.events[i] == e;
    MatchesExactly(e, w, s.clock);
    assert Matches(s1.events[id], w, s.clock) <==> Matches(e, w, s.clock);
  }

  /** After any run an ingest succeeds exactly when the loop of every open wait that its event
      concerns is there, and the Work of every one it wakes. */
  lemma IngestSucceedsExactly(now: Time, ops: seq<Op>, input: EventInput, e: Event)
    requires Presents(Run(now, ops), input, e)
    ensures var s := Run(now, ops);
      Ingest(s, input).Ok? <==> ConcernedAreServable(s, e)
  {
    LedgerInEveryRun(now, ops);
    LedgerIsUnclaimed(Run(now, ops));
    IngestSucceeds(Run(now, ops), input, e);
  }

  lemma IngestSucceeds(s: State, input: EventInput, e: Event)
    requires Unclaimed(s) && Presents(s, input, e)
    ensures Ingest(s, input).Ok? <==> ConcernedAreServable(s, e)
  {
    var (s1, id) := StoreEvent(s, input);
    var ms := MatchingWaits(s1.waits, s1.events[id], s1.clock);
    MatchingWaitsRise(s1.waits, s1.events[id], s1.clock);
    ClaimAllServes(s1, ms, id);
    IngestNeedsClaims(s, input);
    MatchesOfRow(s, input, e);
    MatchesServed(s, s1, e, ms);
  }

  lemma MatchesOfRow(s: State, input: EventInput, e: Event)
    requires Presents(s, input, e)
    ensures var (s1, id) := StoreEvent(s, input);
      && s1 == s.(events := s1.events)
      && forall i :: 0 <= i < |s.waits| ==>
           (i in MatchingWaits(s1.waits, s1.events[id], s1.clock) <==> Concerned(s, e, i))
  {
    var (s1, id) := StoreEvent(s, input);
    forall i | 0 <= i < |s.waits|
      ensures i in MatchingWaits(s1.waits, s1.events[id], s1.clock) <==> Concerned(s, e, i)
    {
      PresentedRow(s, input, e, s.waits[i]);
    }
  }

  /** The wait is open, and the event is past and concerns it. */
  ghost predicate Concerned(s: State, e: Event, i: nat)
    requires i < |s.waits|
  {
    s.waits[i].status == Pending && e.occurredAt <= s.clock && Concerns(e, s.waits[i])
  }

  ghost predicate ConcernedAreServable(s: State, e: Event) {
    forall i :: 0 <= i < |s.waits| && Concerned(s, e, i) ==> Servable(s, s.waits[i])
  }

  lemma MatchesServed(s: State, s1: State, e: Event, ms: seq<nat>)
    requires s1 == s.(events := s1.events)
    requires forall k :: 0 <= k < |ms| ==> ms[k] < |s.waits|
    requires forall i :: 0 <= i < |s.waits| ==> (i in ms <==> Concerned(s, e, i))
    ensures AllServable(s1, ms) <==> ConcernedAreServable(s, e)
  {
    forall i | 0 <= i < |s.waits| ensures Servable(s1, s.waits[i]) <==> Servable(s, s.waits[i]) {
      SameNeeds(s, s1, s.waits[i]);
    }
    if AllServable(s1, ms) {
      forall i | 0 <= i < |s.waits| && Concerned(s, e, i) ensures Servable(s, s.waits[i]) {
        var k :| 0 <= k < |ms| && ms[k] == i;
      }
    }
    if ConcernedAreServable(s, e) {
      forall k | 0 <= k < |ms| ensures Servable(s1, s1.waits[ms[k]]) {
        assert ms[k] in ms;
      }
    }
  }

  lemma IngestNeedsClaims(s: State, input: EventInput)
    ensures var (s1, id) := StoreEvent(s, input);
      Ingest(s, input).Ok? <==> ClaimAll(s1, MatchingWaits(s1.waits, s1.events[id], s1.clock), id).Ok?
  {
    var (s1, id) := StoreEvent(s, input);
    var ms := MatchingWaits(s1.waits, s1.events[id], s1.clock);
    if ClaimAll(s1, ms, id).Ok? {
      ClaimAllFrame(s1, ms, id);
    }
  }

  // ------------------------------------------------------------------------
  // Creating a wait
  // ------------------------------------------------------------------------

  /** The row that a wait creation is about: the one of its step, or else a new one. */
  ghost predicate Awaits(s: State, input: WaitInput, w: Wait) {
    && (forall i :: 0 <= i < |s.waits| && s.waits[i].stepId == input.stepId ==> s.waits[i] == w)
    && w.stepId == input.stepId
    && (w !in s.waits ==> WaitsFor(w, input, s.clock) && w.status == Pending && w.matchedEvent == None)
  }

  /** How late an event may be: not after the deadline asked for. */
  ghost function Cutoff(input: WaitInput): Time {
    if input.deadlineAt.Some? then input.deadlineAt.value else 253_402_300_799_999
  }

  /** The event is past, not ignored and early enough, and concerns the wait. */
  ghost predicate MaySettle(e: Event, now: Time, w: Wait, cutoff: Time) {
    e.status != Ignored && e.occurredAt <= now && e.occurredAt <= cutoff && Concerns(e, w)
  }

  /** An event that may settle the wait is stored. */
  ghost predicate Arrived(s: State, input: WaitInput, w: Wait) {
    exists i :: 0 <= i < |s.events| && MaySettle(s.events[i], s.clock, w, Cutoff(input))
  }

  lemma AwaitedRow(s: State, input: WaitInput, w: Wait)
    requires Awaits(s, input, w)
    ensures var (s1, id) := StoreWait(s, input);
      && s1.waits[id] == w && s1 == s.(waits := s1.waits)
      && (id < |s.waits| ==> s1.waits == s.waits) && (id >= |s.waits| ==> id == |s.waits| && w.status == Pending)
  {
    assert w in s.waits ==> exists i :: 0 <= i < |s.waits| && s.waits[i] == w;
  }

  lemma ArrivedIsCandidate(s: State, input: WaitInput, w: Wait)
    ensures FirstMatch(s.events, w, s.clock, Cutoff(input)).Some? <==> Arrived(s, input, w)
  {
    forall i | 0 <= i < |s.events|
      ensures MaySettle(s.events[i], s.clock, w, Cutoff(input)) <==> Candidate(s.events[i], w, s.clock, Cutoff(input))
    {
      MatchesExactly(s.events[i], w, s.clock);
    }
  }

  /** The state after the wait's row and its deadline job are stored. */
  ghost predicate Prepared(s: State, w: Wait, id: nat, s2: State) {
    && id < |s2.waits| && s2.waits[id] == w && s2 == s.(waits := s2.waits, jobs := s2.jobs)
    && (s2.jobs == s.jobs || (|s2.jobs| == |s.jobs| + 1 && s2.jobs[..|s.jobs|] == s.jobs && s2.jobs[|s.jobs|].DeadlineJob?))
    && id <= |s.waits| && (id < |s.waits| ==> s.waits[id] == w)
  }

  lemma PreparedState(s: State, input: WaitInput, w: Wait)
    requires Awaits(s, input, w)
    ensures var (s1, id) := StoreWait(s, input); Prepared(s, w, id, ScheduleDeadline(s1, id))
  {
    AwaitedRow(s, input, w);
  }

  /** A wait creation that is not refused at the door ends with the prepared state, or with the
      claim on it. */
  lemma CreateWaitIsClaim(s: State, input: WaitInput, w: Wait, id: nat, s2: State)
    requires Awaits(s, input, w) && WaitInputError(input, s.clock).None? && w.tenantId == input.tenantId
    requires id == StoreWait(s, input).1 && s2 == ScheduleDeadline(StoreWait(s, input).0, id) && Prepared(s, w, id, s2)
    ensures var found := FirstMatch(s.events, w, s.clock, Cutoff(input));
      && (w.status != Pending || found.None? ==> CreateWait(s, input) == Ok((s2, (id, None))))
      && (w.status == Pending && found.Some? ==>
            match WakeBy(s2, id, found.value, ByEvent)
            case Err(e) => CreateWait(s, input) == Err(e)
            case Ok((s3, claim)) => CreateWait(s, input) == Ok((s3, (id, claim))))
  {
  }

  lemma CreateWaitDoor(s: State, input: WaitInput, w: Wait)
    requires Awaits(s, input, w)
    ensures CreateWait(s, input).Ok? ==> WaitInputError(input, s.clock).None? && w.tenantId == input.tenantId
  {
    AwaitedRow(s, input, w);
  }

  ghost predicate Proper(input: WaitInput, now: Time) {
    && !Blank(input.eventType)
    && (input.eventType == "deadline.reached" || exists k :: Specific(k) && Named(RefOf(input.refs, k)))
    && (input.deadlineAt != None ==> (if input.earliestAt == None then now else input.earliestAt.value) <= input.deadlineAt.value)
  }

  lemma ProperExactly(input: WaitInput, now: Time)
    ensures WaitInputError(input, now).None? <==> Proper(input, now)
  {
    StrongNamesSpecific(input.refs);
  }

  /** A wait creation settles its wait exactly when that was open and an event has arrived for
      it, within the deadline that was asked for. */
  lemma CreateWaitSettlesExactly(s: State, input: WaitInput, w: Wait)
    requires Awaits(s, input, w) && CreateWait(s, input).Ok?
    ensures var (s', (id, _)) := CreateWait(s, input).value;
      && id < |s'.waits| && (s'.waits[id].status == Pending <==> w.status == Pending && !Arrived(s, input, w))
      && (s'.waits[id].status == TimedOut ==> w.status == TimedOut)
  {
    var id := StoreWait(s, input).1;
    var s2 := ScheduleDeadline(StoreWait(s, input).0, id);
    CreateWaitDoor(s, input, w);
    PreparedState(s, input, w);
    CreateWaitIsClaim(s, input, w, id, s2);
    ArrivedIsCandidate(s, input, w);
    var found := FirstMatch(s.events, w, s.clock, Cutoff(input));
    if w.status == Pending && found.Some? {
      WakeBySettlesRow(s2, id, found.value);
    }
  }

  lemma WakeBySettlesRow(s: State, id: nat, eventId: nat)
    requires id < |s.waits| && s.waits[id].status == Pending && eventId < |s.events| && WakeBy(s, id, eventId, ByEvent).Ok?
    ensures var s' := WakeBy(s, id, eventId, ByEvent).value.0; id < |s'.waits| && s'.waits[id].status in {Satisfied, Withdrawn}
  {
  }

  /** In the order in which events are looked through: by time, then by arrival. */
  ghost predicate NotLater(a: Event, b: Event) {
    a.occurredAt < b.occurredAt || (a.occurredAt == b.occurredAt && a.receivedAt <= b.receivedAt)
  }

  /** Of the events that may settle the wait, the first. */
  ghost predicate Earliest(s: State, w: Wait, cutoff: Time, id: Option<nat>) {
    && id.Some? && id.value < |s.events|
    && MaySettle(s.events[id.value], s.clock, w, cutoff)
    && forall i :: 0 <= i < |s.events| && MaySettle(s.events[i], s.clock, w, cutoff) ==> NotLater(s.events[id.value], s.events[i])
  }

  lemma FirstIsEarliest(s: State, w: Wait, cutoff: Time)
    requires FirstMatch(s.events, w, s.clock, cutoff).Some?
    ensures Earliest(s, w, cutoff, FirstMatch(s.events, w, s.clock, cutoff))
  {
    forall i | 0 <= i < |s.events| ensures MaySettle(s.events[i], s.clock, w, cutoff) <==> Candidate(s.events[i], w, s.clock, cutoff) {
      MatchesExactly(s.events[i], w, s.clock);
    }
  }

  lemma WakeByMatches(s: State, id: nat, eventId: nat)
    requires id < |s.waits| && s.waits[id].status == Pending && eventId < |s.events| && WakeBy(s, id, eventId, ByEvent).Ok?
    ensures var s' := WakeBy(s, id, eventId, ByEvent).value.0;
      id < |s'.waits| && (s'.waits[id].status == Satisfied ==> s'.waits[id].matchedEvent == Some(eventId))
  {
  }

  /** A wait that is satisfied as it is created takes the first event that may settle it. */
  lemma CreateWaitTakesFirst(s: State, input: WaitInput, w: Wait)
    requires Awaits(s, input, w) && w.status == Pending && CreateWait(s, input).Ok?
    ensures var (s', (id, _)) := CreateWait(s, input).value;
      id < |s'.waits| && (s'.waits[id].status == Satisfied ==> Earliest(s, w, Cutoff(input), s'.waits[id].matchedEvent))
  {
    var id := StoreWait(s, input).1;
    var s2 := ScheduleDeadline(StoreWait(s, input).0, id);
    CreateWaitDoor(s, input, w);
    PreparedState(s, input, w);
    CreateWaitIsClaim(s, input, w, id, s2);
    var found := FirstMatch(s.events, w, s.clock, Cutoff(input));
    if found.Some? {
      FirstIsEarliest(s, w, Cutoff(input));
      WakeByMatches(s2, id, found.value);
    }
  }

  ghost predicate NoDeadlineJob(jobs: seq<Job>, id: nat) {
    forall k :: 0 <= k < |jobs| && jobs[k].DeadlineJob? ==> jobs[k].waitId != id
  }

  /** The new deadline jobs are the wait's own, if it needs one. */
  ghost predicate Scheduled(s: State, s': State, w: Wait, id: nat) {
    var needed := w.status == Pending && w.deadlineAt.Some? && NoDeadlineJob(s.jobs, id);
    && |s.jobs| <= |s'.jobs|
    && (needed ==> |s.jobs| < |s'.jobs| && s'.jobs[|s.jobs|] == DeadlineJob(id, w.deadlineAt.value + 2_000))
    && (forall k :: |s.jobs| <= k < |s'.jobs| && s'.jobs[k].DeadlineJob? ==> needed && k == |s.jobs|)
  }

  /** A wait creation writes one deadline job, two seconds behind the wait's deadline, exactly
      when the wait is open, has a deadline, and has no such job yet. */
  lemma CreateWaitSchedules(s: State, input: WaitInput, w: Wait)
    requires Awaits(s, input, w) && CreateWait(s, input).Ok?
    ensures var (s', (id, _)) := CreateWait(s, input).value; Scheduled(s, s', w, id)
  {
    var id := StoreWait(s, input).1;
    var s2 := ScheduleDeadline(StoreWait(s, input).0, id);
    CreateWaitDoor(s, input, w);
    PreparedState(s, input, w);
    CreateWaitIsClaim(s, input, w, id, s2);
    ScheduledOnce(s, input, w, id, s2);
    var found := FirstMatch(s.events, w, s.clock, Cutoff(input));
    if w.status == Pending && found.Some? {
      WakeKeepsSchedule(s, s2, w, id, found.value);
    }
  }

  lemma ScheduledOnce(s: State, input: WaitInput, w: Wait, id: nat, s2: State)
    requires Awaits(s, input, w) && id == StoreWait(s, input).1 && s2 == ScheduleDeadline(StoreWait(s, input).0, id)
    requires Prepared(s, w, id, s2)
    ensures Scheduled(s, s2, w, id)
  {
    assert HasDeadlineJob(s.jobs, id) <==> !NoDeadlineJob(s.jobs, id);
  }

  lemma WakeKeepsSchedule(s: State, s2: State, w: Wait, id: nat, eventId: nat)
    requires Scheduled(s, s2, w, id) && id < |s2.waits| && eventId < |s2.events| && WakeBy(s2, id, eventId, ByEvent).Ok?
    ensures Scheduled(s, WakeBy(s2, id, eventId, ByEvent).value.0, w, id)
  {
  }

  /** After any run a wait is created exactly when it is properly described, its step has no
      other tenant's wait, and, if it is settled at once, its loop is there, and its Work if it
      is woken. */
  lemma CreateWaitSucceedsExactly(now: Time, ops: seq<Op>, input: WaitInput, w: Wait)
    requires Awaits(Run(now, ops), input, w)
    ensures var s := Run(now, ops);
      CreateWait(s, input).Ok? <==>
        && Proper(input, s.clock) && w.tenantId == input.tenantId
        && (w.status == Pending && Arrived(s, input, w) ==> Servable(s, w))
  {
    LedgerInEveryRun(now, ops);
    CreateWaitSucceeds(Run(now, ops), input, w);
  }

  lemma CreateWaitSucceeds(s: State, input: WaitInput, w: Wait)
    requires Ledger(s) && Awaits(s, input, w)
    ensures CreateWait(s, input).Ok? <==>
      && Proper(input, s.clock) && w.tenantId == input.tenantId
      && (w.status == Pending && Arrived(s, input, w) ==> Servable(s, w))
  {
    var id := StoreWait(s, input).1;
    var s2 := ScheduleDeadline(StoreWait(s, input).0, id);
    CreateWaitDoor(s, input, w);
    PreparedState(s, input, w);
    ProperExactly(input, s.clock);
    if WaitInputError(input, s.clock).None? && w.tenantId == input.tenantId {
      CreateWaitIsClaim(s, input, w, id, s2);
      ArrivedIsCandidate(s, input, w);
      var found := FirstMatch(s.events, w, s.clock, Cutoff(input));
      if w.status == Pending && found.Some? {
        NoJobYet(s, s2, id);
        WakeByServes(s2, id, found.value, ByEvent);
        SameNeeds(s, s2, w);
      }
    }
  }

  lemma WakeByServes(s: State, id: nat, eventId: nat, cause: Cause)
    requires id < |s.waits| && s.waits[id].status == Pending && Unscheduled(s.jobs, id) && eventId < |s.events|
    ensures WakeBy(s, id, eventId, cause).Ok? <==> Servable(s, s.waits[id])
  {
    ClaimErrors(s, id, eventId, cause);
  }

  lemma NoJobYet(s: State, s2: State, id: nat)
    requires Ledger(s) && id <= |s.waits| && (id < |s.waits| ==> s.waits[id].status == Pending)
    requires s2.jobs == s.jobs || (|s2.jobs| == |s.jobs| + 1 && s2.jobs[..|s.jobs|] == s.jobs && s2.jobs[|s.jobs|].DeadlineJob?)
    ensures Unscheduled(s2.jobs, id)
  {
    LedgerIsUnclaimed(s);
    forall k | 0 <= k < |s2.jobs| && s2.jobs[k].WakeJob? ensures s2.jobs[k].waitId != id {
      assert k < |s.jobs| && s2.jobs[k] == s.jobs[k];
      assert JobNamesWait(s, s.jobs[k]);
    }
  }

  // ------------------------------------------------------------------------
  // Deadlines
  // ------------------------------------------------------------------------

  /** The open wait of the tenant is due: two seconds behind its deadline. */
  ghost predicate Due(s: State, tenantId: TenantId, waitId: nat, at: Time) {
    && waitId < |s.waits| && s.waits[waitId].tenantId == tenantId && s.waits[waitId].status == Pending
    && s.waits[waitId].deadlineAt.Some? && s.waits[waitId].deadlineAt.value + 2_000 <= at
  }

  /** The answer says how the wait ended, with its new claim. */
  ghost predicate AnswersEnd(s: State, s': State, waitId: nat, answer: Outcome) {
    && waitId < |s'.waits|
    && match s'.waits[waitId].status
       case Satisfied => answer == OutcomeSatisfied(|s.claims|)
       case TimedOut => answer == OutcomeTimedOut(|s.claims|)
       case Withdrawn => answer == Terminal
       case Pending => false
  }

  lemma ClaimEnds(s: State, waitId: nat, eventId: nat, cause: Cause)
    requires waitId < |s.waits| && s.waits[waitId].status == Pending && eventId < |s.events| && WakeBy(s, waitId, eventId, cause).Ok?
    ensures var (s', claim) := WakeBy(s, waitId, eventId, cause).value;
      AnswersEnd(s, s', waitId,
                 if claim.None? then Terminal else if cause == ByEvent then OutcomeSatisfied(claim.value) else OutcomeTimedOut(claim.value))
  {
  }

  /** The claim that a due deadline makes. */
  lemma DeadlineIsClaim(s: State, tenantId: TenantId, waitId: nat, at: Time)
    requires Due(s, tenantId, waitId, at)
    ensures var winner := FirstMatch(s.events, s.waits[waitId], s.clock, s.waits[waitId].deadlineAt.value);
      var (s1, id) := StoreDeadlineEvent(s, waitId);
      var claimed := if winner.Some? then WakeBy(s, waitId, winner.value, ByEvent) else WakeBy(s1, waitId, id, ByDeadline);
      match claimed
      case Err(e) => ProcessDeadline(s, tenantId, waitId, at) == Err(e)
      case Ok((s', claim)) =>
        ProcessDeadline(s, tenantId, waitId, at) ==
          Ok((s', if claim.None? then Terminal else if winner.Some? then OutcomeSatisfied(claim.value) else OutcomeTimedOut(claim.value)))
  {
  }

  /** A deadline transaction changes nothing for a wait that is not due, and answers whether it
      is still open; for one that is due it answers how the wait ended, with its new claim. */
  lemma DeadlineAnswers(s: State, tenantId: TenantId, waitId: nat, at: Time)
    ensures var r := ProcessDeadline(s, tenantId, waitId, at);
      if !Due(s, tenantId, waitId, at) then
        r == Ok((s, if waitId < |s.waits| && s.waits[waitId].tenantId == tenantId && s.waits[waitId].status == Pending then NotDue else Terminal))
      else
        r.Ok? ==> AnswersEnd(s, r.value.0, waitId, r.value.1)
  {
    if Due(s, tenantId, waitId, at) && ProcessDeadline(s, tenantId, waitId, at).Ok? {
      DeadlineIsClaim(s, tenantId, waitId, at);
      var winner := FirstMatch(s.events, s.waits[waitId], s.clock, s.waits[waitId].deadlineAt.value);
      var (s1, id) := StoreDeadlineEvent(s, waitId);
      if winner.Some? {
        ClaimEnds(s, waitId, winner.value, ByEvent);
      } else {
        ClaimEnds(s1, waitId, id, ByDeadline);
      }
    }
  }

  /** A wait that an event satisfies at its deadline takes the first that may settle it. */
  lemma DeadlineTakesFirst(s: State, tenantId: TenantId, waitId: nat, at: Time)
    requires Due(s, tenantId, waitId, at) && ProcessDeadline(s, tenantId, waitId, at).Ok?
    ensures var s' := ProcessDeadline(s, tenantId, waitId, at).value.0; var w := s.waits[waitId];
      waitId < |s'.waits| && (s'.waits[waitId].status == Satisfied ==> Earliest(s, w, w.deadlineAt.value, s'.waits[waitId].matchedEvent))
  {
    DeadlineIsClaim(s, tenantId, waitId, at);
    var w := s.waits[waitId];
    var winner := FirstMatch(s.events, w, s.clock, w.deadlineAt.value);
    if winner.Some? {
      FirstIsEarliest(s, w, w.deadlineAt.value);
      WakeByMatches(s, waitId, winner.value);
    } else {
      var (s1, id) := StoreDeadlineEvent(s, waitId);
      ClaimEnds(s1, waitId, id, ByDeadline);
    }
  }

  /** After any run it succeeds exactly when a due wait's loop is there, and its Work if it is
      woken. */
  lemma DeadlineSucceedsExactly(now: Time, ops: seq<Op>, tenantId: TenantId, waitId: nat, at: Time)
    ensures var s := Run(now, ops);
      ProcessDeadline(s, tenantId, waitId, at).Ok? <==> (Due(s, tenantId, waitId, at) ==> Servable(s, s.waits[waitId]))
  {
    LedgerInEveryRun(now, ops);
    LedgerIsUnclaimed(Run(now, ops));
    DeadlineSucceeds(Run(now, ops), tenantId, waitId, at);
  }

  lemma DeadlineSucceeds(s: State, tenantId: TenantId, waitId: nat, at: Time)
    requires Unclaimed(s)
    ensures ProcessDeadline(s, tenantId, waitId, at).Ok? <==> (Due(s, tenantId, waitId, at) ==> Servable(s, s.waits[waitId]))
  {
    if Due(s, tenantId, waitId, at) {
      DeadlineIsClaim(s, tenantId, waitId, at);
      var winner := FirstMatch(s.events, s.waits[waitId], s.clock, s.waits[waitId].deadlineAt.value);
      if winner.Some? {
        WakeByServes(s, waitId, winner.value, ByEvent);
      } else {
        var (s1, id) := StoreDeadlineEvent(s, waitId);
        WakeByServes(s1, waitId, id, ByDeadline);
        SameNeeds(s, s1, s.waits[waitId]);
      }
    }
  }
}
