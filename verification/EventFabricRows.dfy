/** The event fabric's transactions as they run, updating the tables in place. Each is
    proved to do what EventFabric specifies; an error rolls every table back. */
module EventFabricRows {
  import opened Basics
  import WorkKernel
  import opened EventFabric

  class Tables {
    var clock: Time
    var events: seq<Event>
    var waits: seq<Wait>
    var jobs: seq<Job>
    var claims: seq<WakeClaim>
    var loops: map<(TenantId, string), Loop>
    var plans: map<(TenantId, string), Plan>
    var works: map<(TenantId, string), Work>

    function View(): State
      reads this
    {
      State(clock, events, waits, jobs, claims, loops, plans, works)
    }

    constructor (now: Time)
      ensures View() == Start(now)
    {
      clock, events, waits, jobs, claims, loops, plans, works := now, [], [], [], [], map[], map[], map[];
    }

    method Rollback(s: State)
      modifies this
      ensures View() == s
    {
      clock, events, waits, jobs := s.clock, s.events, s.waits, s.jobs;
      claims, loops, plans, works := s.claims, s.loops, s.plans, s.works;
    }

    method EventRow(tenantId: TenantId, source: string, sourceEventId: string) returns (id: Option<nat>)
      ensures id == FindEvent(events, tenantId, source, sourceEventId)
    {
      var i := |events|;
      assert events[..i] == events;
      while i > 0
        invariant 0 <= i <= |events|
        invariant FindEvent(events, tenantId, source, sourceEventId) == FindEvent(events[..i], tenantId, source, sourceEventId)
      {
        assert events[..i][..i - 1] == events[..i - 1];
        i := i - 1;
        if events[i].tenantId == tenantId && events[i].source == source && events[i].sourceEventId == sourceEventId {
          return Some(i);
        }
      }
      id := None;
    }

    method WaitRow(stepId: string) returns (id: Option<nat>)
      ensures id == FindWait(waits, stepId)
    {
      var i := |waits|;
      assert waits[..i] == waits;
      while i > 0
        invariant 0 <= i <= |waits|
        invariant FindWait(waits, stepId) == FindWait(waits[..i], stepId)
      {
        assert waits[..i][..i - 1] == waits[..i - 1];
        i := i - 1;
        if waits[i].stepId == stepId {
          return Some(i);
        }
      }
      id := None;
    }

    /** The candidates come from the table by tenant, status, type and earliest time;
        the full matching rule then filters them. */
    method MatchingWaitRows(e: Event) returns (ids: seq<nat>)
      ensures ids == MatchingWaits(waits, e, clock)
    {
      ids := [];
      var i := 0;
      while i < |waits|
        invariant 0 <= i <= |waits|
        invariant ids == MatchingWaits(waits[..i], e, clock)
      {
        assert waits[..i + 1][..i] == waits[..i];
        var w := waits[i];
        if w.tenantId == e.tenantId && w.status == Pending && w.expectedEventType == e.eventType && w.earliestAt <= e.occurredAt {
          if Matches(e, w, clock) {
            ids := ids + [i];
          }
        }
        i := i + 1;
      }
      assert waits[..i] == waits;
    }

    method FirstMatchingEvent(w: Wait, cutoff: Time) returns (id: Option<nat>)
      ensures id == FirstMatch(events, w, clock, cutoff)
    {
      id := None;
      var i := 0;
      while i < |events|
        invariant 0 <= i <= |events|
        invariant id == FirstMatch(events[..i], w, clock, cutoff)
      {
        assert events[..i + 1][..i] == events[..i];
        var e := events[i];
        if e.tenantId == w.tenantId && e.eventType == w.expectedEventType && e.status != Ignored && e.occurredAt <= cutoff {
          if Matches(e, w, clock) && (id.None? || Earlier(e, events[id.value])) {
            id := Some(i);
          }
        }
        i := i + 1;
      }
      assert events[..i] == events;
    }

    method ClaimWaitWake(waitId: nat, eventId: nat, cause: Cause) returns (r: Result<Option<nat>, Error>)
      requires waitId < |waits|
      modifies this`waits, this`jobs, this`loops, this`claims, this`works
      ensures match ClaimWake(old(View()), waitId, eventId, cause)
              case Err(e) => r == Err(e)
              case Ok((s, claim)) => r == Ok(claim) && View() == s
    {
      var w := waits[waitId];
      var loopKey := (w.tenantId, w.loopId);
      if loopKey !in loops { return Err(LoopMissing); }
      var loop := loops[loopKey];
      var activePlan := w.planRevisionId.Some? && (w.tenantId, w.planRevisionId.value) in plans
        && plans[(w.tenantId, w.planRevisionId.value)] == Plan(w.workId, true);
      var stale := (w.objectiveRevision.Some? && w.objectiveRevision.value != loop.revision)
        || (w.planRevisionId.Some? && !activePlan);
      if LoopEnded(loop) || stale {
        if w.status == Pending {
          waits := waits[waitId := w.(status := Withdrawn)];
        }
        return Ok(None);
      }
      if w.status != Pending { return Ok(None); }
      r := WriteWake(waitId, eventId, cause, loop);
    }

    /** The writes of a wake-up, from the status of the wait to the status of its Work. */
    method WriteWake(waitId: nat, eventId: nat, cause: Cause, loop: Loop) returns (r: Result<Option<nat>, Error>)
      requires waitId < |waits| && waits[waitId].status == Pending
      requires (waits[waitId].tenantId, waits[waitId].loopId) in loops
      requires loops[(waits[waitId].tenantId, waits[waitId].loopId)] == loop
      modifies this`waits, this`jobs, this`loops, this`claims, this`works
      ensures r == if HasWakeJob(old(jobs), waitId) then Err(WakeJobExists)
                   else if (old(waits)[waitId].tenantId, old(waits)[waitId].workId) !in old(works) then Err(WorkMissing)
                   else Ok(Some(|old(claims)|))
      ensures r.Ok? ==> View() == Wake(old(View()), waitId, eventId, cause, loop)
    {
      var w := waits[waitId];
      var loopKey := (w.tenantId, w.loopId);
      waits := waits[waitId := w.(status := if cause == ByEvent then Satisfied else TimedOut, matchedEvent := Some(eventId))];
      if HasWakeJob(jobs, waitId) { return Err(WakeJobExists); }
      var jobId := |jobs|;
      jobs := jobs + [WakeJob(waitId, eventId, cause, w.loopId, loop.revision, loop.stepCount + 1)];
      if loops[loopKey].revision != loop.revision { return Err(RevisionChanged); }
      loops := loops[loopKey := loops[loopKey].(state := Continue)];
      var claimId := |claims|;
      claims := claims + [WakeClaim(waitId, eventId, w.loopId, w.workId, cause, loop.revision, jobId)];
      var workKey := (w.tenantId, w.workId);
      if workKey !in works { return Err(WorkMissing); }
      works := works[workKey := WorkKernel.WakeWork(works[workKey], WakeEventType(cause))];
      r := Ok(Some(claimId));
    }

    method MarkEvent(eventId: nat, status: EventStatus)
      requires eventId < |events|
      modifies this`events
      ensures View() == SetEventStatus(old(View()), eventId, status)
    {
      events := events[eventId := events[eventId].(status := status)];
    }

    /** Inserts the event, or finds the one that already holds its replay key. */
    method InsertEvent(input: EventInput) returns (eventId: nat)
      modifies this`events
      ensures (View(), eventId) == StoreEvent(old(View()), input)
      ensures eventId < |events|
    {
      var known := EventRow(input.tenantId, input.source, input.sourceEventId);
      if known.Some? {
        eventId := known.value;
        events := events[eventId := events[eventId].(scannedAt := Some(clock))];
      } else {
        var occurredAt := if input.occurredAt.Some? then input.occurredAt.value else clock;
        eventId := |events|;
        events := events + [Event(input.tenantId, input.source, input.sourceEventId, input.eventType, occurredAt, clock,
                                  input.partyType, input.partyId, input.workId, input.refs, NewEvent, Some(clock))];
      }
    }

    method ClaimEach(waitIds: seq<nat>, eventId: nat) returns (r: Result<seq<Woken>, Error>)
      requires forall k :: 0 <= k < |waitIds| ==> waitIds[k] < |waits|
      modifies this`waits, this`jobs, this`loops, this`claims, this`works
      ensures match ClaimAll(old(View()), waitIds, eventId)
              case Err(e) => r == Err(e)
              case Ok((s, wakes)) => r == Ok(wakes) && View() == s
    {
      ghost var s0 := View();
      var wakes: seq<Woken> := [];
      var i := 0;
      while i < |waitIds|
        invariant 0 <= i <= |waitIds|
        invariant |waits| == |s0.waits|
        invariant ClaimAll(s0, waitIds[..i], eventId) == Ok((View(), wakes))
      {
        ghost var s1 := View();
        ClaimAllExtends(s0, waitIds, i, eventId, s1, wakes);
        var claim := ClaimWaitWake(waitIds[i], eventId, ByEvent);
        if claim.Err? {
          ClaimAllStops(s0, waitIds, i + 1, eventId);
          return Err(claim.error);
        }
        ClaimWakeKeepsCount(s1, waitIds[i], eventId, ByEvent);
        if claim.value.Some? {
          wakes := wakes + [Woken(waitIds[i], claim.value.value)];
        }
        i := i + 1;
      }
      assert waitIds[..i] == waitIds;
      r := Ok(wakes);
    }

    method IngestIntegrationEvent(input: EventInput) returns (r: Result<IngestResult, Error>)
      modifies this
      ensures match Ingest(old(View()), input)
              case Err(e) => r == Err(e) && View() == old(View())
              case Ok((s, result)) => r == Ok(result) && View() == s
    {
      var snapshot := View();
      var eventId := InsertEvent(input);
      var inserted := |events| != |snapshot.events|;
      var event := events[eventId];
      var matching := MatchingWaitRows(event);
      var wakes := ClaimEach(matching, eventId);
      if wakes.Err? {
        Rollback(snapshot);
        return Err(wakes.error);
      }
      var matched := wakes.value != [] || event.status == Matched;
      MarkEvent(eventId, if matched then Matched else Unmatched);
      r := Ok(IngestResult(eventId, !inserted, wakes.value));
    }

    method WakeRow(waitId: nat, eventId: nat, cause: Cause) returns (r: Result<Option<nat>, Error>)
      requires waitId < |waits| && eventId < |events|
      modifies this
      ensures match WakeBy(old(View()), waitId, eventId, cause)
              case Err(e) => r == Err(e)
              case Ok((s, claim)) => r == Ok(claim) && View() == s
    {
      r := ClaimWaitWake(waitId, eventId, cause);
      if r.Ok? && r.value.Some? {
        MarkEvent(eventId, Matched);
      }
    }

    method InsertDeadlineJob(waitId: nat)
      requires waitId < |waits|
      modifies this`jobs
      ensures View() == ScheduleDeadline(old(View()), waitId)
    {
      var w := waits[waitId];
      if w.deadlineAt.Some? && w.status == Pending && !HasDeadlineJob(jobs, waitId) {
        jobs := jobs + [DeadlineJob(waitId, w.deadlineAt.value + SETTLEMENT_MS)];
      }
    }

    method InsertWait(input: WaitInput) returns (waitId: nat)
      modifies this`waits
      ensures (View(), waitId) == StoreWait(old(View()), input)
      ensures waitId < |waits|
    {
      var known := WaitRow(input.stepId);
      if known.Some? {
        waitId := known.value;
      } else {
        waitId := |waits|;
        waits := waits + [NewWait(input, clock)];
      }
    }

    method CheckWait(input: WaitInput) returns (e: Option<Error>)
      ensures e == WaitInputError(input, clock)
    {
      if Blank(input.eventType) { return Some(NoEventType); }
      if input.eventType != DEADLINE_REACHED && !Strong(input.refs) { return Some(WeakCorrelation); }
      var earliestAt := if input.earliestAt.Some? then input.earliestAt.value else clock;
      if input.deadlineAt.Some? && input.deadlineAt.value < earliestAt { return Some(DeadlineBeforeEarliest); }
      e := None;
    }

    method CreateEventWait(input: WaitInput) returns (r: Result<(nat, Option<nat>), Error>)
      modifies this
      ensures match CreateWait(old(View()), input)
              case Err(e) => r == Err(e) && View() == old(View())
              case Ok((s, result)) => r == Ok(result) && View() == s
    {
      var invalid := CheckWait(input);
      if invalid.Some? { return Err(invalid.value); }
      var snapshot := View();
      var waitId := InsertWait(input);
      var stored := waits[waitId];
      if stored.tenantId != input.tenantId {
        Rollback(snapshot);
        return Err(WaitUnavailable);
      }
      InsertDeadlineJob(waitId);
      if stored.status != Pending { return Ok((waitId, None)); }
      var existing := FirstMatchingEvent(stored, if input.deadlineAt.Some? then input.deadlineAt.value else END_OF_TIME);
      if existing.None? { return Ok((waitId, None)); }
      var wake := WakeRow(waitId, existing.value, ByEvent);
      if wake.Err? {
        Rollback(snapshot);
        return Err(wake.error);
      }
      r := Ok((waitId, wake.value));
    }

    method InsertDeadlineEvent(waitId: nat) returns (eventId: nat)
      requires waitId < |waits| && waits[waitId].deadlineAt.Some?
      modifies this`events
      ensures (View(), eventId) == StoreDeadlineEvent(old(View()), waitId)
    {
      var w := waits[waitId];
      var known := EventRow(w.tenantId, "deadline", DeadlineSourceId(waitId));
      if known.Some? {
        eventId := known.value;
      } else {
        eventId := |events|;
        events := events + [DeadlineEvent(w, waitId, clock)];
      }
    }

    method ProcessWaitDeadline(tenantId: TenantId, waitId: nat, at: Time) returns (r: Result<Outcome, Error>)
      modifies this
      ensures match ProcessDeadline(old(View()), tenantId, waitId, at)
              case Err(e) => r == Err(e) && View() == old(View())
              case Ok((s, outcome)) => r == Ok(outcome) && View() == s
    {
      if waitId >= |waits| || waits[waitId].tenantId != tenantId || waits[waitId].status != Pending { return Ok(Terminal); }
      var w := waits[waitId];
      if w.deadlineAt.None? || w.deadlineAt.value + SETTLEMENT_MS > at { return Ok(NotDue); }
      var snapshot := View();
      var winner := FirstMatchingEvent(w, w.deadlineAt.value);
      var cause, eventId := ByEvent, 0;
      if winner.Some? {
        eventId := winner.value;
      } else {
        eventId := InsertDeadlineEvent(waitId);
        cause := ByDeadline;
      }
      var wake := WakeRow(waitId, eventId, cause);
      if wake.Err? {
        Rollback(snapshot);
        return Err(wake.error);
      }
      if wake.value.None? { return Ok(Terminal); }
      r := Ok(if cause == ByEvent then OutcomeSatisfied(wake.value.value) else OutcomeTimedOut(wake.value.value));
    }
  }

  lemma ClaimWakeKeepsCount(s: State, waitId: nat, eventId: nat, cause: Cause)
    requires waitId < |s.waits| && ClaimWake(s, waitId, eventId, cause).Ok?
    ensures |ClaimWake(s, waitId, eventId, cause).value.0.waits| == |s.waits|
  {
  }

  lemma ClaimAllExtends(s: State, waitIds: seq<nat>, i: nat, eventId: nat, s1: State, wakes: seq<Woken>)
    requires forall k :: 0 <= k < |waitIds| ==> waitIds[k] < |s.waits|
    requires i < |waitIds| && |s1.waits| == |s.waits|
    requires ClaimAll(s, waitIds[..i], eventId) == Ok((s1, wakes))
    ensures ClaimAll(s, waitIds[..i + 1], eventId) ==
      match ClaimWake(s1, waitIds[i], eventId, ByEvent)
      case Err(e) => Err(e)
      case Ok((s2, claim)) => Ok((s2, if claim.Some? then wakes + [Woken(waitIds[i], claim.value)] else wakes))
  {
    assert waitIds[..i + 1][..i] == waitIds[..i];
  }

  /** The first failing claim fails the whole batch. */
  lemma {:induction false} ClaimAllStops(s: State, waitIds: seq<nat>, n: nat, eventId: nat)
    requires forall k :: 0 <= k < |waitIds| ==> waitIds[k] < |s.waits|
    requires n <= |waitIds|
    requires ClaimAll(s, waitIds[..n], eventId).Err?
    ensures ClaimAll(s, waitIds, eventId) == Err(ClaimAll(s, waitIds[..n], eventId).error)
    decreases |waitIds|
  {
    if n < |waitIds| {
      var last := |waitIds| - 1;
      assert waitIds[..last][..n] == waitIds[..n];
      ClaimAllStops(s, waitIds[..last], n, eventId);
    } else {
      assert waitIds[..n] == waitIds;
    }
  }
}
