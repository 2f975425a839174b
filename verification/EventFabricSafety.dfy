/** What every run of the event fabric keeps: no wake-up is lost, and every wait that
    leaves `waiting` is accounted for by exactly one claim and one wake job. */
module EventFabricSafety {
  import opened Basics
  import WorkKernel
  import opened EventFabric

  predicate IsWoken(w: Wait) {
    w.status == Satisfied || w.status == TimedOut
  }

  // ------------------------------------------------------------------------
  // Frames: what claiming leaves alone
  // ------------------------------------------------------------------------

  /** The contract of a wait is immutable, and so is its outcome once it has one. */
  ghost predicate Advances(w: Wait, w': Wait) {
    && w' == w.(status := w'.status, matchedEvent := w'.matchedEvent)
    && (w.status != Pending ==> w' == w)
  }

  ghost predicate OnlyClaims(s: State, s': State) {
    && s'.events == s.events && s'.clock == s.clock && s'.plans == s.plans
    && |s'.waits| == |s.waits|
    && (forall i :: 0 <= i < |s.waits| ==> Advances(s.waits[i], s'.waits[i]))
  }

  lemma ClaimWakeFrame(s: State, waitId: nat, eventId: nat, cause: Cause)
    requires waitId < |s.waits|
    requires ClaimWake(s, waitId, eventId, cause).Ok?
    ensures var (s', claim) := ClaimWake(s, waitId, eventId, cause).value;
      && OnlyClaims(s, s')
      && s'.waits[waitId].status != Pending
      && s'.waits == s.waits[waitId := s'.waits[waitId]]
      && (claim.Some? <==> s.waits[waitId].status == Pending && IsWoken(s'.waits[waitId]))
  {
  }

  /** Only the named waits change, and none of them stays open. */
  ghost predicate OnlySettles(s: State, s': State, waitIds: seq<nat>) {
    && OnlyClaims(s, s')
    && (forall i :: 0 <= i < |s.waits| && i in waitIds ==> s'.waits[i].status != Pending)
    && (forall i :: 0 <= i < |s.waits| && i !in waitIds ==> s'.waits[i] == s.waits[i])
  }

  lemma {:induction false} ClaimAllFrame(s: State, waitIds: seq<nat>, eventId: nat)
    requires forall k :: 0 <= k < |waitIds| ==> waitIds[k] < |s.waits|
    requires ClaimAll(s, waitIds, eventId).Ok?
    ensures OnlySettles(s, ClaimAll(s, waitIds, eventId).value.0, waitIds)
    decreases |waitIds|
  {
    if waitIds != [] {
      var last := |waitIds| - 1;
      ClaimAllFrame(s, waitIds[..last], eventId);
      var s1 := ClaimAll(s, waitIds[..last], eventId).value.0;
      ClaimWakeFrame(s1, waitIds[last], eventId, ByEvent);
      assert waitIds == waitIds[..last] + [waitIds[last]];
      OneMoreSettled(s, s1, ClaimAll(s, waitIds, eventId).value.0, waitIds[..last], waitIds[last]);
    }
  }

  lemma OneMoreSettled(s: State, s1: State, s2: State, waitIds: seq<nat>, last: nat)
    requires OnlySettles(s, s1, waitIds) && OnlyClaims(s1, s2) && last < |s.waits|
    requires s2.waits == s1.waits[last := s2.waits[last]] && s2.waits[last].status != Pending
    ensures OnlySettles(s, s2, waitIds + [last])
  {
  }

  // ------------------------------------------------------------------------
  // No lost wake-up
  // ------------------------------------------------------------------------

  ghost predicate Timely(s: State) {
    && s.clock <= END_OF_TIME
    && (forall i :: 0 <= i < |s.waits| ==> s.waits[i].createdAt <= s.clock)
    && (forall i :: 0 <= i < |s.events| ==>
          && s.events[i].receivedAt <= s.clock
          && (s.events[i].scannedAt.Some? ==> s.events[i].scannedAt.value <= s.clock)
          && (s.events[i].scannedAt.None? ==> s.events[i].source == "deadline" && s.events[i].eventType == DEADLINE_REACHED)
          && (s.events[i].status == Ignored ==> s.events[i].source != "deadline"))
  }

  /** Why a stored event may fit an open wait: it lay in the future both when it was
      last ingested and when the wait was created, or the fabric itself wrote it as
      the deadline event of some wait (and the same holds, or this wait was already open). */
  ghost predicate Excused(e: Event, w: Wait) {
    match e.scannedAt
    case Some(t) => e.occurredAt > t && e.occurredAt > w.createdAt
    case None => w.createdAt <= e.receivedAt || e.occurredAt > w.createdAt
  }

  /** An open wait beside a stored event that fits it has an excuse. */
  ghost predicate Covered(e: Event, w: Wait) {
    e.status != Ignored && w.status == Pending && Fits(e, w) ==> Excused(e, w)
  }

  ghost predicate NoLostWakeUp(s: State) {
    forall i, j :: 0 <= i < |s.events| && 0 <= j < |s.waits| ==> Covered(s.events[i], s.waits[j])
  }

  ghost predicate Watched(s: State) {
    Timely(s) && NoLostWakeUp(s)
  }

  /** A wait that advances stays covered, and so does an event that changes its status
      without being revived. */
  lemma StaysCovered(e: Event, e': Event, w: Wait, w': Wait)
    requires Covered(e, w) && Advances(w, w') && e' == e.(status := e'.status)
    requires e'.status != Ignored ==> e.status != Ignored
    ensures Covered(e', w')
  {
  }

  lemma ClaimsKeepWatch(s: State, s': State)
    requires Watched(s) && OnlyClaims(s, s')
    ensures Watched(s')
  {
    forall i, j | 0 <= i < |s'.events| && 0 <= j < |s'.waits| ensures Covered(s'.events[i], s'.waits[j]) {
      StaysCovered(s.events[i], s'.events[i], s.waits[j], s'.waits[j]);
    }
  }

  lemma SetStatusKeepsWatch(s: State, id: nat, status: EventStatus)
    requires Watched(s) && id < |s.events|
    requires status == Ignored ==> s.events[id].source != "deadline"
    requires status != Ignored ==> s.events[id].status != Ignored
    ensures Watched(SetEventStatus(s, id, status))
  {
    var s' := SetEventStatus(s, id, status);
    forall i, j | 0 <= i < |s'.events| && 0 <= j < |s'.waits| ensures Covered(s'.events[i], s'.waits[j]) {
      StaysCovered(s.events[i], s'.events[i], s.waits[j], s'.waits[j]);
    }
  }

  /** Watched up to one event, which has just been stamped and is about to be scanned. */
  ghost predicate WatchedButEvent(s: State, id: nat) {
    && Timely(s)
    && id < |s.events| && s.events[id].scannedAt == Some(s.clock)
    && (forall i, j :: 0 <= i < |s.events| && 0 <= j < |s.waits| && i != id ==> Covered(s.events[i], s.waits[j]))
  }

  lemma ScanRestoresWatch(s: State, s': State, id: nat, status: EventStatus)
    requires WatchedButEvent(s, id) && OnlyClaims(s, s')
    requires forall j :: 0 <= j < |s.waits| && s'.waits[j].status == Pending ==> !Matches(s.events[id], s.waits[j], s.clock)
    requires status != Ignored
    ensures Watched(SetEventStatus(s', id, status))
  {
    var s3 := SetEventStatus(s', id, status);
    forall i, j | 0 <= i < |s3.events| && 0 <= j < |s3.waits| ensures Covered(s3.events[i], s3.waits[j]) {
      if i == id {
        ScannedIsCovered(s.events[id], s3.events[id], s.waits[j], s3.waits[j], s.clock);
      } else {
        StaysCovered(s.events[i], s3.events[i], s.waits[j], s3.waits[j]);
      }
    }
  }

  /** The event just scanned is covered: what it fits and leaves open lies in its future. */
  lemma ScannedIsCovered(e: Event, e': Event, w: Wait, w': Wait, now: Time)
    requires Advances(w, w') && e' == e.(status := e'.status) && e.scannedAt == Some(now) && w.createdAt <= now
    requires w'.status == Pending ==> !Matches(e, w, now)
    ensures Covered(e', w')
  {
  }

  lemma StoreEventKeepsWatch(s: State, input: EventInput)
    requires Watched(s)
    ensures WatchedButEvent(StoreEvent(s, input).0, StoreEvent(s, input).1)
    ensures StoreEvent(s, input).0.waits == s.waits
  {
    var (s1, id) := StoreEvent(s, input);
    assert forall i :: 0 <= i < |s1.events| && i != id ==> i < |s.events| && s1.events[i] == s.events[i];
  }

  /** One ingest is three steps: store the event, settle the waits it matches, note on the event whether it woke one. */
  lemma IngestSteps(s: State, input: EventInput, s1: State, id: nat, waitIds: seq<nat>)
    requires (s1, id) == StoreEvent(s, input) && waitIds == MatchingWaits(s1.waits, s1.events[id], s1.clock)
    ensures Ingest(s, input).Ok? <==> ClaimAll(s1, waitIds, id).Ok?
    ensures Ingest(s, input).Err? ==> Ingest(s, input).error == ClaimAll(s1, waitIds, id).error
    ensures Ingest(s, input).Ok? ==>
      var s2 := ClaimAll(s1, waitIds, id).value.0; var s' := Ingest(s, input).value.0;
      id < |s2.events| && id < |s'.events| && s'.events[id].status in {Matched, Unmatched}
      && s' == SetEventStatus(s2, id, s'.events[id].status)
  {
    if ClaimAll(s1, waitIds, id).Ok? {
      ClaimAllFrame(s1, waitIds, id);
    }
  }

  lemma IngestKeepsWatch(s: State, input: EventInput)
    requires Watched(s) && Ingest(s, input).Ok?
    ensures Watched(Ingest(s, input).value.0)
  {
    var (s1, id) := StoreEvent(s, input);
    var ms := MatchingWaits(s1.waits, s1.events[id], s1.clock);
    StoreEventKeepsWatch(s, input);
    IngestSteps(s, input, s1, id, ms);
    ClaimAllFrame(s1, ms, id);
    ScanRestoresWatch(s1, ClaimAll(s1, ms, id).value.0, id, Ingest(s, input).value.0.events[id].status);
  }

  lemma WakeByKeepsWatch(s: State, waitId: nat, eventId: nat, cause: Cause)
    requires Watched(s) && waitId < |s.waits| && eventId < |s.events|
    requires s.events[eventId].status != Ignored
    requires WakeBy(s, waitId, eventId, cause).Ok?
    ensures Watched(WakeBy(s, waitId, eventId, cause).value.0)
  {
    ClaimWakeFrame(s, waitId, eventId, cause);
    var (s', claim) := ClaimWake(s, waitId, eventId, cause).value;
    ClaimsKeepWatch(s, s');
    if claim.Some? {
      SetStatusKeepsWatch(s', eventId, Matched);
    }
  }

  /** Watched up to one fresh wait, whose stored events have not been looked at yet. */
  ghost predicate WatchedBut(s: State, newest: nat) {
    && Timely(s)
    && (forall i, j :: 0 <= i < |s.events| && 0 <= j < |s.waits| && j != newest ==> Covered(s.events[i], s.waits[j]))
  }

  lemma StoreWaitKeepsWatch(s: State, input: WaitInput)
    requires Watched(s)
    ensures var (s1, id) := StoreWait(s, input); var s2 := ScheduleDeadline(s1, id);
      && WatchedBut(s2, id)
      && s2.waits == s1.waits
      && (|s1.waits| == |s.waits| ==> Watched(s2))
      && (|s1.waits| > |s.waits| ==> s2.waits[id].createdAt == s.clock && s2.waits[id].deadlineAt == input.deadlineAt)
  {
    var (s1, id) := StoreWait(s, input);
    var s2 := ScheduleDeadline(s1, id);
    assert s2.events == s.events && s2.clock == s.clock && s2.waits == s1.waits;
    if |s1.waits| > |s.waits| {
      AddedWaitKeepsWatch(s, s2, NewWait(input, s.clock));
    } else {
      TimeKeepsWatch(s, s2);
    }
  }

  lemma AddedWaitKeepsWatch(s: State, s': State, w: Wait)
    requires Watched(s) && w.createdAt == s.clock
    requires s'.events == s.events && s'.clock == s.clock && s'.waits == s.waits + [w]
    ensures WatchedBut(s', |s.waits|)
  {
  }

  lemma SettledWaitRestoresWatch(s: State, id: nat)
    requires WatchedBut(s, id) && id < |s.waits| && s.waits[id].status != Pending
    ensures Watched(s)
  {
  }

  lemma CutoffLosesNothing(s: State, id: nat, cutoff: Time)
    requires WatchedBut(s, id) && id < |s.waits| && s.waits[id].createdAt == s.clock
    requires cutoff == (if s.waits[id].deadlineAt.Some? then s.waits[id].deadlineAt.value else END_OF_TIME)
    requires forall i :: 0 <= i < |s.events| ==> !Candidate(s.events[i], s.waits[id], s.clock, cutoff)
    ensures Watched(s)
  {
    forall i, j | 0 <= i < |s.events| && 0 <= j < |s.waits| ensures Covered(s.events[i], s.waits[j]) {
      if j == id {
        assert !Candidate(s.events[i], s.waits[id], s.clock, cutoff);
      }
    }
  }

  lemma ClaimsKeepWatchBut(s: State, s': State, id: nat)
    requires WatchedBut(s, id) && OnlyClaims(s, s')
    ensures WatchedBut(s', id)
  {
    forall i, j | 0 <= i < |s'.events| && 0 <= j < |s'.waits| && j != id ensures Covered(s'.events[i], s'.waits[j]) {
      StaysCovered(s.events[i], s'.events[i], s.waits[j], s'.waits[j]);
    }
  }

  /** A stored match settles the fresh wait. */
  lemma FoundMatchKeepsWatch(s: State, id: nat, found: nat)
    requires WatchedBut(s, id) && id < |s.waits| && found < |s.events| && s.events[found].status != Ignored
    requires WakeBy(s, id, found, ByEvent).Ok?
    ensures Watched(WakeBy(s, id, found, ByEvent).value.0)
  {
    ClaimWakeFrame(s, id, found, ByEvent);
    var (s', claim) := ClaimWake(s, id, found, ByEvent).value;
    ClaimsKeepWatchBut(s, s', id);
    SettledWaitRestoresWatch(s', id);
    if claim.Some? {
      SetStatusKeepsWatch(s', found, Matched);
    }
  }

  lemma CreateWaitKeepsWatch(s: State, input: WaitInput)
    requires Watched(s) && CreateWait(s, input).Ok?
    ensures Watched(CreateWait(s, input).value.0)
  {
    var (s1, id) := StoreWait(s, input);
    var s2 := ScheduleDeadline(s1, id);
    StoreWaitKeepsWatch(s, input);
    if s2.waits[id].status == Pending {
      var cutoff := if input.deadlineAt.Some? then input.deadlineAt.value else END_OF_TIME;
      var found := FirstMatch(s2.events, s2.waits[id], s2.clock, cutoff);
      if found.Some? {
        FoundMatchKeepsWatch(s2, id, found.value);
      } else if |s1.waits| > |s.waits| {
        CutoffLosesNothing(s2, id, cutoff);
      }
    }
  }

  lemma StoreDeadlineEventKeepsWatch(s: State, waitId: nat)
    requires Watched(s) && waitId < |s.waits| && s.waits[waitId].deadlineAt.Some?
    ensures Watched(StoreDeadlineEvent(s, waitId).0)
  {
    var (s1, id) := StoreDeadlineEvent(s, waitId);
    forall i, j | 0 <= i < |s1.events| && 0 <= j < |s1.waits| ensures Covered(s1.events[i], s1.waits[j]) {
      if i < |s.events| {
        assert Covered(s.events[i], s.waits[j]);
      }
    }
  }

  lemma DeadlineKeepsWatch(s: State, tenantId: TenantId, waitId: nat, at: Time)
    requires Watched(s) && ProcessDeadline(s, tenantId, waitId, at).Ok?
    ensures Watched(ProcessDeadline(s, tenantId, waitId, at).value.0)
  {
    if waitId < |s.waits| && s.waits[waitId].deadlineAt.Some? {
      var winner := FirstMatch(s.events, s.waits[waitId], s.clock, s.waits[waitId].deadlineAt.value);
      if winner.Some? {
        if WakeBy(s, waitId, winner.value, ByEvent).Ok? {
          WakeByKeepsWatch(s, waitId, winner.value, ByEvent);
        }
      } else {
        StoreDeadlineEventKeepsWatch(s, waitId);
        var (s1, id) := StoreDeadlineEvent(s, waitId);
        if WakeBy(s1, waitId, id, ByDeadline).Ok? {
          WakeByKeepsWatch(s1, waitId, id, ByDeadline);
        }
      }
    }
  }

  lemma ApplyKeepsWatch(s: State, op: Op)
    requires Watched(s)
    ensures Watched(Apply(s, op))
  {
    match op
    case IngestOp(input) => if Ingest(s, input).Ok? { IngestKeepsWatch(s, input); }
    case CreateWaitOp(input) => if CreateWait(s, input).Ok? { CreateWaitKeepsWatch(s, input); }
    case DeadlineOp(tenant, id, at) => if ProcessDeadline(s, tenant, id, at).Ok? { DeadlineKeepsWatch(s, tenant, id, at); }
    case IgnoreOp(id) =>
      if id < |s.events| && s.events[id].source != "deadline" {
        SetStatusKeepsWatch(s, id, Ignored);
      }
    case _ => OthersKeepWatch(s, op);
  }

  lemma OthersKeepWatch(s: State, op: Op)
    requires Watched(s) && !op.IngestOp? && !op.CreateWaitOp? && !op.DeadlineOp? && !op.IgnoreOp?
    ensures Watched(Apply(s, op))
  {
    if op.WithdrawOp? {
      WithdrawOnlyClaims(s, op);
      ClaimsKeepWatch(s, Apply(s, op));
    } else {
      TimeKeepsWatch(s, Apply(s, op));
    }
  }

  lemma WithdrawOnlyClaims(s: State, op: Op)
    requires op.WithdrawOp?
    ensures OnlyClaims(s, Apply(s, op))
  {
  }

  lemma TimeKeepsWatch(s: State, s': State)
    requires Watched(s) && s'.events == s.events && s'.waits == s.waits && s.clock <= s'.clock <= END_OF_TIME
    ensures Watched(s')
  {
  }

  lemma {:induction false} RunKeepsWatch(now: Time, ops: seq<Op>)
    requires now <= END_OF_TIME
    ensures Watched(Run(now, ops))
  {
    if ops != [] {
      RunKeepsWatch(now, ops[..|ops| - 1]);
      ApplyKeepsWatch(Run(now, ops[..|ops| - 1]), ops[|ops| - 1]);
    }
  }

  /** No lost wake-up. In every run, an open wait is matched by a stored, non-ignored
      event only if that event was dated in the future both when it was last ingested
      and when the wait was created. Waits on deadline.reached are the exception: the
      fabric does not rescan them when it writes deadline events itself. */
  lemma NoWakeUpIsLost(now: Time, ops: seq<Op>, eventId: nat, waitId: nat)
    requires now <= END_OF_TIME
    requires var s := Run(now, ops);
      && eventId < |s.events| && waitId < |s.waits|
      && s.waits[waitId].expectedEventType != DEADLINE_REACHED
      && s.events[eventId].status != Ignored
      && Fits(s.events[eventId], s.waits[waitId])
      && s.waits[waitId].status == Pending
    ensures var s := Run(now, ops); var e := s.events[eventId];
      e.scannedAt.Some? && e.occurredAt > e.scannedAt.value && e.occurredAt > s.waits[waitId].createdAt
  {
    RunKeepsWatch(now, ops);
    assert Covered(Run(now, ops).events[eventId], Run(now, ops).waits[waitId]);
  }
}
