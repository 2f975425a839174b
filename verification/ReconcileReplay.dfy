/** The replay loop: one event after another, each with early refusals, over the state
    the program keeps in local variables. */
module ReconcileReplay {
  import opened Basics
  import opened ReconcileDesk
  import opened ReconcileDeskSafety

  method CheckApprovers(m: Machine) returns (ok: bool)
    ensures ok <==> ApproversStillAuthorized(m)
  {
    var left := m.approvals.Keys;
    while left != {}
      invariant left <= m.approvals.Keys
      invariant forall role :: role in m.approvals && role !in left ==>
        Refusal(m.config, Some(m.approvals[role]), Some(NameOf(role))).None?
      decreases left
    {
      var role :| role in left;
      if Refusal(m.config, Some(m.approvals[role]), Some(NameOf(role))).Some? { return false; }
      left := left - {role};
    }
    ok := true;
  }

  method ReconcileSides(m: Machine) returns (r: Outcome)
    ensures r == DoReconcile(m)
  {
    var rec := m.record;
    if Threshold(rec.release, rec.currency).None? { return Outcome(m, UNSUPPORTED_CURRENCY); }
    if !(rec.currency == rec.bookCurrency == rec.bankCurrency) { return Outcome(m, CURRENCY_MISMATCH); }
    var book := AddUp(rec.bookMinor);
    if book.Err? { return Outcome(m, book.error); }
    var bank := AddUp(rec.bankMinor);
    if bank.Err? { return Outcome(m, bank.error); }
    var gap: int := book.value as int - bank.value as int;
    var delta: Option<int> := Some(gap);
    var m' := m.(amount := Some(book.value), delta := delta);
    if book.value != bank.value { return Outcome(m', AMOUNT_MISMATCH); }
    var binding := Binding(m.config.tenant, m.config.scope, rec.ref, rec.release, rec.currency, book.value, rec.sourceRefs);
    r := Outcome(m'.(binding := Some(binding), phase := Reconciled), RECONCILED);
  }

  method Perform(m: Machine, command: Command, actingAs: Option<string>, ref: Option<Ref>, race: bool) returns (r: Option<Outcome>)
    ensures r == DoCommand(m, command, actingAs, ref, race)
  {
    if command.Execute? { return Deny(m, EXECUTION_OUT_OF_SCOPE); }
    if command.Unknown? { return Deny(m, UNKNOWN_COMMAND); }
    var role := if command.Edit? || command.Reconcile? || command.Prepare? then Some(AnalystRole) else None;
    var refusal := Refusal(m.config, actingAs, role);
    if refusal.Some? { return Deny(m, refusal.value); }
    if ref.Some? && ref.value != m.record.ref { return Deny(m, RECORD_REF_MISMATCH); }
    if race { return Deny(m, COMMIT_CONFLICT); }
    var actor := m.config.actors[actingAs.value];
    if command.Read? {
      return Some(Outcome(m.(readCount := m.readCount + 1, readbacks := m.readbacks + [TakeSnapshot(m)]), READ));
    }
    if command.Edit? { return DoEdit(m, actor, command.changes); }
    if !PhaseAllows(m.phase, command) { return Deny(m, INVALID_STATE); }
    if m.record.release != m.config.activeRelease { return Deny(m, RELEASE_CHANGED); }
    var fault := FreshnessFault(m.config, m.record);
    if fault.Some? { return Deny(m, fault.value); }
    if command.Reconcile? {
      var o := ReconcileSides(m);
      return Some(o);
    }
    if command.Approve? { return DoApprove(m, actingAs.value, actor); }
    var ok := CheckApprovers(m);
    if !ok { return Deny(m, APPROVER_AUTHORITY_REVOKED); }
    r := Some(Outcome(m.(phase := Prepared, plans := 1), PREPARED));
  }

  method Dispatch(m: Machine, e: Event) returns (o: Option<Outcome>)
    ensures o == Handle(m, e)
  {
    if e.Do? {
      o := Perform(m, e.command, e.actingAs, e.ref, e.race);
    } else {
      o := Handle(m, e);
    }
  }

  method ReplayAll(c: Config, record: Record, events: seq<Event>) returns (r: Option<Machine>)
    ensures r == Replay(Start(c, record), events)
    ensures r.Some? ==> Sound(r.value)
  {
    var m := Start(c, record);
    for i := 0 to |events|
      invariant Replay(Start(c, record), events[..i]) == Some(m)
    {
      var e := events[i];
      assert events[..i + 1][..i] == events[..i];
      var o := Dispatch(m, e);
      if o.None? {
        StoppedStaysStopped(Start(c, record), events, i + 1);
        return None;
      }
      m := o.value.machine.(codes := m.codes + [o.value.code]);
    }
    assert events[..|events|] == events;
    SoundInEveryReplay(c, record, events);
    r := Some(m);
  }

  /** A replay that stops at one event has no result whatever follows. */
  lemma {:induction false} StoppedStaysStopped(m: Machine, events: seq<Event>, i: nat)
    requires i <= |events| && Replay(m, events[..i]).None?
    ensures Replay(m, events).None?
    decreases |events|
  {
    if i < |events| {
      assert events[..|events| - 1][..i] == events[..i];
      StoppedStaysStopped(m, events[..|events| - 1], i);
    } else {
      assert events[..i] == events;
    }
  }
}
